// When the flashblocks of a run are sent, and whether the two counts agree
// along it: the schedules of the timing model are exactly those of runs.
module RunTiming {
  import opened Prelude
  import opened Platform
  import opened Checkpoints
  import opened FlashblockLimits
  import opened Schedule
  import opened Counts
  import opened BeyondBlockTime
  import opened Flashblocks
  import opened Pipeline
  import opened RunLemmas

  // --- Timing of a run ----------------------------------------------------

  // Each inner loop lasts at least the deadline it is handed.
  ghost predicate Patient(p: Plan, passes: seq<Iteration>, runs: seq<Run>)
    requires p.Valid() && |runs| == |passes| + 1
  {
    forall i :: 0 <= i < |passes| && runs[i].status == Running ==> Allotted(p, runs[i].job) <= passes[i].building
  }

  // The time allotted to the inner loop that starts now, by the limits created
  // for it.
  function Allotted(p: Plan, job: Job): Duration
    requires p.Valid()
  {
    Entry(Context(job.history), job.elapsed).Limits(p).deadline.value
  }

  // It does not depend on the flashblock number.
  lemma AllottedIsNext(p: Plan, job: Job)
    requires p.Valid()
    ensures Allotted(p, job) == p.NextDeadline(job.elapsed)
  {
  }

  // The times at which the first k + 1 passes begin.
  function EntryTimes(runs: seq<Run>, k: nat): seq<Duration>
    requires k < |runs|
  {
    seq(k + 1, i requires 0 <= i <= k => runs[i].job.elapsed)
  }

  lemma {:induction false} ChainRunning(block: BlockContext, target: nat, passes: seq<Iteration>, runs: seq<Run>,
                                        i: nat, k: nat)
    requires Chain(block, target, passes, runs) && i <= k <= |passes| && runs[k].status == Running
    ensures runs[i].status == Running
  {
    if i < k {
      assert Linked(block, target, runs[k - 1], passes[k - 1], runs[k]);
      ChainRunning(block, target, passes, runs, i, k - 1);
    }
  }

  // The entry times of a run that is still going form a jittered schedule.
  lemma EntriesJittered(p: Plan, target: nat, passes: seq<Iteration>, runs: seq<Run>, k: nat)
    requires p.Valid() && Chain(p.block, target, passes, runs) && Patient(p, passes, runs)
    requires k <= |passes| && runs[k].status == Running
    ensures Jittered(p, EntryTimes(runs, k))
  {
    forall i | 0 <= i < k
      ensures runs[i].job.elapsed + p.NextDeadline(runs[i].job.elapsed) <= runs[i + 1].job.elapsed
    {
      ChainRunning(p.block, target, passes, runs, i, k);
      AllottedIsNext(p, runs[i].job);
      assert Linked(p.block, target, runs[i], passes[i], runs[i + 1]);
    }
  }

  lemma JitteredExtend(p: Plan, entries: seq<Duration>, e: Duration)
    requires p.Valid() && Jittered(p, entries) && 0 < |entries|
    requires entries[|entries| - 1] + p.NextDeadline(entries[|entries| - 1]) <= e
    ensures Jittered(p, entries + [e])
  {
  }

  lemma {:induction false} ScheduledAt(p: Plan, entries: seq<Duration>, k: nat)
    requires p.Valid() && KeepsToGrid(p) && Jittered(p, entries) && k < |entries|
    ensures p.RemainingMs(entries[k]) <= SaturatingSub(p.Slots(), k) * p.IntervalMs()
  {
    if k <= p.Slots() {
      StaysOnSchedule(p, entries, k);
    } else {
      ScheduledAt(p, entries, k - 1);
      RemainingShrinks(p, entries[k - 1], entries[k]);
    }
  }

  // A flashblock sent in pass k is not early, even counted against the slot
  // of the k-th flashblock.
  lemma SendNotEarly(p: Plan, target: nat, passes: seq<Iteration>, runs: seq<Run>,
                     k: nat, at: Duration)
    requires p.Valid() && KeepsToGrid(p)
    requires Chain(p.block, target, passes, runs) && Patient(p, passes, runs)
    requires k < |passes| && runs[k].status == Running && runs[k].job.elapsed + passes[k].building <= at
    ensures p.RemainingMs(at) <= SaturatingSub(p.Slots(), k + 1) * p.IntervalMs()
  {
    var entries := EntryTimes(runs, k);
    EntriesJittered(p, target, passes, runs, k);
    AllottedIsNext(p, runs[k].job);
    JitteredExtend(p, entries, at);
    ScheduledAt(p, entries + [at], k + 1);
  }

  // Flashblock j was sent no earlier than j intervals into the grid.
  ghost predicate SentOnGrid(p: Plan, job: Job)
    requires p.Valid()
  {
    forall j :: 0 <= j < |job.publishedAt| ==>
                  p.RemainingMs(job.publishedAt[j]) <= SaturatingSub(p.Slots(), j + 1) * p.IntervalMs()
  }

  lemma SentOnGridExtend(p: Plan, before: Job, after: Job, k: nat)
    requires p.Valid() && SentOnGrid(p, before) && |before.publishedAt| <= k
    requires |after.publishedAt| == |before.publishedAt| + 1
    requires before.publishedAt == after.publishedAt[..|before.publishedAt|]
    requires p.RemainingMs(after.publishedAt[|before.publishedAt|]) <= SaturatingSub(p.Slots(), k + 1) * p.IntervalMs()
    ensures SentOnGrid(p, after)
  {
    var m := |before.publishedAt|;
    ProductMonotone(SaturatingSub(p.Slots(), k + 1), SaturatingSub(p.Slots(), m + 1), p.IntervalMs());
    forall j | 0 <= j < m
      ensures p.RemainingMs(after.publishedAt[j]) <= SaturatingSub(p.Slots(), j + 1) * p.IntervalMs()
    {
      assert after.publishedAt[j] == before.publishedAt[j];
    }
  }

  lemma {:induction false} ChainSentOnGrid(p: Plan, target: nat, passes: seq<Iteration>, runs: seq<Run>, k: nat)
    requires p.Valid() && KeepsToGrid(p)
    requires Chain(p.block, target, passes, runs) && Patient(p, passes, runs) && k <= |passes|
    ensures SentOnGrid(p, runs[k].job) && |runs[k].job.publishedAt| <= k
  {
    if 0 < k {
      ChainSentOnGrid(p, target, passes, runs, k - 1);
      var before, pass := runs[k - 1], passes[k - 1];
      assert Linked(p.block, target, before, pass, runs[k]);
      if before.status == Running && pass.Outcome() == Sent {
        SendNotEarly(p, target, passes, runs, k - 1, before.job.elapsed + pass.building + pass.finishing);
        SentOnGridExtend(p, before.job, runs[k].job, k - 1);
      }
    }
  }

  // No flashblock early, in any run of the machine: if the plan keeps to the
  // grid and every inner loop uses up its deadline, flashblock j (from 0) of n
  // is sent less than a millisecond before n - 1 - j intervals are left,
  // whatever the jitter and however many messages were refused.
  lemma {:induction false} NoFlashblockEarly(p: Plan, prologue: seq<Draft>, lead: Duration,
                                             passes: seq<Iteration>, j: nat)
    requires p.Valid() && KeepsToGrid(p)
    requires Patient(p, passes, Runs(p, StartJob(p.block, prologue, lead), passes))
    requires j < |RunLoop(p, StartJob(p.block, prologue, lead), passes).job.published|
    ensures var job := RunLoop(p, StartJob(p.block, prologue, lead), passes).job;
            && |job.publishedAt| == |job.published|
            && p.Deadline() < job.publishedAt[j]
                              + SaturatingSub(p.Slots(), j + 1) * p.IntervalMs() * MILLISECOND + MILLISECOND
  {
    var start := StartJob(p.block, prologue, lead);
    var runs := Runs(p, start, passes);
    StartIsFresh(p.block, prologue, lead);
    RunsChain(p, start, passes);
    ChainSound(p.block, p.Slots(), passes, runs, |passes|);
    ChainSentOnGrid(p, p.Slots(), passes, runs, |passes|);
    LessThanOneMillisEarly(p, runs[|passes|].job.publishedAt[j], SaturatingSub(p.Slots(), j + 1));
  }

  // --- Runs that follow a schedule ----------------------------------------

  // The passes whose inner loops fill a schedule exactly, with every flashblock
  // sent.
  function PassesFor(entries: seq<Duration>): seq<Iteration>
    requires 0 < |entries|
  {
    seq(|entries| - 1, i requires 0 <= i < |entries| - 1 =>
      Iteration([], SaturatingSub(entries[i + 1], entries[i]), None, 0, true, true, 1, 0))
  }

  // Where a run has got to after k passes along a schedule.
  ghost predicate Follows(p: Plan, entries: seq<Duration>, run: Run, k: nat)
    requires p.Valid() && k < |entries|
  {
    && run.job.elapsed == entries[k]
    && |run.job.published| == k && run.job.publishedAt == entries[1..k + 1]
    && run.status == (if 0 < k && p.Slots() <= k then Stopped else Running)
  }

  // What a pass that sends its flashblock does to the times of a run.
  ghost predicate TimeLinked(target: nat, before: Run, time: Duration, run: Run) {
    && run.job.elapsed == before.job.elapsed + time
    && |run.job.published| == |before.job.published| + 1
    && run.job.publishedAt == before.job.publishedAt + [before.job.elapsed + time]
    && run.status == (if target <= |run.job.published| then Stopped else Running)
  }

  lemma PassTimes(block: BlockContext, target: nat, before: Run, pass: Iteration, run: Run)
    requires Linked(block, target, before, pass, run) && before.status == Running
    requires pass.Outcome() == Sent && pass.finishing == 0 && pass.trailing == 0
    ensures TimeLinked(target, before, pass.building, run)
  {
  }

  lemma FollowsNext(p: Plan, entries: seq<Duration>, before: Run, run: Run, k: nat)
    requires p.Valid() && 0 < k < |entries| && Follows(p, entries, before, k - 1) && before.status == Running
    requires entries[k - 1] <= entries[k]
    requires TimeLinked(p.Slots(), before, SaturatingSub(entries[k], entries[k - 1]), run)
    ensures Follows(p, entries, run, k)
  {
    assert entries[1..k + 1] == entries[1..k] + [entries[k]];
  }

  lemma {:induction false} ScheduleFollowed(p: Plan, target: nat, entries: seq<Duration>, runs: seq<Run>, k: nat)
    requires p.Valid() && 0 < |entries| && Jittered(p, entries) && target == p.Slots()
    requires Chain(p.block, target, PassesFor(entries), runs) && runs[0].job.elapsed == entries[0]
    requires k < |entries| && (k <= 1 || k <= p.Slots())
    ensures Follows(p, entries, runs[k], k)
  {
    if 0 < k {
      ScheduleFollowed(p, target, entries, runs, k - 1);
      var pass := PassesFor(entries)[k - 1];
      assert entries[k - 1] + p.NextDeadline(entries[k - 1]) <= entries[k];
      PassTimes(p.block, target, runs[k - 1], pass, runs[k]);
      FollowsNext(p, entries, runs[k - 1], runs[k], k);
    }
  }

  lemma StartElapsed(p: Plan, start: Job, passes: seq<Iteration>)
    requires p.Valid()
    ensures Runs(p, start, passes)[0].job == start
  {
    assert passes[..0] == [];
  }

  // Every schedule of at most n steps is the schedule of a run.
  lemma ScheduleIsRun(p: Plan, entries: seq<Duration>, k: nat)
    requires p.Valid() && 0 < |entries| && Jittered(p, entries) && entries[0] == 0
    requires k < |entries| && (k <= 1 || k <= p.Slots())
    ensures Follows(p, entries, Runs(p, StartJob(p.block, [], 0), PassesFor(entries))[k], k)
  {
    var start, passes := StartJob(p.block, [], 0), PassesFor(entries);
    StartIsFresh(p.block, [], 0);
    RunsChain(p, start, passes);
    StartElapsed(p, start, passes);
    ScheduleFollowed(p, p.Slots(), entries, Runs(p, start, passes), k);
  }

  // --- Never early, exactly -----------------------------------------------

  // A whole run in which every inner loop uses up its deadline.
  ghost predicate PatientRun(p: Plan, prologue: seq<Draft>, lead: Duration, passes: seq<Iteration>)
    requires p.Valid()
  {
    Patient(p, passes, Runs(p, StartJob(p.block, prologue, lead), passes))
  }

  // No flashblock j of n is sent a millisecond or more before n - 1 - j
  // intervals are left.
  ghost predicate NoneSentEarly(p: Plan, job: Job)
    requires p.Valid()
  {
    forall j :: 0 <= j < |job.publishedAt| ==>
                  p.Deadline() < job.publishedAt[j]
                                 + SaturatingSub(p.Slots(), j + 1) * p.IntervalMs() * MILLISECOND + MILLISECOND
  }

  lemma SchedulePatient(p: Plan, entries: seq<Duration>)
    requires p.Valid() && 0 < |entries| <= p.Slots() + 1 && Jittered(p, entries) && entries[0] == 0
    ensures PatientRun(p, [], 0, PassesFor(entries))
  {
    var passes := PassesFor(entries);
    var runs := Runs(p, StartJob(p.block, [], 0), passes);
    forall i | 0 <= i < |passes|
      ensures Allotted(p, runs[i].job) <= passes[i].building
    {
      ScheduleIsRun(p, entries, i);
      AllottedIsNext(p, runs[i].job);
      assert entries[i] + p.NextDeadline(entries[i]) <= entries[i + 1];
    }
  }

  lemma {:induction false} WholeRun(p: Plan, start: Job, passes: seq<Iteration>)
    requires p.Valid()
    ensures Runs(p, start, passes)[|passes|] == RunLoop(p, start, passes)
  {
    assert passes[..|passes|] == passes;
  }

  lemma {:induction false} ScheduleIsWholeRun(p: Plan, entries: seq<Duration>)
    requires p.Valid() && 1 < |entries| <= p.Slots() + 1 && Jittered(p, entries) && entries[0] == 0
    ensures Follows(p, entries, RunLoop(p, StartJob(p.block, [], 0), PassesFor(entries)), |entries| - 1)
  {
    ScheduleIsRun(p, entries, |entries| - 1);
    WholeRun(p, StartJob(p.block, [], 0), PassesFor(entries));
  }

  lemma SentTooEarly(p: Plan, entries: seq<Duration>, run: Run, k: nat)
    requires p.Valid() && 0 < k < |entries| && k <= p.Slots() && Follows(p, entries, run, k)
    requires p.RemainingMs(entries[k]) > (p.Slots() - k) * p.IntervalMs()
    ensures !NoneSentEarly(p, run.job)
  {
    assert run.job.publishedAt[k - 1] == entries[k];
    LessThanOneMillisEarly(p, run.job.publishedAt[k - 1], p.Slots() - k);
  }

  // A schedule any run along which sends its last flashblock too early.
  ghost predicate EarlySchedule(p: Plan, entries: seq<Duration>)
    requires p.Valid()
  {
    && 1 < |entries| <= p.Slots() + 1 && entries[0] == 0 && Jittered(p, entries)
    && forall run :: Follows(p, entries, run, |entries| - 1) ==> !NoneSentEarly(p, run.job)
  }

  lemma GridIsLeft(p: Plan) returns (entries: seq<Duration>)
    requires p.Valid() && !KeepsToGrid(p)
    ensures EarlySchedule(p, entries)
  {
    var schedule, k := ShortestRunLeavesGrid(p);
    entries := schedule[..k + 1];
    forall run | Follows(p, entries, run, k)
      ensures !NoneSentEarly(p, run.job)
    {
      SentTooEarly(p, entries, run, k);
    }
  }

  // The run along it.
  lemma {:induction false} EarlyRun(p: Plan, entries: seq<Duration>)
    requires p.Valid() && EarlySchedule(p, entries)
    ensures PatientRun(p, [], 0, PassesFor(entries))
    ensures !NoneSentEarly(p, RunLoop(p, StartJob(p.block, [], 0), PassesFor(entries)).job)
  {
    SchedulePatient(p, entries);
    ScheduleIsWholeRun(p, entries);
  }

  // No run of the machine whose inner loops use up their deadlines can send a
  // flashblock early exactly when the plan keeps to the grid.
  lemma {:induction false} NoFlashblockEarlyIff(p: Plan)
    requires p.Valid()
    ensures (forall prologue, lead, passes :: PatientRun(p, prologue, lead, passes) ==>
               NoneSentEarly(p, RunLoop(p, StartJob(p.block, prologue, lead), passes).job))
            <==> KeepsToGrid(p)
  {
    if KeepsToGrid(p) {
      forall prologue, lead, passes | PatientRun(p, prologue, lead, passes)
        ensures NoneSentEarly(p, RunLoop(p, StartJob(p.block, prologue, lead), passes).job)
      {
        PatientRunOnGrid(p, prologue, lead, passes);
      }
    } else {
      var entries := GridIsLeft(p);
      EarlyRun(p, entries);
    }
  }

  lemma {:induction false} PatientRunOnGrid(p: Plan, prologue: seq<Draft>, lead: Duration, passes: seq<Iteration>)
    requires p.Valid() && KeepsToGrid(p) && PatientRun(p, prologue, lead, passes)
    ensures NoneSentEarly(p, RunLoop(p, StartJob(p.block, prologue, lead), passes).job)
  {
    var job := RunLoop(p, StartJob(p.block, prologue, lead), passes).job;
    StartIsFresh(p.block, prologue, lead);
    RunsChain(p, StartJob(p.block, prologue, lead), passes);
    ChainSound(p.block, p.Slots(), passes, Runs(p, StartJob(p.block, prologue, lead), passes), |passes|);
    forall j | 0 <= j < |job.publishedAt|
      ensures p.Deadline() < job.publishedAt[j]
                             + SaturatingSub(p.Slots(), j + 1) * p.IntervalMs() * MILLISECOND + MILLISECOND
    {
      NoFlashblockEarly(p, prologue, lead, passes, j);
    }
  }

  // --- On-time runs -------------------------------------------------------

  // Inner loops last exactly their deadline, nothing else takes time, and
  // every flashblock is sent.
  ghost predicate Punctual(p: Plan, passes: seq<Iteration>, runs: seq<Run>)
    requires p.Valid() && |runs| == |passes| + 1
  {
    forall i :: 0 <= i < |passes| && runs[i].status == Running ==>
                  && passes[i].building == Allotted(p, runs[i].job)
                  && passes[i].finishing == 0 && passes[i].trailing == 0
                  && passes[i].Outcome() == Sent
  }

  lemma EntriesOnTime(p: Plan, target: nat, passes: seq<Iteration>, runs: seq<Run>, k: nat)
    requires p.Valid() && Chain(p.block, target, passes, runs) && Punctual(p, passes, runs)
    requires runs[0].job.elapsed == 0 && 1 <= k <= |passes| && runs[k - 1].status == Running
    ensures OnTime(p, EntryTimes(runs, k))
    ensures |runs[k].job.published| == k
  {
    forall i | 0 <= i < k
      ensures runs[i].job.elapsed + p.NextDeadline(runs[i].job.elapsed) == runs[i + 1].job.elapsed
    {
      ChainRunning(p.block, target, passes, runs, i, k - 1);
      AllottedIsNext(p, runs[i].job);
      assert Linked(p.block, target, runs[i], passes[i], runs[i + 1]);
    }
    OnTimeCount(p, target, passes, runs, k);
  }

  lemma {:induction false} OnTimeCount(p: Plan, target: nat, passes: seq<Iteration>, runs: seq<Run>, k: nat)
    requires p.Valid() && Chain(p.block, target, passes, runs) && Punctual(p, passes, runs)
    requires k <= |passes| && (0 < k ==> runs[k - 1].status == Running)
    ensures |runs[k].job.published| == k
  {
    if 0 < k {
      if 1 < k {
        ChainRunning(p.block, target, passes, runs, k - 2, k - 1);
      }
      OnTimeCount(p, target, passes, runs, k - 1);
      assert Linked(p.block, target, runs[k - 1], passes[k - 1], runs[k]);
    }
  }

  // One pass of a run whose counts agree: the recomputed target is what the
  // stop step still counts on, and the stop step breaks exactly when no whole
  // millisecond is left.
  ghost predicate PassAgrees(p: Plan, runs: seq<Run>, k: nat)
    requires p.Valid() && 1 <= k < |runs|
  {
    && p.Target(runs[k - 1].job.elapsed) == p.Slots() - (k - 1)
    && (runs[k].status == Stopped <==> p.RemainingMs(runs[k].job.elapsed) == 0)
  }

  // Pass k (from 1) of a punctual chain of runs, on the on-time schedule.
  ghost predicate PassOnSchedule(p: Plan, runs: seq<Run>, pass: Iteration, k: nat)
    requires p.Valid() && 1 <= k < |runs|
  {
    && |runs[k].job.published| == k
    && runs[k - 1].job.elapsed == OnTimeEntry(p, k - 1) && runs[k].job.elapsed == OnTimeEntry(p, k)
    && pass.building == p.NextDeadline(OnTimeEntry(p, k - 1))
    && (runs[k].status == Stopped <==> p.Slots() <= k)
    && (1 < k ==> k - 1 < p.Slots())
  }

  lemma ChainOnSchedule(p: Plan, target: nat, passes: seq<Iteration>, runs: seq<Run>, k: nat)
    requires p.Valid() && target == p.Slots() && Chain(p.block, target, passes, runs) && Punctual(p, passes, runs)
    requires runs[0].job.elapsed == 0 && 1 <= k <= |passes| && runs[k - 1].status == Running
    ensures PassOnSchedule(p, runs, passes[k - 1], k)
  {
    EntriesOnTime(p, target, passes, runs, k);
    var entries := EntryTimes(runs, k);
    OnTimeUnique(p, entries, k - 1);
    OnTimeUnique(p, entries, k);
    assert entries[k - 1] == runs[k - 1].job.elapsed && entries[k] == runs[k].job.elapsed;
    assert Linked(p.block, target, runs[k - 1], passes[k - 1], runs[k]);
    AllottedIsNext(p, runs[k - 1].job);
    if 1 < k {
      StillShort(p, target, passes, runs, k);
    }
  }

  // A chain that is still running has not sent its target.
  lemma StillShort(p: Plan, target: nat, passes: seq<Iteration>, runs: seq<Run>, k: nat)
    requires p.Valid() && Chain(p.block, target, passes, runs) && Punctual(p, passes, runs)
    requires 1 < k <= |passes| && runs[k - 1].status == Running
    ensures k - 1 < target
  {
    ChainRunning(p.block, target, passes, runs, k - 2, k - 1);
    OnTimeCount(p, target, passes, runs, k - 1);
    assert Linked(p.block, target, runs[k - 2], passes[k - 2], runs[k - 1]);
  }

  lemma ScheduleAgrees(p: Plan, runs: seq<Run>, pass: Iteration, k: nat)
    requires p.Valid() && KeepsPace(p) && 1 <= k < |runs| && PassOnSchedule(p, runs, pass, k)
    ensures PassAgrees(p, runs, k)
  {
    OnTimePace(p, k - 1);
    OnTimePace(p, k);
  }

  lemma FullPass(p: Plan, runs: seq<Run>, pass: Iteration, k: nat)
    requires p.Valid() && FullIntervals(p) && 1 < k < |runs| && PassOnSchedule(p, runs, pass, k)
    ensures pass.building == p.interval
  {
    FullFromSecondIff(p);
  }

  lemma RunOnSchedule(p: Plan, prologue: seq<Draft>, passes: seq<Iteration>, k: nat)
    requires p.Valid() && Punctual(p, passes, Runs(p, StartJob(p.block, prologue, 0), passes))
    requires 1 <= k <= |passes| && Runs(p, StartJob(p.block, prologue, 0), passes)[k - 1].status == Running
    ensures PassOnSchedule(p, Runs(p, StartJob(p.block, prologue, 0), passes), passes[k - 1], k)
  {
    var start := StartJob(p.block, prologue, 0);
    StartIsFresh(p.block, prologue, 0);
    RunsChain(p, start, passes);
    StartElapsed(p, start, passes);
    ChainOnSchedule(p, p.Slots(), passes, Runs(p, start, passes), k);
  }

  // The two counts agree over a run of the machine: on a plan that keeps pace
  // the k-th pass finds a target of n - (k - 1) and the stop step breaks after
  // it exactly when no whole millisecond is left; and where intervals are full
  // every pass but the first builds for a whole one.
  lemma CountsAgreeOverRun(p: Plan, prologue: seq<Draft>, passes: seq<Iteration>, k: nat)
    requires p.Valid() && KeepsPace(p)
    requires Punctual(p, passes, Runs(p, StartJob(p.block, prologue, 0), passes))
    requires 1 <= k <= |passes| && Runs(p, StartJob(p.block, prologue, 0), passes)[k - 1].status == Running
    ensures var runs := Runs(p, StartJob(p.block, prologue, 0), passes);
            && |runs[k].job.published| == k
            && PassAgrees(p, runs, k)
            && (1 < k && FullIntervals(p) ==> passes[k - 1].building == p.interval)
  {
    var runs := Runs(p, StartJob(p.block, prologue, 0), passes);
    RunOnSchedule(p, prologue, passes, k);
    ScheduleAgrees(p, runs, passes[k - 1], k);
    if 1 < k && FullIntervals(p) {
      FullPass(p, runs, passes[k - 1], k);
    }
  }

  ghost predicate PunctualRun(p: Plan, prologue: seq<Draft>, passes: seq<Iteration>)
    requires p.Valid()
  {
    Punctual(p, passes, Runs(p, StartJob(p.block, prologue, 0), passes))
  }

  ghost predicate CountsAgree(p: Plan, runs: seq<Run>)
    requires p.Valid()
  {
    forall k :: 1 <= k < |runs| && runs[k - 1].status == Running ==> PassAgrees(p, runs, k)
  }

  lemma PassOnTime(p: Plan, m: nat, run: Run, i: nat)
    requires p.Valid() && i < m && Follows(p, OnTimeRun(p, m), run, i)
    ensures PassesFor(OnTimeRun(p, m))[i].building == Allotted(p, run.job)
  {
    var entries := OnTimeRun(p, m);
    AllottedIsNext(p, run.job);
    assert entries[i] == OnTimeEntry(p, i);
    assert entries[i + 1] == OnTimeEntry(p, i + 1) == entries[i] + p.NextDeadline(entries[i]);
  }

  // On a schedule that is on time the run along it is punctual.
  lemma SchedulePunctual(p: Plan, m: nat)
    requires p.Valid() && m <= p.Slots()
    ensures PunctualRun(p, [], PassesFor(OnTimeRun(p, m)))
  {
    var entries := OnTimeRun(p, m);
    var passes := PassesFor(entries);
    var runs := Runs(p, StartJob(p.block, [], 0), passes);
    forall i | 0 <= i < |passes|
      ensures passes[i].building == Allotted(p, runs[i].job)
    {
      ScheduleIsRun(p, entries, i);
      PassOnTime(p, m, runs[i], i);
    }
  }

  // Runs along an on-time schedule of m steps do not agree with it, which shows
  // at its k-th entry and its last pass.
  ghost predicate OutOfStep(p: Plan, m: nat, k: nat)
    requires p.Valid() && 0 < m && k <= m
  {
    forall runs: seq<Run> ::
      (&& |runs| == m + 1
       && Follows(p, OnTimeRun(p, m), runs[k], k) && Follows(p, OnTimeRun(p, m), runs[m - 1], m - 1))
      ==> !CountsAgree(p, runs)
  }

  // Where the target is wrong, or time is left at the end.
  lemma FallsOut(p: Plan, k: nat)
    requires p.Valid() && k <= p.Slots() && 0 < p.Slots()
    requires p.Target(OnTimeEntry(p, k)) != p.Slots() - k
    requires k == p.Slots() ==> 0 < p.RemainingMs(OnTimeEntry(p, k))
    ensures OutOfStep(p, Min(k + 1, p.Slots()), k)
  {
    var m := Min(k + 1, p.Slots());
    var entries := OnTimeRun(p, m);
    assert entries[k] == OnTimeEntry(p, k);
    forall runs: seq<Run>
      | |runs| == m + 1 && Follows(p, entries, runs[k], k) && Follows(p, entries, runs[m - 1], m - 1)
      ensures !CountsAgree(p, runs)
    {
      assert !PassAgrees(p, runs, m);
    }
  }

  lemma DisagreeingRun(p: Plan, m: nat, k: nat)
    requires p.Valid() && 0 < m <= p.Slots() && k <= m && OutOfStep(p, m, k)
    ensures !CountsAgree(p, Runs(p, StartJob(p.block, [], 0), PassesFor(OnTimeRun(p, m))))
  {
    ScheduleIsRun(p, OnTimeRun(p, m), k);
    ScheduleIsRun(p, OnTimeRun(p, m), m - 1);
  }

  // On every punctual run of the machine the two counts agree exactly when the
  // plan keeps pace.
  lemma CountsAgreeOverRunIff(p: Plan)
    requires p.Valid()
    ensures (forall prologue, passes :: PunctualRun(p, prologue, passes) ==>
               CountsAgree(p, Runs(p, StartJob(p.block, prologue, 0), passes)))
            <==> KeepsPace(p)
  {
    if KeepsPace(p) {
      forall prologue, passes, k | PunctualRun(p, prologue, passes) && 1 <= k <= |passes|
        && Runs(p, StartJob(p.block, prologue, 0), passes)[k - 1].status == Running
        ensures PassAgrees(p, Runs(p, StartJob(p.block, prologue, 0), passes), k)
      {
        CountsAgreeOverRun(p, prologue, passes, k);
      }
    } else {
      var k := FallsOutOfStep(p);
      var m := Min(k + 1, p.Slots());
      FallsOut(p, k);
      DisagreeingRun(p, m, k);
      SchedulePunctual(p, m);
    }
  }
}
