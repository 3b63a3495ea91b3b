// Whole runs of the outer loop: how many passes a job takes, how many
// flashblocks it sends and what the finished payload holds.
module RunLemmas {
  import opened Prelude
  import opened Platform
  import opened Checkpoints
  import opened FlashblockLimits
  import opened Schedule
  import opened Flashblocks
  import opened Pipeline
  import opened JobLemmas

  // --- One pass -----------------------------------------------------------

  lemma {:induction false} RoundsKeep(block: BlockContext, job: Job, rounds: seq<seq<Draft>>)
    requires Sound(block, job)
    ensures var built := BuildRounds(job, rounds);
            && built == job.(history := built.history)
            && Sound(block, built) && Context(built.history) == Context(job.history)
  {
    if rounds != [] {
      RoundsKeep(block, job, rounds[..|rounds| - 1]);
      var before, last := BuildRounds(job, rounds[..|rounds| - 1]), rounds[|rounds| - 1];
      StepIsSound(block, before, Rebuild(last));
      RewriteKeepsFrozen(before.history, last);
    }
  }

  lemma {:induction false} RoundSteps(block: BlockContext, job: Job, pass: Iteration, k: nat)
    requires k <= |pass.rounds|
    ensures Steps(block, job, pass.Rounds()[..k]) == BuildRounds(job, pass.rounds[..k])
  {
    if 0 < k {
      RoundSteps(block, job, pass, k - 1);
      assert pass.Rounds()[..k] == pass.Rounds()[..k - 1] + [Rebuild(pass.rounds[k - 1])];
      OneStep(block, job, pass.Rounds()[..k - 1], Rebuild(pass.rounds[k - 1]));
      assert pass.rounds[..k][..k - 1] == pass.rounds[..k - 1];
    }
  }

  lemma {:induction false} EnterStep(block: BlockContext, job: Job)
    ensures Steps(block, job, [Enter]) == Entered(job)
  {
    assert [] + [Enter] == [Enter];
    OneStep(block, job, [], Enter);
  }

  lemma {:induction false} EnterAndRounds(block: BlockContext, job: Job, pass: Iteration)
    ensures Steps(block, job, [Enter] + pass.Rounds()) == BuildRounds(Entered(job), pass.rounds)
  {
    EnterStep(block, job);
    StepsAppend(block, job, [Enter], pass.Rounds());
    RoundSteps(block, Entered(job), pass, |pass.rounds|);
    assert pass.Rounds()[..|pass.rounds|] == pass.Rounds() && pass.rounds[..|pass.rounds|] == pass.rounds;
  }

  lemma {:induction false} BuiltSteps(block: BlockContext, job: Job, pass: Iteration)
    ensures Steps(block, job, [Enter] + pass.Rounds() + [Elapse(pass.building)]) == Built(job, pass)
  {
    EnterAndRounds(block, job, pass);
    OneStep(block, job, [Enter] + pass.Rounds(), Elapse(pass.building));
  }

  lemma {:induction false} SigningSteps(block: BlockContext, job: Job, pass: Iteration, events: seq<Event>)
    requires Steps(block, job, events) == Built(job, pass)
    ensures Steps(block, job, events + pass.Signing() + [Elapse(pass.finishing)]) == Ready(job, pass)
  {
    if pass.epilogue.Some? {
      OneStep(block, job, events, Epilogue(pass.epilogue.value));
    } else {
      assert events + pass.Signing() == events;
    }
    OneStep(block, job, events + pass.Signing(), Elapse(pass.finishing));
  }

  // A pass is a sequence of steps, so whatever any sequence of steps keeps, a
  // pass keeps.
  lemma {:induction false} PassSteps(block: BlockContext, job: Job, pass: Iteration)
    ensures Steps(block, job, pass.Events()) == AfterPass(block, job, pass)
  {
    var built := [Enter] + pass.Rounds() + [Elapse(pass.building)];
    var ready := built + pass.Signing() + [Elapse(pass.finishing)];
    BuiltSteps(block, job, pass);
    SigningSteps(block, job, pass, built);
    OneStep(block, job, ready, Publish(pass.Outcome()));
    OneStep(block, job, ready + [Publish(pass.Outcome())], Elapse(pass.trailing));
    assert pass.Events() == ready + [Publish(pass.Outcome())] + [Elapse(pass.trailing)];
  }

  lemma BuiltKeeps(block: BlockContext, job: Job, pass: Iteration)
    requires Sound(block, job)
    ensures var built := Built(job, pass);
            && Sound(block, built) && Context(built.history) == Context(job.history)
            && built == job.(history := built.history, elapsed := job.elapsed + pass.building,
                             entries := Entered(job).entries)
  {
    RoundsKeep(block, Entered(job), pass.rounds);
  }

  lemma ReadyKeeps(block: BlockContext, job: Job, pass: Iteration)
    requires Sound(block, job)
    ensures var ready := Ready(job, pass);
            && Sound(block, ready) && ready.elapsed == job.elapsed + pass.building + pass.finishing
            && ready.published == job.published && ready.publishedAt == job.publishedAt
  {
    BuiltKeeps(block, job, pass);
    if pass.epilogue.Some? {
      StepIsSound(block, Built(job, pass), Epilogue(pass.epilogue.value));
    }
  }

  // The publish step and the record of what was sent.
  lemma PublishShape(block: BlockContext, ready: Job, outcome: Outcome)
    ensures var after := AfterPublish(block, ready, outcome);
            && after.elapsed == ready.elapsed
            && (outcome != Sent ==> after.published == ready.published && after.publishedAt == ready.publishedAt)
            && (outcome == Sent ==>
                  && after.published == ready.published + [FlashblockFrom(ready.history, ready.base, block)]
                  && after.publishedAt == ready.publishedAt + [ready.elapsed])
  {
  }

  // What one pass does to a job, as far as runs are concerned.
  ghost predicate PassFacts(block: BlockContext, job: Job, pass: Iteration, job': Job) {
    && Sound(block, job')
    && (pass.Outcome() != Sent ==> job'.published == job.published && job'.publishedAt == job.publishedAt)
    && (pass.Outcome() == Sent ==>
          && |job'.published| == |job.published| + 1
          && job'.publishedAt == job.publishedAt + [job.elapsed + pass.building + pass.finishing]
          && Replayed(job'.published) == Transactions(job'.history))
    && job'.elapsed == job.elapsed + pass.building + pass.finishing + pass.trailing
  }

  lemma PassKeeps(block: BlockContext, job: Job, pass: Iteration)
    requires Sound(block, job)
    ensures PassFacts(block, job, pass, AfterPass(block, job, pass))
  {
    var ready := Ready(job, pass);
    ReadyKeeps(block, job, pass);
    PublishKeeps(block, ready, pass.Outcome());
    TrailingKeeps(block, job, pass, ready, AfterPublish(block, ready, pass.Outcome()));
  }

  lemma TrailingKeeps(block: BlockContext, job: Job, pass: Iteration, ready: Job, sent: Job)
    requires ready.elapsed == job.elapsed + pass.building + pass.finishing
    requires ready.published == job.published && ready.publishedAt == job.publishedAt
    requires Sound(block, sent) && sent.elapsed == ready.elapsed
    requires pass.Outcome() != Sent ==> sent.published == ready.published && sent.publishedAt == ready.publishedAt
    requires pass.Outcome() == Sent ==>
               && |sent.published| == |ready.published| + 1
               && sent.publishedAt == ready.publishedAt + [ready.elapsed]
               && Replayed(sent.published) == Transactions(sent.history)
    ensures PassFacts(block, job, pass, Step(block, sent, Elapse(pass.trailing)))
  {
    StepIsSound(block, sent, Elapse(pass.trailing));
  }

  lemma PublishKeeps(block: BlockContext, ready: Job, outcome: Outcome)
    requires Sound(block, ready)
    ensures var job' := AfterPublish(block, ready, outcome);
            && Sound(block, job') && job'.elapsed == ready.elapsed
            && (outcome != Sent ==> job'.published == ready.published && job'.publishedAt == ready.publishedAt)
            && (outcome == Sent ==>
                  && |job'.published| == |ready.published| + 1
                  && job'.publishedAt == ready.publishedAt + [ready.elapsed]
                  && Replayed(job'.published) == Transactions(job'.history))
  {
    PublishIsSound(block, ready, outcome);
    if outcome == Sent {
      SentReplays(block, ready);
    }
  }

  ghost predicate Fresh(block: BlockContext, start: Job) {
    Sound(block, start) && start.published == [] && start.publishedAt == []
  }

  lemma StartIsFresh(block: BlockContext, prologue: seq<Draft>, lead: Duration)
    ensures Fresh(block, StartJob(block, prologue, lead))
  {
    StartIsSound(block, prologue, lead);
  }

  // The stopping rule with the target already computed.
  function StatusFor(target: nat, published: nat, outcome: Outcome): Status {
    if outcome == SealFailed then BuildFailed else if target <= published then Stopped else Running
  }

  // How a run that has not ended goes on with one more pass.
  lemma {:induction false} RunExtend(p: Plan, start: Job, earlier: seq<Iteration>, pass: Iteration)
    requires p.Valid() && Sound(p.block, RunLoop(p, start, earlier).job)
    ensures var before, run := RunLoop(p, start, earlier), RunLoop(p, start, earlier + [pass]);
            && (before.status != Running ==> run == before)
            && (before.status == Running ==>
                  && PassFacts(p.block, before.job, pass, run.job)
                  && run.used == before.used + 1
                  && run.status == StatusFor(p.Slots(), |run.job.published|, pass.Outcome()))
  {
    assert (earlier + [pass])[..|earlier|] == earlier;
    PassKeeps(p.block, RunLoop(p, start, earlier).job, pass);
  }

  // A chain of runs, one more pass at a time.
  ghost predicate Linked(block: BlockContext, target: nat, before: Run, pass: Iteration, run: Run) {
    && (before.status != Running ==> run == before)
    && (before.status == Running ==>
          && PassFacts(block, before.job, pass, run.job)
          && run.used == before.used + 1
          && run.status == StatusFor(target, |run.job.published|, pass.Outcome()))
  }

  ghost predicate Chain(block: BlockContext, target: nat, passes: seq<Iteration>, runs: seq<Run>) {
    && |runs| == |passes| + 1
    && Fresh(block, runs[0].job) && runs[0].used == 0 && runs[0].status == Running
    && forall i :: 0 <= i < |passes| ==> Linked(block, target, runs[i], passes[i], runs[i + 1])
  }

  // The runs on the first 0, 1, 2, ... passes.
  function Runs(p: Plan, start: Job, passes: seq<Iteration>): seq<Run>
    requires p.Valid()
  {
    seq(|passes| + 1, i requires 0 <= i <= |passes| => RunLoop(p, start, passes[..i]))
  }

  lemma {:induction false} RunsAppend(p: Plan, start: Job, earlier: seq<Iteration>, pass: Iteration)
    requires p.Valid()
    ensures Runs(p, start, earlier + [pass]) == Runs(p, start, earlier) + [RunLoop(p, start, earlier + [pass])]
  {
    var passes := earlier + [pass];
    assert forall i :: 0 <= i <= |earlier| ==> passes[..i] == earlier[..i];
    assert passes[..|passes|] == passes;
  }

  lemma ChainExtend(block: BlockContext, target: nat, earlier: seq<Iteration>, runs: seq<Run>,
                    pass: Iteration, run: Run)
    requires Chain(block, target, earlier, runs) && Linked(block, target, runs[|earlier|], pass, run)
    ensures Chain(block, target, earlier + [pass], runs + [run])
  {
    var passes, all := earlier + [pass], runs + [run];
    forall i | 0 <= i < |passes|
      ensures Linked(block, target, all[i], passes[i], all[i + 1])
    {
      if i < |earlier| {
        assert Linked(block, target, runs[i], earlier[i], runs[i + 1]);
      }
    }
  }

  lemma {:induction false} ChainSound(block: BlockContext, target: nat, passes: seq<Iteration>, runs: seq<Run>, i: nat)
    requires Chain(block, target, passes, runs) && i <= |passes|
    ensures Sound(block, runs[i].job)
  {
    if 0 < i {
      ChainSound(block, target, passes, runs, i - 1);
      assert Linked(block, target, runs[i - 1], passes[i - 1], runs[i]);
    }
  }

  lemma {:induction false} RunsChain(p: Plan, start: Job, passes: seq<Iteration>)
    requires p.Valid() && Fresh(p.block, start)
    ensures Chain(p.block, p.Slots(), passes, Runs(p, start, passes))
    ensures Runs(p, start, passes)[|passes|] == RunLoop(p, start, passes)
  {
    assert passes[..|passes|] == passes;
    if passes != [] {
      var earlier, pass := passes[..|passes| - 1], passes[|passes| - 1];
      assert passes == earlier + [pass];
      RunsChain(p, start, earlier);
      RunsAppend(p, start, earlier, pass);
      ChainSound(p.block, p.Slots(), earlier, Runs(p, start, earlier), |earlier|);
      RunExtend(p, start, earlier, pass);
      ChainExtend(p.block, p.Slots(), earlier, Runs(p, start, earlier), pass, RunLoop(p, start, passes));
    }
  }

  // --- The run as one sequence of steps -----------------------------------

  // Every event of the passes a run used, in order.
  function EventsOf(passes: seq<Iteration>): seq<Event> {
    if passes == [] then [] else EventsOf(passes[..|passes| - 1]) + passes[|passes| - 1].Events()
  }

  lemma {:induction false} RunUnfold(p: Plan, start: Job, earlier: seq<Iteration>, pass: Iteration)
    requires p.Valid()
    ensures var before, run := RunLoop(p, start, earlier), RunLoop(p, start, earlier + [pass]);
            && (before.status != Running ==> run == before)
            && (before.status == Running ==>
                  run.job == Steps(p.block, before.job, pass.Events()) && run.used == before.used + 1)
  {
    assert (earlier + [pass])[..|earlier|] == earlier;
    PassSteps(p.block, RunLoop(p, start, earlier).job, pass);
  }

  // A run is the sequence of steps of the passes it used: whatever holds over
  // any sequence of steps holds of it.
  lemma {:induction false} RunIsSteps(p: Plan, start: Job, passes: seq<Iteration>)
    requires p.Valid()
    ensures RunLoop(p, start, passes).used <= |passes|
    ensures RunLoop(p, start, passes).status == Running ==> RunLoop(p, start, passes).used == |passes|
    ensures RunLoop(p, start, passes).job == Steps(p.block, start, EventsOf(passes[..RunLoop(p, start, passes).used]))
  {
    if passes != [] {
      var earlier, pass := passes[..|passes| - 1], passes[|passes| - 1];
      assert passes == earlier + [pass];
      RunIsSteps(p, start, earlier);
      RunUnfold(p, start, earlier, pass);
      var before, run := RunLoop(p, start, earlier), RunLoop(p, start, passes);
      if before.status != Running {
        assert passes[..run.used] == earlier[..before.used];
      } else {
        assert passes[..run.used] == passes && earlier[..before.used] == earlier;
        StepsAppend(p.block, start, EventsOf(earlier), pass.Events());
      }
    }
  }

  // --- Exact counts -------------------------------------------------------

  function CountOf(passes: seq<Iteration>, outcome: Outcome): nat {
    if passes == [] then 0
    else CountOf(passes[..|passes| - 1], outcome) + (if passes[|passes| - 1].Outcome() == outcome then 1 else 0)
  }

  lemma {:induction false} CountsSum(passes: seq<Iteration>)
    ensures CountOf(passes, Sent) + CountOf(passes, SendFailed) + CountOf(passes, SealFailed) == |passes|
  {
    if passes != [] {
      CountsSum(passes[..|passes| - 1]);
    }
  }

  // What is known of a run with a given target and the passes it used: every
  // pass but a failed seal counts as sent or refused, and the loop goes on
  // exactly while fewer than the target are out.
  ghost predicate Counted(target: nat, run: Run, used: seq<Iteration>) {
    && |used| == run.used
    && Tallied(target, run.status, |run.job.published|, CountOf(used, Sent), CountOf(used, SealFailed), run.used)
    && (run.status == BuildFailed ==> used[run.used - 1].Outcome() == SealFailed)
    && (run.status == Stopped && 1 <= target ==> used[run.used - 1].Outcome() == Sent)
  }

  ghost predicate Tallied(target: nat, status: Status, published: nat, sent: nat, sealFailures: nat, used: nat) {
    && published == sent
    && sealFailures == (if status == BuildFailed then 1 else 0)
    && (status == Running && 0 < used ==> published < target)
    && (status != Running ==> 0 < used)
    && (status == Stopped && 1 <= target ==> published == target)
    && (status == Stopped && target == 0 ==> used == 1)
  }

  lemma {:induction false} CountOfAppend(passes: seq<Iteration>, pass: Iteration, outcome: Outcome)
    ensures CountOf(passes + [pass], outcome) == CountOf(passes, outcome) + (if pass.Outcome() == outcome then 1 else 0)
  {
    assert (passes + [pass])[..|passes|] == passes;
  }

  // The part of a chain that counting needs.
  ghost predicate CountLinked(target: nat, before: Run, outcome: Outcome, run: Run) {
    && (before.status != Running ==> run == before)
    && (before.status == Running ==>
          && |run.job.published| == |before.job.published| + (if outcome == Sent then 1 else 0)
          && run.used == before.used + 1
          && run.status == StatusFor(target, |run.job.published|, outcome))
  }

  ghost predicate CountChain(target: nat, passes: seq<Iteration>, runs: seq<Run>) {
    && |runs| == |passes| + 1
    && runs[0].job.published == [] && runs[0].used == 0 && runs[0].status == Running
    && forall i :: 0 <= i < |passes| ==> CountLinked(target, runs[i], passes[i].Outcome(), runs[i + 1])
  }

  lemma ChainCountChain(block: BlockContext, target: nat, passes: seq<Iteration>, runs: seq<Run>)
    requires Chain(block, target, passes, runs)
    ensures CountChain(target, passes, runs)
  {
    forall i | 0 <= i < |passes|
      ensures CountLinked(target, runs[i], passes[i].Outcome(), runs[i + 1])
    {
      assert Linked(block, target, runs[i], passes[i], runs[i + 1]);
    }
  }

  lemma CountedExtend(target: nat, before: Run, run: Run, used: seq<Iteration>, pass: Iteration)
    requires Counted(target, before, used) && before.status == Running
    requires CountLinked(target, before, pass.Outcome(), run)
    ensures Counted(target, run, used + [pass])
  {
    CountOfAppend(used, pass, Sent);
    CountOfAppend(used, pass, SealFailed);
  }

  lemma {:induction false} ChainCounts(target: nat, passes: seq<Iteration>, runs: seq<Run>, i: nat)
    requires CountChain(target, passes, runs) && i <= |passes|
    ensures runs[i].used <= i && Counted(target, runs[i], passes[..runs[i].used])
    ensures runs[i].status == Running ==> runs[i].used == i
  {
    if 0 < i {
      ChainCounts(target, passes, runs, i - 1);
      if runs[i - 1].status == Running {
        CountedExtend(target, runs[i - 1], runs[i], passes[..i - 1], passes[i - 1]);
        assert passes[..i] == passes[..i - 1] + [passes[i - 1]];
      }
    }
  }

  lemma {:induction false} RunCounts(p: Plan, start: Job, passes: seq<Iteration>)
    requires p.Valid() && Fresh(p.block, start)
    ensures RunLoop(p, start, passes).used <= |passes|
    ensures Counted(p.Slots(), RunLoop(p, start, passes), passes[..RunLoop(p, start, passes).used])
    ensures RunLoop(p, start, passes).status == Running ==> RunLoop(p, start, passes).used == |passes|
  {
    RunsChain(p, start, passes);
    ChainCountChain(p.block, p.Slots(), passes, Runs(p, start, passes));
    ChainCounts(p.Slots(), passes, Runs(p, start, passes), |passes|);
  }

  lemma {:induction false} CountedSums(target: nat, run: Run, used: seq<Iteration>)
    requires Counted(target, run, used)
    ensures run.status == Stopped && 1 <= target ==>
              |run.job.published| == target && run.used == target + CountOf(used, SendFailed)
    ensures run.status == Stopped && target == 0 ==> run.used == 1
    ensures run.status == BuildFailed ==>
              && 0 < run.used && used[run.used - 1].Outcome() == SealFailed
              && run.used == |run.job.published| + CountOf(used, SendFailed) + 1
  {
    CountsSum(used);
  }

  // Exact counts: a job that the stop step ends has sent exactly its target
  // and taken one pass per flashblock plus one per refused message; with no
  // time at all it takes exactly one pass; a failed seal ends the job at that
  // very pass.
  lemma {:induction false} ExactCounts(p: Plan, prologue: seq<Draft>, lead: Duration, passes: seq<Iteration>)
    requires p.Valid()
    ensures var run := RunLoop(p, StartJob(p.block, prologue, lead), passes);
            && run.used <= |passes|
            && (run.status == Stopped && 1 <= p.Slots() ==>
                  && |run.job.published| == p.Slots()
                  && run.used == p.Slots() + CountOf(passes[..run.used], SendFailed))
            && (run.status == Stopped && p.Slots() == 0 ==> run.used == 1)
            && (run.status == BuildFailed ==>
                  && 0 < run.used && passes[run.used - 1].Outcome() == SealFailed
                  && run.used == |run.job.published| + CountOf(passes[..run.used], SendFailed) + 1)
  {
    var start := StartJob(p.block, prologue, lead);
    StartIsFresh(p.block, prologue, lead);
    RunCounts(p, start, passes);
    CountedSums(p.Slots(), RunLoop(p, start, passes), passes[..RunLoop(p, start, passes).used]);
  }

  // Termination: whatever the environment does, if it refuses at most f
  // messages the loop has ended after t + f passes (one pass if t is zero).
  lemma {:induction false} Terminates(p: Plan, prologue: seq<Draft>, lead: Duration,
                                      passes: seq<Iteration>, refusals: nat)
    requires p.Valid()
    requires |passes| == Max(p.Slots(), 1) + refusals && CountOf(passes, SendFailed) <= refusals
    ensures RunLoop(p, StartJob(p.block, prologue, lead), passes).status != Running
  {
    var start := StartJob(p.block, prologue, lead);
    StartIsFresh(p.block, prologue, lead);
    RunCounts(p, start, passes);
    CountsSum(passes);
    assert passes[..|passes|] == passes;
  }

  // --- The finished payload -----------------------------------------------

  lemma ChainUsed(block: BlockContext, target: nat, passes: seq<Iteration>, runs: seq<Run>, i: nat)
    requires Chain(block, target, passes, runs) && i <= |passes|
    ensures runs[i].used <= i && (runs[i].status == Running ==> runs[i].used == i)
  {
    ChainCountChain(block, target, passes, runs);
    ChainCounts(target, passes, runs, i);
  }

  // The last pass a run used.
  lemma {:induction false} ChainLast(block: BlockContext, target: nat, passes: seq<Iteration>, runs: seq<Run>, i: nat)
    requires Chain(block, target, passes, runs) && i <= |passes| && 0 < runs[i].used
    ensures runs[i].used <= i
    ensures PassFacts(block, runs[runs[i].used - 1].job, passes[runs[i].used - 1], runs[i].job)
    ensures runs[runs[i].used - 1].status == Running
  {
    ChainUsed(block, target, passes, runs, i);
    ChainUsed(block, target, passes, runs, i - 1);
    assert Linked(block, target, runs[i - 1], passes[i - 1], runs[i]);
    if runs[i - 1].status != Running {
      ChainLast(block, target, passes, runs, i - 1);
    }
  }

  // The finished payload: when the stop step ends a job whose target is not
  // zero, the flashblocks sent concatenate to the whole payload. With a zero
  // target that holds exactly when the only message was accepted or there was
  // nothing to send.
  lemma {:induction false} StoppedJobIsComplete(p: Plan, prologue: seq<Draft>, lead: Duration, passes: seq<Iteration>)
    requires p.Valid()
    requires RunLoop(p, StartJob(p.block, prologue, lead), passes).status == Stopped
    ensures var run := RunLoop(p, StartJob(p.block, prologue, lead), passes);
            && 0 < run.used <= |passes|
            && (Replayed(run.job.published) == Transactions(run.job.history)
                <==> (1 <= p.Slots() || passes[run.used - 1].Outcome() == Sent || Transactions(run.job.history) == []))
  {
    var start := StartJob(p.block, prologue, lead);
    StartIsFresh(p.block, prologue, lead);
    RunCounts(p, start, passes);
    RunsChain(p, start, passes);
    ChainLast(p.block, p.Slots(), passes, Runs(p, start, passes), |passes|);
    var run := RunLoop(p, start, passes);
    if passes[run.used - 1].Outcome() != Sent {
      assert passes[..0] == [];
      assert Replayed([]) == [];
    }
  }
}
