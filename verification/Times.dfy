// Timestamps of the publishing process and the samples recorded from them
// (the Times struct of src/publish.rs). Clock readings are parameters. Taking
// the duration since a later instant yields zero, as the standard library does.
module Times {
  import opened Prelude

  type Instant = nat

  // The stored instants.
  datatype Stamps = Stamps(
    jobStarted: Option<Instant>,
    jobEnded: Option<Instant>,
    firstBlockAt: Option<Instant>,
    previousBlockAt: Option<Instant>,
    lastBlockAt: Option<Instant>)

  // The histograms fed from them, as lists of samples.
  datatype Samples = Samples(
    timeToFirstBlock: seq<nat>,
    interBlock: seq<nat>,
    intraBlock: seq<nat>,
    interJobs: seq<nat>,
    idleTail: seq<nat>)

  datatype Readings = Readings(stamps: Stamps, samples: Samples)

  const UNSET := Readings(Stamps(None, None, None, None, None), Samples([], [], [], [], []))

  function DurationSince(later: Instant, earlier: Instant): nat {
    SaturatingSub(later, earlier)
  }

  function OnJobStarted(r: Readings, now: Instant): Readings {
    var Readings(t, s) := r;
    Readings(t.(jobStarted := Some(now), jobEnded := None),
             if t.jobEnded.Some? then s.(interJobs := s.interJobs + [DurationSince(t.jobEnded.value, now)]) else s)
  }

  function OnPublishedBlock(r: Readings, now: Instant): Readings {
    var Readings(t, s) := r;
    var first := t.firstBlockAt.None?;
    var s1 := if first && t.lastBlockAt.Some?
              then s.(interBlock := s.interBlock + [DurationSince(now, t.lastBlockAt.value)]) else s;
    var s2 := if first && t.jobStarted.Some?
              then s1.(timeToFirstBlock := s1.timeToFirstBlock + [DurationSince(now, t.jobStarted.value)]) else s1;
    var s3 := if t.lastBlockAt.Some?
              then s2.(intraBlock := s2.intraBlock + [DurationSince(t.lastBlockAt.value, t.lastBlockAt.value)]) else s2;
    Readings(t.(firstBlockAt := if first then Some(now) else t.firstBlockAt,
                previousBlockAt := t.lastBlockAt,
                lastBlockAt := Some(now)), s3)
  }

  function OnJobEnded(r: Readings, now: Instant): Readings {
    var Readings(t, s) := r;
    Readings(t.(jobEnded := Some(now), jobStarted := None, firstBlockAt := None, previousBlockAt := None),
             if t.lastBlockAt.Some? then s.(idleTail := s.idleTail + [DurationSince(now, t.lastBlockAt.value)]) else s)
  }

  class Recorder {
    var jobStarted: Option<Instant>
    var jobEnded: Option<Instant>
    var firstBlockAt: Option<Instant>
    var previousBlockAt: Option<Instant>
    var lastBlockAt: Option<Instant>
    var samples: Samples

    function View(): Readings
      reads this
    {
      Readings(Stamps(jobStarted, jobEnded, firstBlockAt, previousBlockAt, lastBlockAt), samples)
    }

    constructor ()
      ensures View() == UNSET
    {
      jobStarted, jobEnded, firstBlockAt, previousBlockAt, lastBlockAt := None, None, None, None, None;
      samples := UNSET.samples;
    }

    method JobStarted(now: Instant)
      modifies this
      ensures View() == OnJobStarted(old(View()), now)
    {
      jobStarted := Some(now);
      var endedAt := jobEnded;
      jobEnded := None;
      if endedAt.Some? {
        samples := samples.(interJobs := samples.interJobs + [DurationSince(endedAt.value, now)]);
      }
    }

    method PublishedBlock(now: Instant)
      modifies this
      ensures View() == OnPublishedBlock(old(View()), now)
    {
      var last := lastBlockAt;
      if firstBlockAt == None {
        firstBlockAt := Some(now);
        if last.Some? {
          samples := samples.(interBlock := samples.interBlock + [DurationSince(now, last.value)]);
        }
        if jobStarted.Some? {
          samples := samples.(timeToFirstBlock :=
            samples.timeToFirstBlock + [DurationSince(now, jobStarted.value)]);
        }
      }
      var previous := lastBlockAt;
      lastBlockAt := Some(now);
      previousBlockAt := previous;
      if last.Some? && previous.Some? {
        samples := samples.(intraBlock := samples.intraBlock + [DurationSince(last.value, previous.value)]);
      }
    }

    method JobEnded(now: Instant)
      modifies this
      ensures View() == OnJobEnded(old(View()), now)
    {
      if lastBlockAt.Some? {
        samples := samples.(idleTail := samples.idleTail + [DurationSince(now, lastBlockAt.value)]);
      }
      jobEnded := Some(now);
      jobStarted, firstBlockAt, previousBlockAt := None, None, None;
    }
  }

  // --- Sequences of jobs --------------------------------------------------

  // When a job started, published and ended.
  datatype JobTrace = JobTrace(start: Instant, blocks: seq<Instant>, end: Instant) {
    function Last(): Instant
      requires blocks != []
    {
      blocks[|blocks| - 1]
    }

    ghost predicate Orderly() {
      && start <= end
      && (forall i :: 0 <= i < |blocks| ==> start <= blocks[i] <= end)
      && (forall i, j :: 0 <= i <= j < |blocks| ==> blocks[i] <= blocks[j])
    }
  }

  function AfterBlocks(r: Readings, blocks: seq<Instant>): Readings {
    if blocks == [] then r
    else OnPublishedBlock(AfterBlocks(r, blocks[..|blocks| - 1]), blocks[|blocks| - 1])
  }

  function AfterJob(r: Readings, job: JobTrace): Readings {
    OnJobEnded(AfterBlocks(OnJobStarted(r, job.start), job.blocks), job.end)
  }

  function AfterJobs(jobs: seq<JobTrace>): Readings {
    if jobs == [] then UNSET else AfterJob(AfterJobs(jobs[..|jobs| - 1]), jobs[|jobs| - 1])
  }

  // Jobs run one after another on a clock that never goes back.
  ghost predicate Sequential(jobs: seq<JobTrace>) {
    && (forall i :: 0 <= i < |jobs| ==> jobs[i].Orderly())
    && (forall i, j :: 0 <= i < j < |jobs| ==> jobs[i].end <= jobs[j].start)
  }

  // The jobs that published something.
  function Publishing(jobs: seq<JobTrace>): (r: seq<JobTrace>)
    ensures forall i :: 0 <= i < |r| ==> r[i].blocks != [] && r[i] in jobs
  {
    if jobs == [] then []
    else
      var last := jobs[|jobs| - 1];
      Publishing(jobs[..|jobs| - 1]) + (if last.blocks != [] then [last] else [])
  }

  // Within a job, after some blocks, what every stored instant is: the last
  // block of an earlier job is kept until the first of this one, and then
  // remembered as the one before it.
  lemma {:induction false} DuringJob(r: Readings, start: Instant, blocks: seq<Instant>)
    requires r.stamps.firstBlockAt.None?
    ensures var t, n := AfterBlocks(OnJobStarted(r, start), blocks).stamps, |blocks|;
            && t.jobStarted == Some(start) && t.jobEnded == None
            && t.firstBlockAt == (if n == 0 then None else Some(blocks[0]))
            && t.lastBlockAt == (if n == 0 then r.stamps.lastBlockAt else Some(blocks[n - 1]))
            && t.previousBlockAt == (if n == 0 then r.stamps.previousBlockAt
                                     else if n == 1 then r.stamps.lastBlockAt
                                     else Some(blocks[n - 2]))
  {
    if blocks != [] {
      DuringJob(r, start, blocks[..|blocks| - 1]);
    }
  }

  // In an orderly job the instants are in order whenever they are set.
  lemma InstantsInOrder(r: Readings, job: JobTrace, k: nat)
    requires r.stamps.firstBlockAt.None? && job.Orderly() && 0 < k <= |job.blocks|
    ensures var t := AfterBlocks(OnJobStarted(r, job.start), job.blocks[..k]).stamps;
            && t.jobStarted.Some? && t.firstBlockAt.Some? && t.lastBlockAt.Some?
            && t.jobStarted.value <= t.firstBlockAt.value <= t.lastBlockAt.value
  {
    DuringJob(r, job.start, job.blocks[..k]);
  }

  function FirstSample(r: Readings, job: JobTrace): Samples {
    var s := r.samples;
    if job.blocks == [] then s
    else
      var s1 := if r.stamps.lastBlockAt.Some?
                then s.(interBlock := s.interBlock + [DurationSince(job.blocks[0], r.stamps.lastBlockAt.value)]) else s;
      s1.(timeToFirstBlock := s1.timeToFirstBlock + [DurationSince(job.blocks[0], job.start)])
  }

  // Only the first block of a job records the two samples.
  lemma {:induction false} BlocksSampleOnce(r: Readings, start: Instant, blocks: seq<Instant>, end: Instant)
    requires r.stamps.firstBlockAt.None?
    ensures var s := AfterBlocks(OnJobStarted(r, start), blocks).samples;
            var e := FirstSample(r, JobTrace(start, blocks, end));
            s.timeToFirstBlock == e.timeToFirstBlock && s.interBlock == e.interBlock && s.idleTail == e.idleTail
  {
    if blocks != [] {
      BlocksSampleOnce(r, start, blocks[..|blocks| - 1], end);
      DuringJob(r, start, blocks[..|blocks| - 1]);
    }
  }

  // What the stamps remember between jobs: whether and when a block was last
  // published.
  lemma {:induction false} BetweenJobs(jobs: seq<JobTrace>)
    ensures var t := AfterJobs(jobs).stamps;
            var published := Publishing(jobs);
            && t.firstBlockAt == None && t.jobStarted == None && t.previousBlockAt == None
            && t.jobEnded == (if jobs == [] then None else Some(jobs[|jobs| - 1].end))
            && t.lastBlockAt == (if published == [] then None else Some(published[|published| - 1].Last()))
  {
    if jobs != [] {
      BetweenJobs(jobs[..|jobs| - 1]);
      var job := jobs[|jobs| - 1];
      DuringJob(AfterJobs(jobs[..|jobs| - 1]), job.start, job.blocks);
      BlocksKeepEnded(OnJobStarted(AfterJobs(jobs[..|jobs| - 1]), job.start), job.blocks);
    }
  }

  lemma {:induction false} BlocksKeepEnded(r: Readings, blocks: seq<Instant>)
    ensures AfterBlocks(r, blocks).stamps.jobEnded == r.stamps.jobEnded
    ensures AfterBlocks(r, blocks).samples.interJobs == r.samples.interJobs
  {
    if blocks != [] {
      BlocksKeepEnded(r, blocks[..|blocks| - 1]);
    }
  }

  ghost predicate OneEach(published: seq<JobTrace>, s: Samples)
    requires forall i :: 0 <= i < |published| ==> published[i].blocks != []
  {
    && |s.timeToFirstBlock| == |published|
    && (forall i :: 0 <= i < |published| ==>
          published[i].start + s.timeToFirstBlock[i] == published[i].blocks[0])
    && |s.interBlock| == SaturatingSub(|published|, 1)
    && (forall i :: 0 <= i < |s.interBlock| ==>
          published[i].Last() + s.interBlock[i] == published[i + 1].blocks[0])
  }

  lemma OneEachExtend(published: seq<JobTrace>, s: Samples, job: JobTrace, s': Samples)
    requires forall i :: 0 <= i < |published| ==> published[i].blocks != []
    requires OneEach(published, s) && job.blocks != [] && job.start <= job.blocks[0]
    requires published != [] ==> published[|published| - 1].Last() <= job.blocks[0]
    requires s'.timeToFirstBlock == s.timeToFirstBlock + [job.blocks[0] - job.start]
    requires s'.interBlock == s.interBlock + (if published == [] then []
                                              else [job.blocks[0] - published[|published| - 1].Last()])
    ensures OneEach(published + [job], s')
  {
    var all := published + [job];
    forall i | 0 <= i < |s'.interBlock|
      ensures all[i].Last() + s'.interBlock[i] == all[i + 1].blocks[0]
    {
      if i < |s.interBlock| {
        assert all[i] == published[i] && all[i + 1] == published[i + 1];
      }
    }
  }

  lemma SequentialPublishing(jobs: seq<JobTrace>, job: JobTrace)
    requires Sequential(jobs + [job])
    ensures Sequential(jobs)
    ensures forall earlier :: earlier in jobs ==> earlier.Orderly() && earlier.end <= job.start
  {
    var all := jobs + [job];
    forall i | 0 <= i < |jobs|
      ensures jobs[i].Orderly() && jobs[i].end <= job.start
    {
      assert all[i] == jobs[i] && all[|jobs|] == job;
    }
    assert forall i, j :: 0 <= i < j < |jobs| ==> all[i] == jobs[i] && all[j] == jobs[j];
  }

  // Over any sequence of sequential jobs: every publishing job records exactly
  // one time to first block, and every publishing job but the first ever
  // records exactly one inter-block interval, the gap from the last flashblock
  // of the publishing job before it.
  lemma {:induction false} SamplesPerJob(jobs: seq<JobTrace>)
    requires Sequential(jobs)
    ensures OneEach(Publishing(jobs), AfterJobs(jobs).samples)
  {
    if jobs != [] {
      var earlier, job := jobs[..|jobs| - 1], jobs[|jobs| - 1];
      assert jobs == earlier + [job];
      SequentialPublishing(earlier, job);
      SamplesPerJob(earlier);
      LastBefore(earlier, job);
      ExtendJobs(Publishing(earlier), AfterJobs(earlier), job);
    }
  }

  lemma ExtendJobs(published: seq<JobTrace>, r: Readings, job: JobTrace)
    requires forall i :: 0 <= i < |published| ==> published[i].blocks != []
    requires OneEach(published, r.samples) && job.Orderly() && r.stamps.firstBlockAt.None?
    requires r.stamps.lastBlockAt == (if published == [] then None else Some(published[|published| - 1].Last()))
    requires r.stamps.lastBlockAt.Some? ==> r.stamps.lastBlockAt.value <= job.start
    ensures OneEach(published + (if job.blocks != [] then [job] else []), AfterJob(r, job).samples)
  {
    var s' := AfterJob(r, job).samples;
    BlocksSampleOnce(r, job.start, job.blocks, job.end);
    assert s'.timeToFirstBlock == FirstSample(r, job).timeToFirstBlock;
    assert s'.interBlock == FirstSample(r, job).interBlock;
    if job.blocks != [] {
      assert job.start <= job.blocks[0];
      OneEachExtend(published, r.samples, job, s');
    } else {
      assert published + [] == published;
    }
  }

  lemma {:induction false} LastBefore(earlier: seq<JobTrace>, job: JobTrace)
    requires forall e :: e in earlier ==> e.Orderly() && e.end <= job.start
    ensures var t, published := AfterJobs(earlier).stamps, Publishing(earlier);
            && t.firstBlockAt.None?
            && t.lastBlockAt == (if published == [] then None else Some(published[|published| - 1].Last()))
            && (t.lastBlockAt.Some? ==> t.lastBlockAt.value <= job.start)
  {
    BetweenJobs(earlier);
    var published := Publishing(earlier);
    if published != [] {
      var previous := published[|published| - 1];
      assert previous in earlier && previous.Last() <= previous.end;
    }
  }

  // --- The idle tail ------------------------------------------------------

  // From the last flashblock ever published to the end of each job, for the
  // jobs that end after some flashblock was published.
  function IdleTails(jobs: seq<JobTrace>): seq<nat> {
    if jobs == [] then []
    else
      var published := Publishing(jobs);
      IdleTails(jobs[..|jobs| - 1])
      + (if published == [] then []
         else [DurationSince(jobs[|jobs| - 1].end, published[|published| - 1].Last())])
  }

  // The tail of a job is measured from the last flashblock of any job: one that
  // published nothing records the time since an earlier job's.
  lemma {:induction false} IdleTailMeasured(jobs: seq<JobTrace>)
    ensures AfterJobs(jobs).samples.idleTail == IdleTails(jobs)
  {
    if jobs != [] {
      var earlier, job := jobs[..|jobs| - 1], jobs[|jobs| - 1];
      IdleTailMeasured(earlier);
      BetweenJobs(earlier);
      BetweenJobs(jobs);
      BlocksSampleOnce(AfterJobs(earlier), job.start, job.blocks, job.end);
    }
  }

  // The tails as described: from the last flashblock of a job to its end.
  function OwnTails(jobs: seq<JobTrace>): seq<nat> {
    if jobs == [] then []
    else
      var last := jobs[|jobs| - 1];
      OwnTails(jobs[..|jobs| - 1]) + (if last.blocks == [] then [] else [DurationSince(last.end, last.Last())])
  }

  // Every job after a publishing one publishes too.
  ghost predicate NoneSilent(jobs: seq<JobTrace>) {
    forall i, j :: 0 <= i < j < |jobs| && jobs[i].blocks != [] ==> jobs[j].blocks != []
  }

  lemma {:induction false} PublishingNone(jobs: seq<JobTrace>)
    ensures Publishing(jobs) == [] <==> forall i :: 0 <= i < |jobs| ==> jobs[i].blocks == []
  {
    if jobs != [] {
      PublishingNone(jobs[..|jobs| - 1]);
    }
  }

  // Whether a job at the end leaves a job silent after a publishing one.
  lemma {:induction false} SilentNext(earlier: seq<JobTrace>, job: JobTrace)
    ensures NoneSilent(earlier + [job]) <==> NoneSilent(earlier) && (Publishing(earlier) == [] || job.blocks != [])
  {
    var jobs := earlier + [job];
    PublishingNone(earlier);
    assert forall i :: 0 <= i < |earlier| ==> jobs[i] == earlier[i];
    if NoneSilent(jobs) && Publishing(earlier) != [] {
      var i :| 0 <= i < |earlier| && earlier[i].blocks != [];
      assert jobs[i].blocks != [] && jobs[|earlier|] == job;
    }
  }

  // Every silent job adds a sample of its own, so the numbers tell.
  lemma {:induction false} TailCounts(jobs: seq<JobTrace>)
    ensures |OwnTails(jobs)| <= |IdleTails(jobs)|
    ensures |OwnTails(jobs)| == |IdleTails(jobs)| <==> NoneSilent(jobs)
    ensures NoneSilent(jobs) ==> IdleTails(jobs) == OwnTails(jobs)
  {
    if jobs != [] {
      var earlier, job := jobs[..|jobs| - 1], jobs[|jobs| - 1];
      assert jobs == earlier + [job];
      TailCounts(earlier);
      SilentNext(earlier, job);
    }
  }

  // The idle tails recorded are those of the jobs themselves exactly when no
  // job after a publishing one is silent.
  lemma {:induction false} IdleTailFaithfulIff(jobs: seq<JobTrace>)
    ensures AfterJobs(jobs).samples.idleTail == OwnTails(jobs)
            <==> forall i, j :: 0 <= i < j < |jobs| && jobs[i].blocks != [] ==> jobs[j].blocks != []
  {
    IdleTailMeasured(jobs);
    TailCounts(jobs);
  }

  lemma {:induction false} PublishingNext(earlier: seq<JobTrace>, job: JobTrace)
    ensures Publishing(earlier + [job]) == Publishing(earlier) + (if job.blocks != [] then [job] else [])
  {
    assert (earlier + [job])[..|earlier|] == earlier;
  }

  lemma {:induction false} OwnTailsNext(earlier: seq<JobTrace>, job: JobTrace)
    ensures OwnTails(earlier + [job])
            == OwnTails(earlier) + (if job.blocks == [] then [] else [DurationSince(job.end, job.Last())])
  {
    assert (earlier + [job])[..|earlier|] == earlier;
  }

  lemma {:induction false} TailsNext(earlier: seq<JobTrace>, job: JobTrace)
    ensures IdleTails(earlier + [job])
            == IdleTails(earlier)
               + (if job.blocks != [] then [DurationSince(job.end, job.Last())]
                  else if Publishing(earlier) == [] then []
                  else [DurationSince(job.end, Publishing(earlier)[|Publishing(earlier)| - 1].Last())])
  {
    PublishingNext(earlier, job);
    assert (earlier + [job])[..|earlier|] == earlier;
  }

  // A silent job from 2 to 9 after one that published at 1: its idle tail is
  // recorded as 8.
  lemma SilentJobRecordsTail()
    ensures var jobs := [JobTrace(0, [1], 2), JobTrace(2, [], 9)];
            AfterJobs(jobs).samples.idleTail == [1, 8] && OwnTails(jobs) == [1]
  {
    var first, second := JobTrace(0, [1], 2), JobTrace(2, [], 9);
    TailsNext([], first);
    TailsNext([first], second);
    PublishingNext([], first);
    OwnTailsNext([], first);
    OwnTailsNext([first], second);
    assert [] + [first] == [first] && [first] + [second] == [first, second];
    IdleTailMeasured([first, second]);
  }

  // --- The two intervals that are always zero -----------------------------

  function Zeros(n: nat): seq<nat> {
    seq(n, _ => 0)
  }

  function BlockCount(jobs: seq<JobTrace>): nat {
    if jobs == [] then 0 else BlockCount(jobs[..|jobs| - 1]) + |jobs[|jobs| - 1].blocks|
  }

  lemma {:induction false} BlocksIntraZero(r: Readings, blocks: seq<Instant>, n: nat)
    requires r.samples.intraBlock == Zeros(SaturatingSub(n, 1)) && (r.stamps.lastBlockAt.Some? <==> 0 < n)
    ensures AfterBlocks(r, blocks).samples.intraBlock == Zeros(SaturatingSub(n + |blocks|, 1))
    ensures AfterBlocks(r, blocks).stamps.lastBlockAt.Some? <==> 0 < n + |blocks|
  {
    if blocks != [] {
      BlocksIntraZero(r, blocks[..|blocks| - 1], n);
    }
  }

  // Whatever the jobs, every sample of the interval between flashblocks of one
  // job is zero, and every flashblock but the first ever records one, the
  // first of each later job included.
  lemma {:induction false} IntraBlockRecordedAsZero(jobs: seq<JobTrace>)
    ensures AfterJobs(jobs).samples.intraBlock == Zeros(SaturatingSub(BlockCount(jobs), 1))
    ensures AfterJobs(jobs).stamps.lastBlockAt.Some? <==> 0 < BlockCount(jobs)
  {
    if jobs != [] {
      var earlier, job := jobs[..|jobs| - 1], jobs[|jobs| - 1];
      IntraBlockRecordedAsZero(earlier);
      BlocksIntraZero(OnJobStarted(AfterJobs(earlier), job.start), job.blocks, BlockCount(earlier));
    }
  }

  lemma JobSamplesPause(r: Readings, job: JobTrace)
    ensures AfterJob(r, job).samples.interJobs
            == r.samples.interJobs
               + (if r.stamps.jobEnded.Some? then [DurationSince(r.stamps.jobEnded.value, job.start)] else [])
  {
    BlocksKeepEnded(OnJobStarted(r, job.start), job.blocks);
  }

  lemma {:induction false} PauseIsZero(earlier: seq<JobTrace>, job: JobTrace)
    requires forall e :: e in earlier ==> e.end <= job.start
    ensures AfterJob(AfterJobs(earlier), job).samples.interJobs
            == AfterJobs(earlier).samples.interJobs + Zeros(if earlier == [] then 0 else 1)
  {
    BetweenJobs(earlier);
    JobSamplesPause(AfterJobs(earlier), job);
    if earlier != [] {
      assert earlier[|earlier| - 1] in earlier;
      assert Zeros(1) == [0];
    }
  }

  // Every sample of the interval between jobs is zero as well: the end of the
  // earlier job is never after the start of the later one.
  lemma {:induction false} InterJobsRecordedAsZero(jobs: seq<JobTrace>)
    requires Sequential(jobs)
    ensures AfterJobs(jobs).samples.interJobs == Zeros(SaturatingSub(|jobs|, 1))
  {
    if jobs != [] {
      var earlier, job := jobs[..|jobs| - 1], jobs[|jobs| - 1];
      assert jobs == earlier + [job];
      SequentialPublishing(earlier, job);
      InterJobsRecordedAsZero(earlier);
      PauseIsZero(earlier, job);
      assert jobs[..|earlier|] == earlier;
    }
  }

  // The true gaps between the end of one job and the start of the next.
  function JobGaps(jobs: seq<JobTrace>): seq<nat> {
    seq(SaturatingSub(|jobs|, 1), i requires 0 <= i < |jobs| - 1 => DurationSince(jobs[i + 1].start, jobs[i].end))
  }

  // The recorded intervals are the true ones exactly when every job starts at
  // the instant the one before it ended.
  lemma {:induction false} InterJobsFaithfulIff(jobs: seq<JobTrace>)
    requires Sequential(jobs)
    ensures AfterJobs(jobs).samples.interJobs == JobGaps(jobs)
            <==> forall i :: 0 <= i < |jobs| - 1 ==> jobs[i + 1].start == jobs[i].end
  {
    InterJobsRecordedAsZero(jobs);
    forall i | 0 <= i < |jobs| - 1
      ensures jobs[i].end <= jobs[i + 1].start
    {
    }
    ZeroGapsIff(jobs);
  }

  lemma ZeroGapsIff(jobs: seq<JobTrace>)
    requires forall i :: 0 <= i < |jobs| - 1 ==> jobs[i].end <= jobs[i + 1].start
    ensures Zeros(SaturatingSub(|jobs|, 1)) == JobGaps(jobs)
            <==> forall i :: 0 <= i < |jobs| - 1 ==> jobs[i + 1].start == jobs[i].end
  {
    var zeros, gaps := Zeros(SaturatingSub(|jobs|, 1)), JobGaps(jobs);
    if zeros == gaps {
      forall i | 0 <= i < |jobs| - 1
        ensures jobs[i + 1].start == jobs[i].end
      {
        assert zeros[i] == gaps[i];
      }
    }
  }

  // Five instants between two jobs, and an interval of zero recorded.
  lemma PauseRecordedAsZero()
    ensures var jobs := [JobTrace(0, [], 1), JobTrace(6, [], 7)];
            Sequential(jobs) && AfterJobs(jobs).samples.interJobs == [0] && JobGaps(jobs) == [5]
  {
    var jobs := [JobTrace(0, [], 1), JobTrace(6, [], 7)];
    InterJobsRecordedAsZero(jobs);
  }

  // The true gaps between consecutive flashblocks of one job, over all jobs.
  function Gaps(blocks: seq<Instant>): seq<nat> {
    seq(SaturatingSub(|blocks|, 1), i requires 0 <= i < |blocks| - 1 => DurationSince(blocks[i + 1], blocks[i]))
  }

  function IntraBlockGaps(jobs: seq<JobTrace>): seq<nat> {
    if jobs == [] then [] else IntraBlockGaps(jobs[..|jobs| - 1]) + Gaps(jobs[|jobs| - 1].blocks)
  }

  lemma {:induction false} GapCount(jobs: seq<JobTrace>)
    ensures |IntraBlockGaps(jobs)| + |Publishing(jobs)| == BlockCount(jobs)
    ensures |Publishing(jobs)| == 0 <==> BlockCount(jobs) == 0
  {
    if jobs != [] {
      GapCount(jobs[..|jobs| - 1]);
    }
  }

  // All flashblocks of a job came at one instant.
  ghost predicate AtOneInstant(blocks: seq<Instant>) {
    forall a, b :: 0 <= a < b < |blocks| ==> blocks[a] == blocks[b]
  }

  ghost predicate AllZero(gaps: seq<nat>) {
    forall i :: 0 <= i < |gaps| ==> gaps[i] == 0
  }

  lemma {:induction false} StandStill(blocks: seq<Instant>, a: nat, b: nat)
    requires forall i, j :: 0 <= i <= j < |blocks| ==> blocks[i] <= blocks[j]
    requires AllZero(Gaps(blocks)) && a <= b < |blocks|
    ensures blocks[a] == blocks[b]
  {
    if a < b {
      StandStill(blocks, a, b - 1);
      assert Gaps(blocks)[b - 1] == 0;
    }
  }

  lemma NoGapsIff(blocks: seq<Instant>)
    requires forall i, j :: 0 <= i <= j < |blocks| ==> blocks[i] <= blocks[j]
    ensures AllZero(Gaps(blocks)) <==> AtOneInstant(blocks)
  {
    if AllZero(Gaps(blocks)) {
      forall a, b | 0 <= a < b < |blocks|
        ensures blocks[a] == blocks[b]
      {
        StandStill(blocks, a, b);
      }
    }
  }

  lemma AllZeroAppend(a: seq<nat>, b: seq<nat>)
    ensures AllZero(a + b) <==> AllZero(a) && AllZero(b)
  {
    assert forall i :: 0 <= i < |a| ==> (a + b)[i] == a[i];
    assert forall i :: 0 <= i < |b| ==> (a + b)[|a| + i] == b[i];
  }

  ghost predicate EachAtOneInstant(jobs: seq<JobTrace>) {
    forall i :: 0 <= i < |jobs| ==> AtOneInstant(jobs[i].blocks)
  }

  lemma EachAppend(earlier: seq<JobTrace>, job: JobTrace)
    ensures EachAtOneInstant(earlier + [job]) <==> EachAtOneInstant(earlier) && AtOneInstant(job.blocks)
  {
    assert forall i :: 0 <= i < |earlier| ==> (earlier + [job])[i] == earlier[i];
    assert (earlier + [job])[|earlier|] == job;
  }

  lemma {:induction false} NoGapsOverJobs(jobs: seq<JobTrace>)
    requires forall i :: 0 <= i < |jobs| ==> jobs[i].Orderly()
    ensures AllZero(IntraBlockGaps(jobs)) <==> EachAtOneInstant(jobs)
  {
    if jobs != [] {
      var earlier, job := jobs[..|jobs| - 1], jobs[|jobs| - 1];
      NoGapsOverJobs(earlier);
      assert jobs[|jobs| - 1].Orderly();
      NoGapsIff(job.blocks);
      AllZeroAppend(IntraBlockGaps(earlier), Gaps(job.blocks));
      EachAppend(earlier, job);
      assert jobs == earlier + [job];
    }
  }

  // The recorded intervals are the true gaps within jobs exactly when at most
  // one job ever published and no gap is longer than zero: on a clock that
  // never goes back, when it published everything at the same instant.
  lemma {:induction false} IntraBlockFaithfulIff(jobs: seq<JobTrace>)
    ensures AfterJobs(jobs).samples.intraBlock == IntraBlockGaps(jobs)
            <==> |Publishing(jobs)| <= 1 && AllZero(IntraBlockGaps(jobs))
    ensures Sequential(jobs) ==>
              (AfterJobs(jobs).samples.intraBlock == IntraBlockGaps(jobs)
               <==> (&& |Publishing(jobs)| <= 1
                     && forall i, a, b :: 0 <= i < |jobs| && 0 <= a < b < |jobs[i].blocks| ==>
                                            jobs[i].blocks[a] == jobs[i].blocks[b]))
  {
    IntraBlockRecordedAsZero(jobs);
    GapCount(jobs);
    if Sequential(jobs) {
      NoGapsOverJobs(jobs);
      InstantsIff(jobs);
    }
  }

  lemma InstantsIff(jobs: seq<JobTrace>)
    ensures EachAtOneInstant(jobs)
            <==> forall i, a, b :: 0 <= i < |jobs| && 0 <= a < b < |jobs[i].blocks| ==>
                                     jobs[i].blocks[a] == jobs[i].blocks[b]
  {
  }

  // Two flashblocks three instants apart, and an interval of zero recorded.
  lemma IntervalRecordedAsZero()
    ensures var jobs := [JobTrace(0, [1, 4], 5)];
            Sequential(jobs) && AfterJobs(jobs).samples.intraBlock == [0] && IntraBlockGaps(jobs) == [3]
  {
    var jobs := [JobTrace(0, [1, 4], 5)];
    assert jobs[..0] == [];
    IntraBlockRecordedAsZero(jobs);
    assert BlockCount(jobs) == 2 && Gaps([1, 4]) == [3];
  }
}
