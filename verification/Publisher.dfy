// The publishing step and the transport it writes to (src/publish.rs), as the
// objects the source has, and the job loop that drives them (src/main.rs).
module Publisher {
  import opened Prelude
  import opened Platform
  import opened Checkpoints
  import opened FlashblockLimits
  import opened Schedule
  import opened Flashblocks
  import opened Pipeline
  import opened JobLemmas
  import opened RunLemmas
  import opened Contents
  import Times

  // The sending side of the broadcast channel. The number of live receivers is
  // changed by the tasks that hold them.
  class WebSocketSink {
    var log: seq<Flashblock>
    var receivers: nat

    // The listener task holds the first receiver.
    constructor ()
      ensures log == [] && receivers == 1
    {
      log, receivers := [], 1;
    }

    method Publish(payload: Flashblock, serialises: bool) returns (ok: bool)
      modifies this`log
      ensures ok <==> serialises && 0 < receivers
      ensures log == if ok then old(log) + [payload] else old(log)
    {
      if !serialises {
        return false;
      }
      if receivers == 0 {
        return false;
      }
      log := log + [payload];
      ok := true;
    }
  }

  class PublishFlashblock {
    const sink: WebSocketSink
    const times: Times.Recorder
    var blockBase: Option<BlockBase>

    constructor (sink: WebSocketSink)
      ensures this.sink == sink && blockBase == None
      ensures fresh(times) && times.View() == Times.UNSET
    {
      this.sink := sink;
      times := new Times.Recorder();
      blockBase := None;
    }

    method BeforeJob(block: BlockContext, now: Times.Instant)
      modifies this`blockBase, times
      ensures blockBase == Some(BaseOf(block)) && blockBase.value.Describes(block)
      ensures times.View() == Times.OnJobStarted(old(times.View()), now)
    {
      BaseDescribes(block);
      times.JobStarted(now);
      blockBase := Some(BaseOf(block));
    }

    // Refines the publish step; the clock is read only when the message has
    // been accepted.
    method Step(payload: History, block: BlockContext, seals: bool, serialises: bool, now: Times.Instant)
      returns (flow: ControlFlow)
      modifies this`blockBase, sink`log, times
      ensures var outcome := OutcomeOf(seals, serialises, old(sink.receivers));
              var result := PublishStep(payload, old(blockBase), block, outcome);
              && flow == result.flow
              && blockBase == result.base
              && sink.log == old(sink.log) + (if result.sent.Some? then [result.sent.value] else [])
              && times.View() == (if result.sent.Some? then Times.OnPublishedBlock(old(times.View()), now)
                                  else old(times.View()))
      // A failed seal breaks and keeps the base; a refused message takes it. Both
      // leave the payload as it is.
      ensures flow.Break? <==> !seals
      ensures blockBase == if seals then None else old(blockBase)
      ensures !(seals && serialises && 0 < old(sink.receivers)) ==>
                flow.payload == payload && sink.log == old(sink.log) && times.View() == old(times.View())
      // A message that is accepted carries what was built since the flashblock
      // began, and a barrier goes on top.
      ensures seals && serialises && 0 < old(sink.receivers) ==>
                && sink.log[..|sink.log| - 1] == old(sink.log)
                && Carries(sink.log[|sink.log| - 1], payload, block)
                && sink.log[|sink.log| - 1].base == old(blockBase)
                && flow.payload[..|flow.payload| - 1] == payload
                && flow.payload[|flow.payload| - 1]
                   == Checkpoint(FlashblockNumber(Context(payload).current + 1), true, [])
    {
      SplitAtOpen(payload);
      var thisBlockSpan := UnpublishedPayload(payload);
      var transactions := Transactions(thisBlockSpan);
      if !seals {
        return Break(payload);
      }
      var sealedBlock := SealedBlock(Transactions(payload));
      var base := blockBase;
      blockBase := None;
      var flashblockNumber := Context(payload);
      var index := flashblockNumber.Index();
      var message := Flashblock(base, transactions, sealedBlock, block.payloadId, index, block.number);
      var ok := sink.Publish(message, serialises);
      if !ok {
        return Ok(payload);
      }
      times.PublishedBlock(now);
      var next := flashblockNumber.Next();
      flow := Ok(BarrierWithContext(payload, next));
    }

    method AfterJob(now: Times.Instant)
      modifies this`blockBase, times
      ensures blockBase == None
      ensures times.View() == Times.OnJobEnded(old(times.View()), now)
    {
      times.JobEnded(now);
      blockBase := None;
    }
  }

  // --- The job loop -------------------------------------------------------

  // The rounds of the inner loop, each a building step.
  method Build(ghost job: Job, payload: History, rounds: seq<seq<Draft>>) returns (built: History)
    requires job.history == payload
    ensures BuildRounds(job, rounds) == job.(history := built)
  {
    built := payload;
    assert rounds[..0] == [];
    for i := 0 to |rounds|
      invariant BuildRounds(job, rounds[..i]) == job.(history := built)
    {
      assert rounds[..i + 1][..i] == rounds[..i];
      built := Rewrite(built, rounds[i]);
    }
    assert rounds[..|rounds|] == rounds;
  }

  // Building rounds and epilogue: the payload and the time at which the
  // publish step finds them.
  method Prepare(payload: History, elapsed: Duration, pass: Iteration, ghost job: Job)
    returns (built: History, now: Duration)
    requires job.history == payload && job.elapsed == elapsed
    ensures Ready(job, pass) == Entered(job).(history := built, elapsed := now)
  {
    built := Build(Entered(job), payload, pass.rounds);
    now := elapsed + pass.building;
    if pass.epilogue.Some? {
      built := Append(built, [pass.epilogue.value]);
    }
    now := now + pass.finishing;
  }

  // One pass of the outer loop up to the stop step.
  method RunPass(publisher: PublishFlashblock, block: BlockContext, startedAt: Times.Instant,
                 payload: History, elapsed: Duration, pass: Iteration, ghost job: Job)
    returns (flow: ControlFlow, elapsed': Duration)
    requires job.history == payload && job.base == publisher.blockBase && job.elapsed == elapsed
    modifies publisher`blockBase, publisher.sink, publisher.times
    ensures var after := AfterPass(block, job, pass);
            && flow.payload == after.history && publisher.blockBase == after.base && elapsed' == after.elapsed
            && (flow.Break? <==> pass.Outcome() == SealFailed)
            && (pass.Outcome() != Sent ==>
                  && after.published == job.published && after.publishedAt == job.publishedAt
                  && publisher.sink.log == old(publisher.sink.log)
                  && publisher.times.View() == old(publisher.times.View()))
            && (pass.Outcome() == Sent ==>
                  && |after.published| == |job.published| + 1 && |after.publishedAt| == |job.publishedAt| + 1
                  && after.published == job.published + [after.published[|job.published|]]
                  && after.publishedAt == job.publishedAt + [after.publishedAt[|job.publishedAt|]]
                  && publisher.sink.log == old(publisher.sink.log) + [after.published[|job.published|]]
                  && publisher.times.View() == Times.OnPublishedBlock(old(publisher.times.View()),
                                                                      startedAt + after.publishedAt[|job.publishedAt|]))
  {
    var built, now := Prepare(payload, elapsed, pass, job);
    publisher.sink.receivers := pass.receivers;
    flow := publisher.Step(built, block, pass.seals, pass.serialises, startedAt + now);
    elapsed' := now + pass.trailing;
    PublishShape(block, Ready(job, pass), pass.Outcome());
  }

  function AbsoluteTimes(startedAt: Times.Instant, at: seq<Duration>): seq<Times.Instant> {
    seq(|at|, i requires 0 <= i < |at| => startedAt + at[i])
  }

  lemma {:induction false} AbsoluteAppend(r: Times.Readings, startedAt: Times.Instant, at: seq<Duration>, t: Duration)
    ensures Times.AfterBlocks(r, AbsoluteTimes(startedAt, at + [t]))
            == Times.OnPublishedBlock(Times.AfterBlocks(r, AbsoluteTimes(startedAt, at)), startedAt + t)
  {
    var all := AbsoluteTimes(startedAt, at + [t]);
    assert all[..|all| - 1] == AbsoluteTimes(startedAt, at);
  }

  lemma {:induction false} HaltedRun(p: Plan, start: Job, passes: seq<Iteration>, k: nat)
    requires p.Valid() && k <= |passes| && RunLoop(p, start, passes[..k]).status != Running
    ensures RunLoop(p, start, passes) == RunLoop(p, start, passes[..k])
  {
    if k == |passes| {
      assert passes[..k] == passes;
    } else {
      var earlier := passes[..|passes| - 1];
      assert earlier[..k] == passes[..k];
      HaltedRun(p, start, earlier, k);
    }
  }

  lemma {:induction false} LoopExtend(p: Plan, start: Job, passes: seq<Iteration>, used: nat, job: Job)
    requires p.Valid() && used < |passes|
    requires RunLoop(p, start, passes[..used]) == Run(job, used, Running)
    ensures var after := AfterPass(p.block, job, passes[used]);
            RunLoop(p, start, passes[..used + 1])
            == Run(after, used + 1, StatusAfter(p, after, passes[used].Outcome()))
  {
    assert passes[..used + 1][..used] == passes[..used];
  }

  // What the objects hold mirrors a job that has got this far.
  ghost predicate MirroredBy(base: Option<BlockBase>, sent: seq<Flashblock>, view: Times.Readings,
                             log: seq<Flashblock>, started: Times.Readings, startedAt: Times.Instant, job: Job) {
    && base == job.base
    && sent == log + job.published
    && view == Times.AfterBlocks(started, AbsoluteTimes(startedAt, job.publishedAt))
  }

  ghost predicate Mirrors(publisher: PublishFlashblock, log: seq<Flashblock>, started: Times.Readings,
                          startedAt: Times.Instant, job: Job)
    reads publisher, publisher.sink, publisher.times
  {
    MirroredBy(publisher.blockBase, publisher.sink.log, publisher.times.View(), log, started, startedAt, job)
  }

  // A message more, and the time at which it was sent.
  lemma MirroredNext(base: Option<BlockBase>, sent: seq<Flashblock>, view: Times.Readings,
                     log: seq<Flashblock>, started: Times.Readings, startedAt: Times.Instant,
                     job: Job, after: Job, f: Flashblock, at: Duration)
    requires MirroredBy(base, sent, view, log, started, startedAt, job)
    requires after.published == job.published + [f] && after.publishedAt == job.publishedAt + [at]
    ensures MirroredBy(after.base, sent + [f], Times.OnPublishedBlock(view, startedAt + at), log, started, startedAt,
                       after)
  {
    AbsoluteAppend(started, startedAt, job.publishedAt, at);
    assert (log + job.published) + [f] == log + after.published;
  }

  // A pass and the stop step after it.
  method PassAndStop(publisher: PublishFlashblock, p: Plan, startedAt: Times.Instant,
                     payload: History, elapsed: Duration, pass: Iteration,
                     ghost log: seq<Flashblock>, ghost started: Times.Readings, ghost job: Job)
    returns (payload': History, elapsed': Duration, status: Status)
    requires p.Valid()
    requires job.history == payload && job.elapsed == elapsed && Mirrors(publisher, log, started, startedAt, job)
    modifies publisher`blockBase, publisher.sink, publisher.times
    ensures var after := AfterPass(p.block, job, pass);
            && after.history == payload' && after.elapsed == elapsed'
            && status == StatusAfter(p, after, pass.Outcome())
            && Mirrors(publisher, log, started, startedAt, after)
  {
    var flow: ControlFlow;
    flow, elapsed' := RunPass(publisher, p.block, startedAt, payload, elapsed, pass, job);
    ghost var after := AfterPass(p.block, job, pass);
    if pass.Outcome() == Sent {
      MirroredNext(old(publisher.blockBase), old(publisher.sink.log), old(publisher.times.View()),
                   log, started, startedAt, job, after,
                   after.published[|job.published|], after.publishedAt[|job.publishedAt|]);
    }
    payload' := flow.payload;
    if flow.Break? {
      status := BuildFailed;
    } else if StopsAfter(Context(payload'), p.Deadline(), p.interval) {
      status := Stopped;
    } else {
      status := Running;
    }
  }

  method Advance(publisher: PublishFlashblock, p: Plan, startedAt: Times.Instant,
                 payload: History, elapsed: Duration, passes: seq<Iteration>, used: nat,
                 ghost start: Job, ghost log: seq<Flashblock>, ghost started: Times.Readings, ghost job: Job)
    returns (payload': History, elapsed': Duration, status: Status, ghost after: Job)
    requires p.Valid() && used < |passes|
    requires RunLoop(p, start, passes[..used]) == Run(job, used, Running)
    requires job.history == payload && job.elapsed == elapsed && Mirrors(publisher, log, started, startedAt, job)
    modifies publisher`blockBase, publisher.sink, publisher.times
    ensures RunLoop(p, start, passes[..used + 1]) == Run(after, used + 1, status)
    ensures after.history == payload' && after.elapsed == elapsed'
    ensures Mirrors(publisher, log, started, startedAt, after)
  {
    payload', elapsed', status :=
      PassAndStop(publisher, p, startedAt, payload, elapsed, passes[used], log, started, job);
    after := AfterPass(p.block, job, passes[used]);
    LoopExtend(p, start, passes, used, job);
  }

  // The outer loop.
  method Loop(publisher: PublishFlashblock, p: Plan, startedAt: Times.Instant,
              payload: History, elapsed: Duration, passes: seq<Iteration>,
              ghost start: Job, ghost log: seq<Flashblock>, ghost started: Times.Readings)
    returns (payload': History, elapsed': Duration, used: nat, status: Status, ghost job: Job)
    requires p.Valid()
    requires start.history == payload && start.elapsed == elapsed && Mirrors(publisher, log, started, startedAt, start)
    modifies publisher`blockBase, publisher.sink, publisher.times
    ensures RunLoop(p, start, passes) == Run(job, used, status)
    ensures job.history == payload' && job.elapsed == elapsed'
    ensures Mirrors(publisher, log, started, startedAt, job)
  {
    payload', elapsed', used, status, job := payload, elapsed, 0, Running, start;
    assert passes[..0] == [];
    while status == Running && used < |passes|
      invariant used <= |passes|
      invariant RunLoop(p, start, passes[..used]) == Run(job, used, status)
      invariant payload' == job.history && elapsed' == job.elapsed
      invariant Mirrors(publisher, log, started, startedAt, job)
      decreases |passes| - used
    {
      payload', elapsed', status, job :=
        Advance(publisher, p, startedAt, payload', elapsed', passes, used, start, log, started, job);
      used := used + 1;
    }
    if status != Running {
      HaltedRun(p, start, passes, used);
    } else {
      assert passes[..used] == passes;
    }
  }

  // What a job leaves in the record of times.
  function TraceOf(startedAt: Times.Instant, job: Job): Times.JobTrace {
    Times.JobTrace(startedAt, AbsoluteTimes(startedAt, job.publishedAt), startedAt + job.elapsed)
  }

  // From the hook before the job up to the end of the loop.
  method RunToEnd(publisher: PublishFlashblock, p: Plan, startedAt: Times.Instant,
                  prologue: seq<Draft>, lead: Duration, passes: seq<Iteration>)
    returns (payload: History, elapsed: Duration, used: nat, status: Status, ghost job: Job)
    requires p.Valid()
    modifies publisher`blockBase, publisher.sink, publisher.times
    ensures RunLoop(p, StartJob(p.block, prologue, lead), passes) == Run(job, used, status)
    ensures job.history == payload && job.elapsed == elapsed
    ensures Mirrors(publisher, old(publisher.sink.log), Times.OnJobStarted(old(publisher.times.View()), startedAt),
                    startedAt, job)
  {
    ghost var start := StartJob(p.block, prologue, lead);
    ghost var log := publisher.sink.log;
    publisher.BeforeJob(p.block, startedAt);
    assert AbsoluteTimes(startedAt, []) == [];
    assert log + [] == log;
    payload, elapsed, used, status, job :=
      Loop(publisher, p, startedAt, Rewrite(BASELINE, prologue), lead, passes, start, log, publisher.times.View());
  }

  lemma TraceRecorded(r: Times.Readings, startedAt: Times.Instant, job: Job)
    ensures var blocks := AbsoluteTimes(startedAt, job.publishedAt);
            Times.OnJobEnded(Times.AfterBlocks(Times.OnJobStarted(r, startedAt), blocks), startedAt + job.elapsed)
            == Times.AfterJob(r, TraceOf(startedAt, job))
  {
  }

  // The hook after the job.
  method Finish(publisher: PublishFlashblock, ghost before: Times.Readings, startedAt: Times.Instant,
                elapsed: Duration, ghost job: Job)
    requires job.elapsed == elapsed
    requires publisher.times.View()
             == Times.AfterBlocks(Times.OnJobStarted(before, startedAt), AbsoluteTimes(startedAt, job.publishedAt))
    modifies publisher`blockBase, publisher.times
    ensures publisher.blockBase == None
    ensures publisher.times.View() == Times.AfterJob(before, TraceOf(startedAt, job))
  {
    TraceRecorded(before, startedAt, job);
    publisher.AfterJob(startedAt + elapsed);
  }

  // A whole payload job, from the hook before it to the hook after it: the
  // objects end up exactly as the run of the state machine says. The base left
  // by an earlier job plays no part, and none is left behind.
  method RunJob(publisher: PublishFlashblock, p: Plan, startedAt: Times.Instant,
                prologue: seq<Draft>, lead: Duration, passes: seq<Iteration>)
    returns (payload: History, used: nat, status: Status)
    requires p.Valid()
    modifies publisher`blockBase, publisher.sink, publisher.times
    ensures var run := RunLoop(p, StartJob(p.block, prologue, lead), passes);
            && payload == run.job.history && used == run.used && status == run.status
            && publisher.sink.log == old(publisher.sink.log) + run.job.published
            && publisher.blockBase == None
            && publisher.times.View() == Times.AfterJob(old(publisher.times.View()), TraceOf(startedAt, run.job))
  {
    var elapsed: Duration;
    ghost var job: Job;
    ghost var before := publisher.times.View();
    payload, elapsed, used, status, job := RunToEnd(publisher, p, startedAt, prologue, lead, passes);
    Finish(publisher, before, startedAt, elapsed, job);
  }

  // --- A sequence of jobs -------------------------------------------------

  // A payload job as it comes, with what the environment makes of it.
  datatype Assignment = Assignment(
    plan: Plan,
    startedAt: Times.Instant,
    prologue: seq<Draft>,
    lead: Duration,
    passes: seq<Iteration>)
  {
    function Trace(): Times.JobTrace
      requires plan.Valid()
    {
      TraceOf(startedAt, RunLoop(plan, StartJob(plan.block, prologue, lead), passes).job)
    }
  }

  predicate AllValid(jobs: seq<Assignment>) {
    forall i :: 0 <= i < |jobs| ==> jobs[i].plan.Valid()
  }

  function Traces(jobs: seq<Assignment>): seq<Times.JobTrace>
    requires AllValid(jobs)
  {
    seq(|jobs|, i requires 0 <= i < |jobs| => jobs[i].Trace())
  }

  // No job starts before the one ahead of it has ended.
  ghost predicate OneAtATime(jobs: seq<Assignment>)
    requires AllValid(jobs)
  {
    forall i, j :: 0 <= i < j < |jobs| ==> jobs[i].Trace().end <= jobs[j].startedAt
  }

  // The sends of a job lie in order between its start and the present.
  ghost predicate ClockRuns(job: Job) {
    && (forall i :: 0 <= i < |job.publishedAt| ==> job.publishedAt[i] <= job.elapsed)
    && (forall i, j :: 0 <= i <= j < |job.publishedAt| ==> job.publishedAt[i] <= job.publishedAt[j])
  }

  lemma StepClock(block: BlockContext, job: Job, event: Event)
    requires ClockRuns(job)
    ensures ClockRuns(Step(block, job, event))
  {
  }

  lemma {:induction false} StepsClock(block: BlockContext, job: Job, events: seq<Event>)
    requires ClockRuns(job)
    ensures ClockRuns(Steps(block, job, events))
  {
    if events != [] {
      StepsClock(block, job, events[..|events| - 1]);
      StepClock(block, Steps(block, job, events[..|events| - 1]), events[|events| - 1]);
    }
  }

  lemma TraceOrderly(startedAt: Times.Instant, job: Job)
    requires ClockRuns(job)
    ensures TraceOf(startedAt, job).Orderly()
  {
  }

  // Every run of the machine leaves an orderly trace.
  lemma {:induction false} RunTraceOrderly(p: Plan, startedAt: Times.Instant, prologue: seq<Draft>, lead: Duration,
                                           passes: seq<Iteration>)
    requires p.Valid()
    ensures TraceOf(startedAt, RunLoop(p, StartJob(p.block, prologue, lead), passes).job).Orderly()
  {
    var start := StartJob(p.block, prologue, lead);
    RunIsSteps(p, start, passes);
    StepsClock(p.block, start, EventsOf(passes[..RunLoop(p, start, passes).used]));
    TraceOrderly(startedAt, RunLoop(p, start, passes).job);
  }

  lemma TracesSequential(jobs: seq<Assignment>)
    requires AllValid(jobs) && OneAtATime(jobs)
    ensures Times.Sequential(Traces(jobs))
  {
    forall i | 0 <= i < |jobs|
      ensures Traces(jobs)[i].Orderly()
    {
      RunTraceOrderly(jobs[i].plan, jobs[i].startedAt, jobs[i].prologue, jobs[i].lead, jobs[i].passes);
    }
  }

  lemma TracesSampled(jobs: seq<Assignment>)
    requires AllValid(jobs) && OneAtATime(jobs)
    ensures Times.OneEach(Times.Publishing(Traces(jobs)), Times.AfterJobs(Traces(jobs)).samples)
  {
    TracesSequential(jobs);
    Times.SamplesPerJob(Traces(jobs));
  }

  lemma NextTrace(traces: seq<Times.JobTrace>, i: nat)
    requires i < |traces|
    ensures Times.AfterJobs(traces[..i + 1]) == Times.AfterJob(Times.AfterJobs(traces[..i]), traces[i])
  {
    assert traces[..i + 1][..i] == traces[..i];
  }

  // A publisher driven through a sequence of jobs, one at a time, has recorded
  // for every job that sent something exactly one time to first block, and for
  // every such job but the first exactly one inter-block interval, each with
  // its true value.
  method RunJobs(publisher: PublishFlashblock, jobs: seq<Assignment>)
    requires AllValid(jobs) && OneAtATime(jobs) && publisher.times.View() == Times.UNSET
    modifies publisher`blockBase, publisher.sink, publisher.times
    ensures publisher.times.View() == Times.AfterJobs(Traces(jobs))
    ensures Times.OneEach(Times.Publishing(Traces(jobs)), publisher.times.View().samples)
  {
    ghost var traces := Traces(jobs);
    assert traces[..0] == [];
    for i := 0 to |jobs|
      invariant publisher.times.View() == Times.AfterJobs(traces[..i])
    {
      var job := jobs[i];
      var _, _, _ := RunJob(publisher, job.plan, job.startedAt, job.prologue, job.lead, job.passes);
      NextTrace(traces, i);
    }
    assert traces[..|jobs|] == traces;
    TracesSampled(jobs);
  }
}
