// The flashblock production loop (src/main.rs): an outer loop of building
// rounds, builder epilogue, publishing and stop check, driven as a state
// machine over the checkpoint history of one payload job.
module Pipeline {
  import opened Prelude
  import opened Platform
  import opened Checkpoints
  import opened FlashblockLimits
  import opened Schedule
  import opened Flashblocks

  // The moment at which the single-flashblock scope is entered; the limits for
  // that flashblock are created from it.
  datatype Entry = Entry(number: FlashblockNumber, elapsed: Duration) {
    function Limits(p: Plan): Limits
      requires p.Valid()
    {
      Create(number, p.block, elapsed, p.enclosing, p.interval)
    }
  }

  // The state of one job. `entries` and `publishedAt` record, in order, each
  // entry into the single-flashblock scope and the time of each successful
  // publish.
  datatype Job = Job(
    history: History,
    base: Option<BlockBase>,
    published: seq<Flashblock>,
    elapsed: Duration,
    entries: seq<Entry>,
    publishedAt: seq<Duration>)

  // What can happen to a job, step by step: entering the single-flashblock
  // scope, time passing, a building step rewriting what follows the last
  // barrier, the builder epilogue appending its transaction, and publishing.
  datatype Event =
    | Enter
    | Elapse(time: Duration)
    | Rebuild(drafts: seq<Draft>)
    | Epilogue(tx: Transaction)
    | Publish(outcome: Outcome)

  function StartJob(block: BlockContext, prologue: seq<Draft>, lead: Duration): Job {
    Job(Rewrite(BASELINE, prologue), Some(BaseOf(block)), [], lead, [], [])
  }

  function AfterPublish(block: BlockContext, job: Job, outcome: Outcome): Job {
    var result := PublishStep(job.history, job.base, block, outcome);
    var job' := job.(history := result.flow.payload, base := result.base);
    if result.sent.None? then job'
    else job'.(published := job.published + [result.sent.value], publishedAt := job.publishedAt + [job.elapsed])
  }

  function Step(block: BlockContext, job: Job, event: Event): Job {
    match event
    case Enter => job.(entries := job.entries + [Entry(Context(job.history), job.elapsed)])
    case Elapse(time) => job.(elapsed := job.elapsed + time)
    case Rebuild(drafts) => job.(history := Rewrite(job.history, drafts))
    case Epilogue(tx) => job.(history := Append(job.history, [tx]))
    case Publish(outcome) => AfterPublish(block, job, outcome)
  }

  function Steps(block: BlockContext, job: Job, events: seq<Event>): Job {
    if events == [] then job
    else Step(block, Steps(block, job, events[..|events| - 1]), events[|events| - 1])
  }

  // One pass of the outer loop: rounds of the inner loop until its deadline
  // step breaks it, the epilogue if a signer is configured, then publishing.
  // The last fields are what the environment decides: how long things take,
  // whether the block seals, and whether the transport accepts the message.
  datatype Iteration = Iteration(
    rounds: seq<seq<Draft>>,
    building: Duration,
    epilogue: Option<Transaction>,
    finishing: Duration,
    seals: bool,
    serialises: bool,
    receivers: nat,
    trailing: Duration)
  {
    function Outcome(): Outcome {
      OutcomeOf(seals, serialises, receivers)
    }

    function Rounds(): seq<Event> {
      seq(|rounds|, i requires 0 <= i < |rounds| => Rebuild(rounds[i]))
    }

    function Signing(): seq<Event> {
      if epilogue.Some? then [Epilogue(epilogue.value)] else []
    }

    function Events(): seq<Event> {
      [Enter] + Rounds() + [Elapse(building)] + Signing()
      + [Elapse(finishing), Publish(Outcome()), Elapse(trailing)]
    }
  }

  // The stages of a pass, one at a time.
  function Entered(job: Job): Job {
    job.(entries := job.entries + [Entry(Context(job.history), job.elapsed)])
  }

  function Built(job: Job, pass: Iteration): Job {
    var built := BuildRounds(Entered(job), pass.rounds);
    built.(elapsed := built.elapsed + pass.building)
  }

  function BuildRounds(job: Job, rounds: seq<seq<Draft>>): Job {
    if rounds == [] then job
    else
      var built := BuildRounds(job, rounds[..|rounds| - 1]);
      built.(history := Rewrite(built.history, rounds[|rounds| - 1]))
  }

  function Ready(job: Job, pass: Iteration): Job {
    var built := Built(job, pass);
    built.(history := if pass.epilogue.Some? then Append(built.history, [pass.epilogue.value]) else built.history,
           elapsed := built.elapsed + pass.finishing)
  }

  function AfterPass(block: BlockContext, job: Job, pass: Iteration): Job {
    var sent := AfterPublish(block, Ready(job, pass), pass.Outcome());
    sent.(elapsed := sent.elapsed + pass.trailing)
  }

  datatype Status = Running | Stopped | BuildFailed

  datatype Run = Run(job: Job, used: nat, status: Status)

  // After a pass: a sealing failure breaks the loop at the publish step;
  // otherwise the stop step decides.
  function StatusAfter(p: Plan, job: Job, outcome: Outcome): Status
    requires p.Valid()
  {
    if outcome == SealFailed then BuildFailed
    else if StopsAfter(Context(job.history), p.Deadline(), p.interval) then Stopped
    else Running
  }

  // The outer loop, fed with passes until it breaks or they run out.
  function RunLoop(p: Plan, start: Job, passes: seq<Iteration>): Run
    requires p.Valid()
  {
    if passes == [] then Run(start, 0, Running)
    else
      var before := RunLoop(p, start, passes[..|passes| - 1]);
      if before.status != Running then before
      else
        var pass := passes[|passes| - 1];
        var job := AfterPass(p.block, before.job, pass);
        Run(job, before.used + 1, StatusAfter(p, job, pass.Outcome()))
  }

  function Diffs(published: seq<Flashblock>): seq<seq<Transaction>> {
    seq(|published|, i requires 0 <= i < |published| => published[i].transactions)
  }

  // Everything sent so far, in order.
  function Replayed(published: seq<Flashblock>): seq<Transaction> {
    Flatten(Diffs(published))
  }
}
