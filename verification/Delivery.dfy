// From the builder to a subscriber: the publishing job and the fan-out
// protocol put together.
module Delivery {
  import opened Prelude
  import opened Platform
  import opened Checkpoints
  import opened Schedule
  import opened Flashblocks
  import opened Pipeline
  import opened JobLemmas
  import opened RunLemmas
  import Fanout
  import Publisher
  import Times

  // --- A job on its channel -----------------------------------------------

  type Traffic = seq<Fanout.Event<Flashblock>>

  // Anything that happens to the channel other than publishing.
  type PeerEvent = e: Fanout.Event<Flashblock> | !e.Publish? witness Fanout.Accept

  // A pass of the outer loop and what happens to the channel before its
  // publish step; what it says of the receivers is for the channel to decide.
  datatype Turn = Turn(pass: Iteration, served: seq<PeerEvent>)

  // The passes of a job as the channel let them be, and everything that has
  // happened to the channel.
  datatype Live = Live(passes: seq<Iteration>, traffic: Traffic)

  // Receivers the sender sees; none once it has been dropped.
  function SeenReceivers(s: Fanout.System<Flashblock>): nat {
    if s.dropped then 0 else Fanout.Receivers(s)
  }

  // The message a pass hands to the channel.
  function MessageOf(block: BlockContext, job: Job, pass: Iteration): Flashblock {
    FlashblockFrom(Ready(job, pass).history, Ready(job, pass).base, block)
  }

  function Settle(pass: Iteration, capacity: pos, traffic: Traffic): Iteration {
    pass.(receivers := SeenReceivers(Fanout.Run(capacity, traffic)))
  }

  // One turn of a job that is still running.
  function TakeTurn(p: Plan, start: Job, capacity: pos, so: Live, turn: Turn): Live
    requires p.Valid()
  {
    var traffic := so.traffic + turn.served;
    var pass := Settle(turn.pass, capacity, traffic);
    var message := MessageOf(p.block, RunLoop(p, start, so.passes).job, pass);
    Live(so.passes + [pass], if pass.Outcome() == Sent then traffic + [Fanout.Publish(message)] else traffic)
  }

  // A job started on a channel with some past, fed with turns until it breaks.
  function LiveRun(p: Plan, start: Job, capacity: pos, before: Traffic, turns: seq<Turn>): Live
    requires p.Valid()
  {
    if turns == [] then Live([], before)
    else
      var so := LiveRun(p, start, capacity, before, turns[..|turns| - 1]);
      if RunLoop(p, start, so.passes).status != Running then so
      else TakeTurn(p, start, capacity, so, turns[|turns| - 1])
  }

  lemma {:induction false} TrafficNext(capacity: pos, traffic: Traffic, event: Fanout.Event<Flashblock>)
    ensures var s, s' := Fanout.Run(capacity, traffic), Fanout.Run(capacity, traffic + [event]);
            s'.log == s.log + (if event.Publish? && Fanout.Accepts(s) then [event.m] else [])
  {
    Fanout.RunAppend(capacity, traffic, event);
  }

  lemma {:induction false} ServedKeepsLog(capacity: pos, traffic: Traffic, served: seq<PeerEvent>)
    ensures Fanout.Run(capacity, traffic + served).log == Fanout.Run(capacity, traffic).log
  {
    if served == [] {
      assert traffic + served == traffic;
    } else {
      var earlier, last := served[..|served| - 1], served[|served| - 1];
      ServedKeepsLog(capacity, traffic, earlier);
      assert traffic + served == (traffic + earlier) + [last];
      TrafficNext(capacity, traffic + earlier, last);
    }
  }

  lemma AfterPassPublishes(block: BlockContext, job: Job, pass: Iteration)
    ensures AfterPass(block, job, pass).published
            == Ready(job, pass).published + (if pass.Outcome() == Sent then [MessageOf(block, job, pass)] else [])
  {
    PublishShape(block, Ready(job, pass), pass.Outcome());
  }

  lemma ReadyHasPublished(job: Job, pass: Iteration)
    ensures Ready(job, pass).published == job.published
  {
    RoundsPublishNothing(Entered(job), pass.rounds);
  }

  lemma {:induction false} RoundsPublishNothing(job: Job, rounds: seq<seq<Draft>>)
    ensures BuildRounds(job, rounds).published == job.published
  {
    if rounds != [] {
      RoundsPublishNothing(job, rounds[..|rounds| - 1]);
    }
  }

  lemma {:induction false} PassPublishes(p: Plan, start: Job, passes: seq<Iteration>, pass: Iteration)
    requires p.Valid() && RunLoop(p, start, passes).status == Running
    ensures var job := RunLoop(p, start, passes).job;
            RunLoop(p, start, passes + [pass]).job.published
            == job.published + (if pass.Outcome() == Sent then [MessageOf(p.block, job, pass)] else [])
  {
    assert (passes + [pass])[..|passes|] == passes;
    AfterPassPublishes(p.block, RunLoop(p, start, passes).job, pass);
    ReadyHasPublished(RunLoop(p, start, passes).job, pass);
  }

  // The channel's log holds what was in it before the job and then exactly the
  // flashblocks the job has sent: each message it counts as sent was accepted,
  // and nothing else got in between.
  lemma {:induction false} LogIsPublished(p: Plan, start: Job, capacity: pos, before: Traffic, turns: seq<Turn>)
    requires p.Valid() && start.published == []
    ensures var live := LiveRun(p, start, capacity, before, turns);
            Fanout.Run(capacity, live.traffic).log
            == Fanout.Run(capacity, before).log + RunLoop(p, start, live.passes).job.published
  {
    if turns != [] {
      var so, turn := LiveRun(p, start, capacity, before, turns[..|turns| - 1]), turns[|turns| - 1];
      LogIsPublished(p, start, capacity, before, turns[..|turns| - 1]);
      if RunLoop(p, start, so.passes).status == Running {
        TurnKeepsLog(p, start, capacity, Fanout.Run(capacity, before).log, so, turn);
      }
    }
  }

  lemma {:induction false} TurnKeepsLog(p: Plan, start: Job, capacity: pos, log: seq<Flashblock>, so: Live, turn: Turn)
    requires p.Valid() && RunLoop(p, start, so.passes).status == Running
    requires Fanout.Run(capacity, so.traffic).log == log + RunLoop(p, start, so.passes).job.published
    ensures var live := TakeTurn(p, start, capacity, so, turn);
            Fanout.Run(capacity, live.traffic).log == log + RunLoop(p, start, live.passes).job.published
  {
    var traffic := so.traffic + turn.served;
    var pass := Settle(turn.pass, capacity, traffic);
    ServedKeepsLog(capacity, so.traffic, turn.served);
    PassPublishes(p, start, so.passes, pass);
    TrafficNext(capacity, traffic, Fanout.Publish(MessageOf(p.block, RunLoop(p, start, so.passes).job, pass)));
  }

  // What has happened to the channel other than publishing.
  function Served(traffic: Traffic): Traffic {
    if traffic == [] then []
    else
      var last := traffic[|traffic| - 1];
      Served(traffic[..|traffic| - 1]) + (if last.Publish? then [] else [last])
  }

  lemma ServedNext(traffic: Traffic, event: Fanout.Event<Flashblock>)
    ensures Served(traffic + [event]) == Served(traffic) + (if event.Publish? then [] else [event])
  {
    assert (traffic + [event])[..|traffic|] == traffic;
  }

  lemma {:induction false} ServedAll(traffic: Traffic, served: seq<PeerEvent>)
    ensures Served(traffic + served) == Served(traffic) + served
  {
    if served == [] {
      assert traffic + served == traffic;
    } else {
      var earlier, last := served[..|served| - 1], served[|served| - 1];
      ServedAll(traffic, earlier);
      assert traffic + served == (traffic + earlier) + [last];
      ServedNext(traffic + earlier, last);
      assert Served(traffic) + served == (Served(traffic) + earlier) + [last];
    }
  }

  // What the turns of a job bring to the channel.
  function ServedBy(turns: seq<Turn>): Traffic {
    if turns == [] then [] else ServedBy(turns[..|turns| - 1]) + turns[|turns| - 1].served
  }

  // A job takes its turns in order until it breaks: each pass is the turn's,
  // but for what it finds of the receivers, and all that happens before it
  // happens to the channel.
  ghost predicate TakesTurns(before: Traffic, turns: seq<Turn>, live: Live) {
    && |live.passes| <= |turns|
    && (forall i :: 0 <= i < |live.passes| ==>
                      live.passes[i] == turns[i].pass.(receivers := live.passes[i].receivers))
    && Served(live.traffic) == Served(before) + ServedBy(turns[..|live.passes|])
  }

  lemma TurnServes(p: Plan, start: Job, capacity: pos, so: Live, turn: Turn)
    requires p.Valid()
    ensures var live := TakeTurn(p, start, capacity, so, turn);
            && Served(live.traffic) == Served(so.traffic) + turn.served
            && |live.passes| == |so.passes| + 1 && live.passes[..|so.passes|] == so.passes
            && live.passes[|so.passes|] == turn.pass.(receivers := live.passes[|so.passes|].receivers)
  {
    var live := TakeTurn(p, start, capacity, so, turn);
    ServedAll(so.traffic, turn.served);
    if live.traffic != so.traffic + turn.served {
      ServedNext(so.traffic + turn.served, live.traffic[|live.traffic| - 1]);
    }
  }

  lemma ServedByNext(earlier: seq<Turn>, turn: Turn)
    ensures ServedBy(earlier + [turn]) == ServedBy(earlier) + turn.served
  {
    assert (earlier + [turn])[..|earlier|] == earlier;
  }

  lemma TurnTaken(before: Traffic, earlier: seq<Turn>, turn: Turn, so: Live, live: Live)
    requires TakesTurns(before, earlier, so) && |so.passes| == |earlier|
    requires Served(live.traffic) == Served(so.traffic) + turn.served
    requires |live.passes| == |so.passes| + 1 && live.passes[..|so.passes|] == so.passes
    requires live.passes[|so.passes|] == turn.pass.(receivers := live.passes[|so.passes|].receivers)
    ensures TakesTurns(before, earlier + [turn], live)
  {
    var turns := earlier + [turn];
    ServedByNext(earlier, turn);
    assert turns[..|live.passes|] == turns && earlier[..|so.passes|] == earlier;
    forall i | 0 <= i < |live.passes|
      ensures live.passes[i] == turns[i].pass.(receivers := live.passes[i].receivers)
    {
      if i < |so.passes| {
        assert live.passes[i] == so.passes[i];
      }
    }
  }

  lemma TurnLeft(before: Traffic, earlier: seq<Turn>, turn: Turn, so: Live)
    requires TakesTurns(before, earlier, so)
    ensures TakesTurns(before, earlier + [turn], so)
  {
    assert (earlier + [turn])[..|so.passes|] == earlier[..|so.passes|];
  }

  lemma RunningTurn(p: Plan, start: Job, capacity: pos, before: Traffic, earlier: seq<Turn>, turn: Turn, so: Live)
    requires p.Valid() && TakesTurns(before, earlier, so) && |so.passes| == |earlier|
    ensures var live := TakeTurn(p, start, capacity, so, turn);
            TakesTurns(before, earlier + [turn], live) && |live.passes| == |earlier| + 1
  {
    TurnServes(p, start, capacity, so, turn);
    TurnTaken(before, earlier, turn, so, TakeTurn(p, start, capacity, so, turn));
  }

  lemma LiveRunNext(p: Plan, start: Job, capacity: pos, before: Traffic, earlier: seq<Turn>, turn: Turn)
    requires p.Valid()
    ensures var so := LiveRun(p, start, capacity, before, earlier);
            LiveRun(p, start, capacity, before, earlier + [turn])
            == if RunLoop(p, start, so.passes).status != Running then so else TakeTurn(p, start, capacity, so, turn)
  {
    assert (earlier + [turn])[..|earlier|] == earlier;
  }

  lemma {:induction false} LiveTakesTurns(p: Plan, start: Job, capacity: pos, before: Traffic, turns: seq<Turn>)
    requires p.Valid()
    ensures var live := LiveRun(p, start, capacity, before, turns);
            && TakesTurns(before, turns, live)
            && (RunLoop(p, start, live.passes).status == Running ==> |live.passes| == |turns|)
  {
    if turns == [] {
      assert Served(before) + [] == Served(before);
    } else {
      var earlier, turn := turns[..|turns| - 1], turns[|turns| - 1];
      var so := LiveRun(p, start, capacity, before, earlier);
      assert turns == earlier + [turn];
      LiveTakesTurns(p, start, capacity, before, earlier);
      LiveRunNext(p, start, capacity, before, earlier, turn);
      if RunLoop(p, start, so.passes).status == Running {
        RunningTurn(p, start, capacity, before, earlier, turn, so);
      } else {
        TurnLeft(before, earlier, turn, so);
      }
    }
  }

  // The publisher object driven through such a job: its sink is the sending
  // side of the channel, so what it has logged is what the channel holds.
  method RunJobOnChannel(publisher: Publisher.PublishFlashblock, p: Plan, startedAt: Times.Instant,
                         prologue: seq<Draft>, lead: nat, capacity: pos, before: Traffic, turns: seq<Turn>)
    returns (payload: History, used: nat, status: Status)
    requires p.Valid() && publisher.sink.log == Fanout.Run(capacity, before).log
    modifies publisher`blockBase, publisher.sink, publisher.times
    ensures var start := StartJob(p.block, prologue, lead);
            var live := LiveRun(p, start, capacity, before, turns);
            && publisher.sink.log == Fanout.Run(capacity, live.traffic).log
            && payload == RunLoop(p, start, live.passes).job.history
            && status == RunLoop(p, start, live.passes).status
  {
    var live := LiveRun(p, StartJob(p.block, prologue, lead), capacity, before, turns);
    payload, used, status := Publisher.RunJob(publisher, p, startedAt, prologue, lead, live.passes);
    LogIsPublished(p, StartJob(p.block, prologue, lead), capacity, before, turns);
  }

  // --- What a subscriber can rebuild --------------------------------------

  // A stretch of the log.
  ghost predicate LoggedAt(log: seq<Flashblock>, published: seq<Flashblock>, from: nat) {
    from + |published| <= |log| && log[from..from + |published|] == published
  }

  lemma {:induction false} JobLoggedAt(p: Plan, start: Job, capacity: pos, before: Traffic, turns: seq<Turn>,
                                       after: Traffic)
    requires p.Valid() && start.published == []
    ensures var live := LiveRun(p, start, capacity, before, turns);
            LoggedAt(Fanout.Run(capacity, live.traffic + after).log, RunLoop(p, start, live.passes).job.published,
                     |Fanout.Run(capacity, before).log|)
  {
    var live := LiveRun(p, start, capacity, before, turns);
    LogIsPublished(p, start, capacity, before, turns);
    Fanout.LaterKeeps(capacity, live.traffic, after);
    SliceOfPrefix(Fanout.Run(capacity, before).log, RunLoop(p, start, live.passes).job.published,
                  Fanout.Run(capacity, live.traffic + after).log);
  }

  // Of a stretch of the log of which a part was delivered.
  lemma WindowDelivered<T>(log: seq<T>, lo: nat, hi: nat, delivered: seq<T>, rest: seq<T>,
                           from: nat, n: nat)
    requires lo <= hi <= |log| && delivered + rest == log[lo..hi]
    requires lo <= from && from + n <= lo + |delivered|
    ensures from + n <= |log| && delivered[from - lo..from - lo + n] == log[from..from + n]
  {
    assert |delivered + rest| == hi - lo;
    var got, logged := delivered[from - lo..from - lo + n], log[from..from + n];
    forall j | 0 <= j < n
      ensures got[j] == logged[j]
    {
      assert got[j] == (delivered + rest)[from - lo + j] == log[lo..hi][from - lo + j];
    }
    assert got == logged;
  }

  // Peer i joined no later than log position `from`, never read while more
  // than the capacity behind, and has received n messages from there on.
  ghost predicate KeptUp(capacity: pos, traffic: Traffic, i: nat, from: nat, n: nat) {
    var s := Fanout.Run(capacity, traffic);
    && i < |s.peers|
    && (forall t :: 0 <= t < |traffic| ==> !Fanout.LagsAt(capacity, traffic, i, t))
    && s.peers[i].joined <= from && from + n <= s.peers[i].joined + |s.peers[i].delivered|
  }

  // The n messages it received from that position on.
  function Received(capacity: pos, traffic: Traffic, i: nat, from: nat, n: nat): seq<Flashblock>
    requires KeptUp(capacity, traffic, i, from, n)
  {
    var peer := Fanout.Run(capacity, traffic).peers[i];
    peer.delivered[from - peer.joined..from - peer.joined + n]
  }

  // What a peer that never fell behind has received of a stretch of the log.
  lemma {:induction false} ReceivedInFull(capacity: pos, traffic: Traffic, i: nat,
                                          published: seq<Flashblock>, from: nat, k: nat)
    requires k <= |published| && KeptUp(capacity, traffic, i, from, k)
    requires LoggedAt(Fanout.Run(capacity, traffic).log, published, from)
    ensures Received(capacity, traffic, i, from, k) == published[..k]
  {
    var s := Fanout.Run(capacity, traffic);
    var peer := s.peers[i];
    Fanout.NothingSkipped(capacity, traffic, i);
    WindowDelivered(s.log, peer.joined, peer.cursor, peer.delivered, peer.unsent, from, k);
    assert s.log[from..from + k] == s.log[from..from + |published|][..k];
  }

  // What a subscriber gets of a job that runs on a channel with any past, with
  // connections and peers doing anything meanwhile and afterwards, messages
  // refused or not: if it joined before the job's first flashblock, never fell
  // behind by more than the capacity and has received k messages since, those
  // are the job's first k flashblocks.
  lemma {:induction false} ReceivedOfJob(p: Plan, start: Job, capacity: pos, before: Traffic, turns: seq<Turn>,
                                         after: Traffic, i: nat, k: nat)
    requires p.Valid() && start.published == []
    requires var live := LiveRun(p, start, capacity, before, turns);
             && k <= |RunLoop(p, start, live.passes).job.published|
             && KeptUp(capacity, live.traffic + after, i, |Fanout.Run(capacity, before).log|, k)
    ensures var live := LiveRun(p, start, capacity, before, turns);
            Received(capacity, live.traffic + after, i, |Fanout.Run(capacity, before).log|, k)
            == RunLoop(p, start, live.passes).job.published[..k]
  {
    var live := LiveRun(p, start, capacity, before, turns);
    JobLoggedAt(p, start, capacity, before, turns, after);
    ReceivedInFull(capacity, live.traffic + after, i, RunLoop(p, start, live.passes).job.published,
                   |Fanout.Run(capacity, before).log|, k);
  }

  // So it can rebuild exactly the block the k-th was sealed from, by
  // concatenating their diffs.
  lemma {:induction false} SubscriberRebuildsBlock(
      p: Plan, prologue: seq<Draft>, lead: nat, capacity: pos, before: Traffic, turns: seq<Turn>, after: Traffic,
      i: nat, k: nat)
    requires p.Valid()
    requires var start := StartJob(p.block, prologue, lead);
             var live := LiveRun(p, start, capacity, before, turns);
             && 0 < k <= |RunLoop(p, start, live.passes).job.published|
             && KeptUp(capacity, live.traffic + after, i, |Fanout.Run(capacity, before).log|, k)
    ensures var start := StartJob(p.block, prologue, lead);
            var live := LiveRun(p, start, capacity, before, turns);
            Replayed(Received(capacity, live.traffic + after, i, |Fanout.Run(capacity, before).log|, k))
            == RunLoop(p, start, live.passes).job.published[k - 1].block.transactions
  {
    var start := StartJob(p.block, prologue, lead);
    ReceivedOfJob(p, start, capacity, before, turns, after, i, k);
    RunReplays(p, prologue, lead, LiveRun(p, start, capacity, before, turns).passes, k - 1);
  }

  lemma {:induction false} RunReplays(p: Plan, prologue: seq<Draft>, lead: nat, passes: seq<Iteration>, i: nat)
    requires p.Valid() && i < |RunLoop(p, StartJob(p.block, prologue, lead), passes).job.published|
    ensures var published := RunLoop(p, StartJob(p.block, prologue, lead), passes).job.published;
            Replayed(published[..i + 1]) == published[i].block.transactions
  {
    RunIsSteps(p, StartJob(p.block, prologue, lead), passes);
    var used := RunLoop(p, StartJob(p.block, prologue, lead), passes).used;
    Replay(p.block, prologue, lead, EventsOf(passes[..used]), i);
  }

  // And for a job that the stop step has ended, having received all of it, the
  // finished payload.
  lemma {:induction false} SubscriberHoldsPayload(
      p: Plan, prologue: seq<Draft>, lead: nat, capacity: pos, before: Traffic, turns: seq<Turn>, after: Traffic,
      i: nat)
    requires p.Valid() && 1 <= p.Slots()
    requires var start := StartJob(p.block, prologue, lead);
             var live := LiveRun(p, start, capacity, before, turns);
             var run := RunLoop(p, start, live.passes);
             && run.status == Stopped
             && KeptUp(capacity, live.traffic + after, i, |Fanout.Run(capacity, before).log|, |run.job.published|)
    ensures var start := StartJob(p.block, prologue, lead);
            var live := LiveRun(p, start, capacity, before, turns);
            var job := RunLoop(p, start, live.passes).job;
            Replayed(Received(capacity, live.traffic + after, i, |Fanout.Run(capacity, before).log|, |job.published|))
            == Transactions(job.history)
  {
    var start := StartJob(p.block, prologue, lead);
    var live := LiveRun(p, start, capacity, before, turns);
    var published := RunLoop(p, start, live.passes).job.published;
    ReceivedOfJob(p, start, capacity, before, turns, after, i, |published|);
    assert published[..|published|] == published;
    StoppedIsComplete(p, prologue, lead, live.passes);
  }

  lemma {:induction false} StoppedIsComplete(p: Plan, prologue: seq<Draft>, lead: nat, passes: seq<Iteration>)
    requires p.Valid() && 1 <= p.Slots()
    requires RunLoop(p, StartJob(p.block, prologue, lead), passes).status == Stopped
    ensures var job := RunLoop(p, StartJob(p.block, prologue, lead), passes).job;
            Replayed(job.published) == Transactions(job.history)
  {
    StoppedJobIsComplete(p, prologue, lead, passes);
  }

  // --- No refusals before shutdown ----------------------------------------

  ghost predicate NoShutdown(traffic: Traffic) {
    forall t :: 0 <= t < |traffic| ==> !traffic[t].Shutdown?
  }

  // No shutdown is signalled and every message serialises.
  ghost predicate Untroubled(before: Traffic, turns: seq<Turn>) {
    && NoShutdown(before)
    && forall i :: 0 <= i < |turns| ==> NoShutdown(turns[i].served) && turns[i].pass.serialises
  }

  ghost predicate NoneRefused(live: Live) {
    && NoShutdown(live.traffic)
    && forall i :: 0 <= i < |live.passes| ==> live.passes[i].Outcome() != SendFailed
  }

  lemma SettledIsAccepted(capacity: pos, traffic: Traffic, turn: Turn)
    requires NoShutdown(traffic) && NoShutdown(turn.served) && turn.pass.serialises
    ensures Settle(turn.pass, capacity, traffic + turn.served).Outcome() != SendFailed
  {
    Fanout.NoRefusalBeforeShutdown(capacity, traffic + turn.served);
  }

  lemma TurnNotRefused(p: Plan, start: Job, capacity: pos, so: Live, turn: Turn)
    requires p.Valid() && NoneRefused(so) && NoShutdown(turn.served) && turn.pass.serialises
    ensures NoneRefused(TakeTurn(p, start, capacity, so, turn))
  {
    SettledIsAccepted(capacity, so.traffic, turn);
  }

  lemma {:induction false} NeverRefused(p: Plan, start: Job, capacity: pos, before: Traffic, turns: seq<Turn>)
    requires p.Valid() && Untroubled(before, turns)
    ensures NoneRefused(LiveRun(p, start, capacity, before, turns))
  {
    if turns != [] {
      var earlier, turn := turns[..|turns| - 1], turns[|turns| - 1];
      assert NoShutdown(turn.served) && turn.pass.serialises;
      NeverRefused(p, start, capacity, before, earlier);
      TurnNotRefused(p, start, capacity, LiveRun(p, start, capacity, before, earlier), turn);
    }
  }

  // As long as no shutdown has been signalled, whatever connections and peers
  // do, a job that the stop step ends takes exactly one pass per flashblock
  // and its first flashblock carries the base.
  lemma {:induction false} NoRefusalsNoLostBase(p: Plan, prologue: seq<Draft>, lead: nat, capacity: pos,
                                                before: Traffic, turns: seq<Turn>)
    requires p.Valid() && Untroubled(before, turns)
    ensures var start := StartJob(p.block, prologue, lead);
            var run := RunLoop(p, start, LiveRun(p, start, capacity, before, turns).passes);
            && (run.status == Stopped && 1 <= p.Slots() ==> run.used == p.Slots())
            && (run.job.published != [] ==> run.job.published[0].base == Some(BaseOf(p.block)))
  {
    var start := StartJob(p.block, prologue, lead);
    NeverRefused(p, start, capacity, before, turns);
    UnrefusedRun(p, prologue, lead, LiveRun(p, start, capacity, before, turns).passes);
  }

  lemma {:induction false} UnrefusedRun(p: Plan, prologue: seq<Draft>, lead: nat, passes: seq<Iteration>)
    requires p.Valid() && forall i :: 0 <= i < |passes| ==> passes[i].Outcome() != SendFailed
    ensures var run := RunLoop(p, StartJob(p.block, prologue, lead), passes);
            && (run.status == Stopped && 1 <= p.Slots() ==> run.used == p.Slots())
            && (run.job.published != [] ==> run.job.published[0].base == Some(BaseOf(p.block)))
  {
    var start := StartJob(p.block, prologue, lead);
    var run := RunLoop(p, start, passes);
    ExactCounts(p, prologue, lead, passes);
    NoneCounted(passes[..run.used]);
    RunIsSteps(p, start, passes);
    AttemptsOfPasses(passes[..run.used]);
    UnrefusedBase(p.block, prologue, lead, EventsOf(passes[..run.used]));
  }

  lemma {:induction false} UnrefusedBase(block: BlockContext, prologue: seq<Draft>, lead: nat, events: seq<Event>)
    requires forall k :: 0 <= k < |Attempts(events)| ==> Attempts(events)[k] == Sent
    ensures var published := Steps(block, StartJob(block, prologue, lead), events).published;
            published != [] ==> published[0].base == Some(BaseOf(block))
  {
    FirstFlashblockBase(block, prologue, lead, events);
    BaseTracksAttempts(block, prologue, lead, events);
  }

  lemma {:induction false} NoneCounted(passes: seq<Iteration>)
    requires forall i :: 0 <= i < |passes| ==> passes[i].Outcome() != SendFailed
    ensures CountOf(passes, SendFailed) == 0
  {
    if passes != [] {
      NoneCounted(passes[..|passes| - 1]);
    }
  }

  lemma {:induction false} AttemptsAppend(a: seq<Event>, b: seq<Event>)
    ensures Attempts(a + b) == Attempts(a) + Attempts(b)
  {
    if b == [] {
      assert a + b == a;
    } else {
      AttemptsAppend(a, b[..|b| - 1]);
      assert (a + b)[..|a + b| - 1] == a + b[..|b| - 1];
    }
  }

  lemma {:induction false} NoAttempts(events: seq<Event>)
    requires forall i :: 0 <= i < |events| ==> !events[i].Publish?
    ensures Attempts(events) == []
  {
    if events != [] {
      NoAttempts(events[..|events| - 1]);
    }
  }

  // If no pass is refused, every attempt of a run was accepted.
  lemma {:induction false} AttemptsOfPasses(passes: seq<Iteration>)
    requires forall i :: 0 <= i < |passes| ==> passes[i].Outcome() != SendFailed
    ensures forall k :: 0 <= k < |Attempts(EventsOf(passes))| ==> Attempts(EventsOf(passes))[k] == Sent
  {
    if passes != [] {
      var pass := passes[|passes| - 1];
      AttemptsOfPasses(passes[..|passes| - 1]);
      var quiet := [Enter] + pass.Rounds() + [Elapse(pass.building)] + pass.Signing() + [Elapse(pass.finishing)];
      var publish, trailing := [Publish(pass.Outcome())], [Elapse(pass.trailing)];
      assert pass.Events() == quiet + publish + trailing;
      NoAttempts(quiet);
      NoAttempts(trailing);
      AttemptsAppend(quiet + publish, trailing);
      AttemptsAppend(quiet, publish);
      AttemptsAppend(EventsOf(passes[..|passes| - 1]), pass.Events());
      assert Attempts(publish[..0]) == [];
    }
  }
}
