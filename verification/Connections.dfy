// How a connection lives and dies: what loses a peer, when the shutdown signal
// is out, and the loop that serves a peer (WebSocketSink in src/publish.rs).
module Connections {
  import opened Prelude
  import opened Fanout

  // --- What loses a peer --------------------------------------------------

  // A turn that ends the loop of a streaming peer: the signal noticed, a close
  // or an error heard, a write that fails, or a channel that is drained and
  // whose sender is gone. A peer that lags only skips.
  ghost predicate Loses<M>(peer: Peer<M>, turn: Turn<M>, capacity: pos)
    requires peer.cursor <= |turn.log|
  {
    match turn.choice
    case NoticeTerm => turn.term
    case HearPeer(closes) => closes
    case TakePayload(writes) =>
      if peer.cursor == |turn.log| then turn.dropped
      else |turn.log| <= peer.cursor + capacity && !writes
  }

  lemma TurnLosesIff<M>(peer: Peer<M>, turn: Turn<M>, capacity: pos)
    requires peer.cursor <= |turn.log|
    ensures TakeTurn(peer, turn, capacity).phase
            == if peer.phase == Streaming && Loses(peer, turn, capacity) then Gone else peer.phase
  {
  }

  // A lagging peer goes on with the oldest message the channel still has, and
  // misses exactly those before it.
  lemma LagSkipsToOldest<M>(peer: Peer<M>, turn: Turn<M>, capacity: pos)
    requires peer.phase == Streaming && turn.choice == TakePayload(true)
    requires peer.cursor + capacity < |turn.log|
    ensures var next := TakeTurn(TakeTurn(peer, turn, capacity), turn, capacity);
            && next.phase == Streaming
            && next.delivered == peer.delivered + [turn.log[|turn.log| - capacity]]
            && next.missed == peer.missed + (|turn.log| - capacity - peer.cursor)
            && next.cursor == |turn.log| - capacity + 1
  {
  }

  // The handshake of peer i ends, one way or the other, with this event.
  ghost predicate EndsHandshake<M>(s: System<M>, i: nat, event: Event<M>, ok: bool) {
    && i < |s.peers| && s.peers[i].phase == Handshaking
    && i == |s.peers| - 1 && event == HandshakeEnds(ok)
  }

  // The peer takes a turn it does not survive.
  ghost predicate EndsStream<M>(s: System<M>, capacity: pos, i: nat, event: Event<M>)
    requires CursorsInRange(s)
  {
    && i < |s.peers| && s.peers[i].phase == Streaming
    && event.PeerTurn? && event.peer == i
    && Loses(s.peers[i], Turn(s.log, s.term, s.dropped, event.choice), capacity)
  }

  ghost predicate LostAt<M>(capacity: pos, events: seq<Event<M>>, i: nat, k: nat)
    requires k < |events|
  {
    var s := Run(capacity, events[..k]);
    EndsHandshake(s, i, events[k], false) || EndsStream(s, capacity, i, events[k])
  }

  ghost predicate OpenedAt<M>(capacity: pos, events: seq<Event<M>>, i: nat, k: nat)
    requires k < |events|
  {
    EndsHandshake(Run(capacity, events[..k]), i, events[k], true)
  }

  ghost predicate EverLost<M>(capacity: pos, events: seq<Event<M>>, i: nat) {
    exists k :: 0 <= k < |events| && LostAt(capacity, events, i, k)
  }

  ghost predicate EverOpened<M>(capacity: pos, events: seq<Event<M>>, i: nat) {
    exists k :: 0 <= k < |events| && OpenedAt(capacity, events, i, k)
  }

  lemma EverNext<M>(capacity: pos, earlier: seq<Event<M>>, last: Event<M>, i: nat)
    ensures var s := Run(capacity, earlier);
            && (EverLost(capacity, earlier + [last], i)
                <==> (|| EverLost(capacity, earlier, i)
                      || EndsHandshake(s, i, last, false) || EndsStream(s, capacity, i, last)))
            && (EverOpened(capacity, earlier + [last], i)
                <==> EverOpened(capacity, earlier, i) || EndsHandshake(s, i, last, true))
  {
    var events, n := earlier + [last], |earlier|;
    assert events[..n] == earlier && events[n] == last;
    forall k | 0 <= k < n
      ensures LostAt(capacity, events, i, k) <==> LostAt(capacity, earlier, i, k)
      ensures OpenedAt(capacity, events, i, k) <==> OpenedAt(capacity, earlier, i, k)
    {
      assert events[..k] == earlier[..k];
    }
    if EverLost(capacity, earlier, i) {
      var k :| 0 <= k < n && LostAt(capacity, earlier, i, k);
      assert LostAt(capacity, events, i, k);
    }
    if EverOpened(capacity, earlier, i) {
      var k :| 0 <= k < n && OpenedAt(capacity, earlier, i, k);
      assert OpenedAt(capacity, events, i, k);
    }
    var s := Run(capacity, earlier);
    assert LostAt(capacity, events, i, n)
      <==> EndsHandshake(s, i, last, false) || EndsStream(s, capacity, i, last);
    assert OpenedAt(capacity, events, i, n) <==> EndsHandshake(s, i, last, true);
  }

  lemma PhaseNext<M>(s: System<M>, capacity: pos, event: Event<M>, i: nat)
    requires CursorsInRange(s) && i < |Step(s, capacity, event).peers|
    ensures Step(s, capacity, event).peers[i].phase
            == if |s.peers| <= i then Handshaking
               else if EndsHandshake(s, i, event, false) || EndsStream(s, capacity, i, event) then Gone
               else if EndsHandshake(s, i, event, true) then Streaming
               else s.peers[i].phase
  {
    if i < |s.peers| && event.PeerTurn? && event.peer == i {
      TurnLosesIff(s.peers[i], Turn(s.log, s.term, s.dropped, event.choice), capacity);
    }
  }

  lemma {:induction false} NotYetThere<M>(capacity: pos, events: seq<Event<M>>, i: nat)
    requires |Run(capacity, events).peers| <= i
    ensures !EverLost(capacity, events, i) && !EverOpened(capacity, events, i)
  {
    if events != [] {
      var earlier, last := events[..|events| - 1], events[|events| - 1];
      assert events == earlier + [last];
      RunAppend(capacity, earlier, last);
      StepLeaving(Run(capacity, earlier), capacity, last);
      NotYetThere(capacity, earlier, i);
      EverNext(capacity, earlier, last, i);
    }
  }

  // Over every interleaving, exactly when a peer is lost: its handshake failed,
  // or some turn of its loop noticed the signal, heard a close, failed to
  // write, or found the channel closed and drained. Until then it streams from
  // the end of its handshake on, whatever else it hears or finds.
  lemma {:induction false} PeerLostIff<M>(capacity: pos, events: seq<Event<M>>, i: nat)
    requires i < |Run(capacity, events).peers|
    ensures var phase := Run(capacity, events).peers[i].phase;
            && (phase == Gone <==> exists k :: 0 <= k < |events| && LostAt(capacity, events, i, k))
            && (phase == Streaming <==>
                  && (exists k :: 0 <= k < |events| && OpenedAt(capacity, events, i, k))
                  && (forall k :: 0 <= k < |events| ==> !LostAt(capacity, events, i, k)))
  {
    PhaseIff(capacity, events, i);
  }

  ghost predicate PhaseTells(phase: Phase, lost: bool, joined: bool) {
    phase == if lost then Gone else if joined then Streaming else Handshaking
  }

  lemma {:induction false} PhaseIff<M>(capacity: pos, events: seq<Event<M>>, i: nat)
    requires i < |Run(capacity, events).peers|
    ensures PhaseTells(Run(capacity, events).peers[i].phase, EverLost(capacity, events, i),
                       EverOpened(capacity, events, i))
  {
    var earlier, last := events[..|events| - 1], events[|events| - 1];
    assert events == earlier + [last];
    RunAppend(capacity, earlier, last);
    PhaseNext(Run(capacity, earlier), capacity, last, i);
    EverNext(capacity, earlier, last, i);
    if i < |Run(capacity, earlier).peers| {
      PhaseIff(capacity, earlier, i);
    } else {
      NotYetThere(capacity, earlier, i);
    }
  }

  // --- What is not delivered ----------------------------------------------

  // The peer takes a message and writing it fails.
  ghost predicate FailsWrite<M>(s: System<M>, capacity: pos, i: nat, event: Event<M>) {
    && i < |s.peers| && s.peers[i].phase == Streaming
    && event == PeerTurn(i, TakePayload(false))
    && s.peers[i].cursor < |s.log| <= s.peers[i].cursor + capacity
  }

  ghost predicate FailsAt<M>(capacity: pos, events: seq<Event<M>>, i: nat, k: nat)
    requires k < |events|
  {
    FailsWrite(Run(capacity, events[..k]), capacity, i, events[k])
  }

  ghost predicate EverFails<M>(capacity: pos, events: seq<Event<M>>, i: nat) {
    exists k :: 0 <= k < |events| && FailsAt(capacity, events, i, k)
  }

  // The message the peer failed to write at step k.
  function FailedMessage<M>(capacity: pos, events: seq<Event<M>>, i: nat, k: nat): M
    requires k < |events| && FailsAt(capacity, events, i, k)
  {
    var s := Run(capacity, events[..k]);
    s.log[s.peers[i].cursor]
  }

  lemma FailsNext<M>(capacity: pos, earlier: seq<Event<M>>, last: Event<M>, i: nat)
    ensures forall k :: 0 <= k < |earlier| ==>
                          (FailsAt(capacity, earlier + [last], i, k) <==> FailsAt(capacity, earlier, i, k))
    ensures forall k :: 0 <= k < |earlier| && FailsAt(capacity, earlier, i, k) ==>
                          FailedMessage(capacity, earlier + [last], i, k) == FailedMessage(capacity, earlier, i, k)
    ensures FailsAt(capacity, earlier + [last], i, |earlier|)
            <==> FailsWrite(Run(capacity, earlier), capacity, i, last)
    ensures EverFails(capacity, earlier + [last], i)
            <==> EverFails(capacity, earlier, i) || FailsWrite(Run(capacity, earlier), capacity, i, last)
  {
    var events, n := earlier + [last], |earlier|;
    assert events[..n] == earlier && events[n] == last;
    forall k | 0 <= k < n
      ensures events[..k] == earlier[..k] && events[k] == earlier[k]
    {
    }
    if EverFails(capacity, earlier, i) {
      var k :| 0 <= k < n && FailsAt(capacity, earlier, i, k);
      assert FailsAt(capacity, events, i, k);
    }
    if FailsWrite(Run(capacity, earlier), capacity, i, last) {
      assert FailsAt(capacity, events, i, n);
    }
  }

  lemma UnsentNext<M>(s: System<M>, capacity: pos, event: Event<M>, i: nat)
    requires CursorsInRange(s) && i < |Step(s, capacity, event).peers|
    ensures Step(s, capacity, event).peers[i].unsent
            == if |s.peers| <= i then []
               else if FailsWrite(s, capacity, i, event) then s.peers[i].unsent + [s.log[s.peers[i].cursor]]
               else s.peers[i].unsent
  {
  }

  lemma {:induction false} NeverThere<M>(capacity: pos, events: seq<Event<M>>, i: nat)
    requires |Run(capacity, events).peers| <= i
    ensures !EverFails(capacity, events, i)
  {
    if events != [] {
      var earlier, last := events[..|events| - 1], events[|events| - 1];
      assert events == earlier + [last];
      RunAppend(capacity, earlier, last);
      StepLeaving(Run(capacity, earlier), capacity, last);
      NeverThere(capacity, earlier, i);
      FailsNext(capacity, earlier, last, i);
    }
  }

  ghost predicate UnsentTells<M>(capacity: pos, events: seq<Event<M>>, i: nat, unsent: seq<M>) {
    && (unsent != [] <==> EverFails(capacity, events, i))
    && forall k :: 0 <= k < |events| && FailsAt(capacity, events, i, k) ==>
                     unsent == [FailedMessage(capacity, events, i, k)]
  }

  lemma UnsentTellsNext<M>(capacity: pos, earlier: seq<Event<M>>, last: Event<M>, i: nat, unsent: seq<M>)
    requires UnsentTells(capacity, earlier, i, unsent)
    requires FailsWrite(Run(capacity, earlier), capacity, i, last) ==> unsent == []
    ensures var s := Run(capacity, earlier);
            UnsentTells(capacity, earlier + [last], i,
                        if FailsWrite(s, capacity, i, last) then [s.log[s.peers[i].cursor]] else unsent)
  {
    FailsNext(capacity, earlier, last, i);
    assert (earlier + [last])[..|earlier|] == earlier;
    forall k | 0 <= k < |earlier| && FailsAt(capacity, earlier + [last], i, k)
      ensures unsent == [FailedMessage(capacity, earlier + [last], i, k)]
      ensures !FailsWrite(Run(capacity, earlier), capacity, i, last)
    {
      assert FailsAt(capacity, earlier, i, k);
    }
  }

  // A message is not delivered exactly if writing it failed, and then it is the
  // one that was taken; every other message a peer takes it delivers.
  lemma {:induction false} UnsentIff<M>(capacity: pos, events: seq<Event<M>>, i: nat)
    requires i < |Run(capacity, events).peers|
    ensures var unsent := Run(capacity, events).peers[i].unsent;
            && (unsent != [] <==> exists k :: 0 <= k < |events| && FailsAt(capacity, events, i, k))
            && (forall k :: 0 <= k < |events| && FailsAt(capacity, events, i, k) ==>
                              unsent == [FailedMessage(capacity, events, i, k)])
  {
    UnsentHolds(capacity, events, i);
  }

  lemma {:induction false} UnsentHolds<M>(capacity: pos, events: seq<Event<M>>, i: nat)
    requires i < |Run(capacity, events).peers|
    ensures UnsentTells(capacity, events, i, Run(capacity, events).peers[i].unsent)
  {
    var earlier, last := events[..|events| - 1], events[|events| - 1];
    assert events == earlier + [last];
    RunAppend(capacity, earlier, last);
    UnsentNext(Run(capacity, earlier), capacity, last, i);
    if i < |Run(capacity, earlier).peers| {
      UnsentHolds(capacity, earlier, i);
      RunSound(capacity, earlier);
      assert PeerSound(Run(capacity, earlier).log, Run(capacity, earlier).peers[i]);
      UnsentTellsNext(capacity, earlier, last, i, Run(capacity, earlier).peers[i].unsent);
    } else {
      NeverThere(capacity, earlier, i);
      UnsentTellsNext(capacity, earlier, last, i, []);
    }
  }

  // --- The signal and the listener ----------------------------------------

  // The listener stops at this step.
  ghost predicate StopsAt<M>(capacity: pos, events: seq<Event<M>>, k: nat)
    requires k < |events|
  {
    var s := Run(capacity, events[..k]);
    events[k].ListenerStops? && s.term && !InHandshake(s)
  }

  ghost predicate EverStops<M>(capacity: pos, events: seq<Event<M>>) {
    exists k :: 0 <= k < |events| && StopsAt(capacity, events, k)
  }

  lemma StopsNext<M>(capacity: pos, earlier: seq<Event<M>>, last: Event<M>)
    ensures EverStops(capacity, earlier + [last])
            <==> EverStops(capacity, earlier)
                 || (last.ListenerStops? && Run(capacity, earlier).term && !InHandshake(Run(capacity, earlier)))
  {
    var events, n := earlier + [last], |earlier|;
    assert events[..n] == earlier && events[n] == last;
    forall k | 0 <= k < n
      ensures StopsAt(capacity, events, k) <==> StopsAt(capacity, earlier, k)
    {
      assert events[..k] == earlier[..k];
    }
    if EverStops(capacity, earlier) {
      var k :| 0 <= k < n && StopsAt(capacity, earlier, k);
      assert StopsAt(capacity, events, k);
    }
    assert StopsAt(capacity, events, n)
      <==> last.ListenerStops? && Run(capacity, earlier).term && !InHandshake(Run(capacity, earlier));
  }

  ghost predicate EverGiven<M>(events: seq<Event<M>>) {
    exists k :: 0 <= k < |events| && events[k].Shutdown?
  }

  ghost predicate EverDropped<M>(events: seq<Event<M>>) {
    exists k :: 0 <= k < |events| && events[k] == Shutdown(true)
  }

  lemma GivenNext<M>(earlier: seq<Event<M>>, last: Event<M>)
    ensures EverGiven(earlier + [last]) <==> EverGiven(earlier) || last.Shutdown?
    ensures EverDropped(earlier + [last]) <==> EverDropped(earlier) || last == Shutdown(true)
  {
    var events := earlier + [last];
    assert events[|earlier|] == last;
    if EverGiven(earlier) {
      var k :| 0 <= k < |earlier| && earlier[k].Shutdown?;
      assert events[k].Shutdown?;
    }
    if EverDropped(earlier) {
      var k :| 0 <= k < |earlier| && earlier[k] == Shutdown(true);
      assert events[k] == Shutdown(true);
    }
  }

  lemma SignalStep<M>(s: System<M>, capacity: pos, event: Event<M>)
    requires CursorsInRange(s)
    ensures var s' := Step(s, capacity, event);
            && s'.term == (s.term || event.Shutdown?)
            && s'.dropped == (s.dropped || event == Shutdown(true))
            && s'.listening == (s.listening && !(event.ListenerStops? && s.term && !InHandshake(s)))
            && (!s.listening ==> |s'.peers| == |s.peers|)
  {
  }

  lemma {:induction false} SignalsHold<M>(capacity: pos, events: seq<Event<M>>)
    ensures var s := Run(capacity, events);
            && s.term == EverGiven(events) && s.dropped == EverDropped(events)
            && s.listening == !EverStops(capacity, events)
  {
    if events != [] {
      var earlier, last := events[..|events| - 1], events[|events| - 1];
      assert events == earlier + [last];
      SignalsHold(capacity, earlier);
      RunAppend(capacity, earlier, last);
      SignalStep(Run(capacity, earlier), capacity, last);
      GivenNext(earlier, last);
      StopsNext(capacity, earlier, last);
    }
  }

  // The signal is out exactly once it was given, the sender is gone exactly if
  // a shutdown dropped it, and the listener runs exactly until it notices the
  // signal outside a handshake.
  lemma SignalsIff<M>(capacity: pos, events: seq<Event<M>>)
    ensures var s := Run(capacity, events);
            && (s.term <==> exists k :: 0 <= k < |events| && events[k].Shutdown?)
            && (s.dropped <==> exists k :: 0 <= k < |events| && events[k] == Shutdown(true))
            && (s.listening <==> !exists k :: 0 <= k < |events| && StopsAt(capacity, events, k))
  {
    SignalsHold(capacity, events);
  }

  // A listener that has stopped takes no more connections.
  lemma {:induction false} StoppedTakesNoMore<M>(capacity: pos, events: seq<Event<M>>, more: seq<Event<M>>)
    requires !Run(capacity, events).listening
    ensures !Run(capacity, events + more).listening
    ensures |Run(capacity, events + more).peers| == |Run(capacity, events).peers|
  {
    if more == [] {
      assert events + more == events;
    } else {
      var earlier, last := more[..|more| - 1], more[|more| - 1];
      assert events + more == (events + earlier) + [last];
      StoppedTakesNoMore(capacity, events, earlier);
      RunAppend(capacity, events + earlier, last);
      SignalStep(Run(capacity, events + earlier), capacity, last);
    }
  }

  // --- The broadcast loop -------------------------------------------------

  // The receiving half of the channel.
  class Receiver<M> {
    var cursor: nat

    constructor (tail: nat)
      ensures cursor == tail
    {
      cursor := tail;
    }

    method Receive(log: seq<M>, capacity: pos, dropped: bool) returns (r: RecvResult<M>)
      requires cursor <= |log|
      modifies this
      ensures (r, cursor) == Recv(log, capacity, dropped, old(cursor))
    {
      var behind := |log| - cursor;
      if capacity < behind {
        r := Lagged(behind - capacity);
        cursor := cursor + (behind - capacity);
      } else if 0 < behind {
        r := Message(log[cursor]);
        cursor := cursor + 1;
      } else if dropped {
        r := Closed;
      } else {
        r := Pending;
      }
    }
  }

  ghost predicate LogGrows<M>(turns: seq<Turn<M>>, from: nat) {
    && (forall k :: 0 <= k < |turns| ==> from <= |turns[k].log|)
    && (forall j, k :: 0 <= j <= k < |turns| ==> turns[j].log <= turns[k].log)
  }

  function TakeTurns<M>(peer: Peer<M>, turns: seq<Turn<M>>, capacity: pos): (r: Peer<M>)
    requires LogGrows(turns, peer.cursor)
    ensures turns == [] ==> r == peer
    ensures turns != [] ==> r.cursor <= |turns[|turns| - 1].log|
  {
    if turns == [] then peer
    else
      var earlier, last := turns[..|turns| - 1], turns[|turns| - 1];
      var before := TakeTurns(peer, earlier, capacity);
      assert earlier != [] ==> earlier[|earlier| - 1].log <= last.log;
      TakeTurn(before, last, capacity)
  }

  // One turn of the loop a peer's task runs.
  method BroadcastTurn<M>(blocks: Receiver<M>, capacity: pos, turn: Turn<M>, ghost peer: Peer<M>)
    returns (got: seq<M>, lost: seq<M>, missed: nat, streaming: bool)
    requires blocks.cursor == peer.cursor <= |turn.log| && peer.phase == Streaming
    modifies blocks
    ensures TakeTurn(peer, turn, capacity)
            == peer.(cursor := blocks.cursor, delivered := peer.delivered + got, unsent := peer.unsent + lost,
                     missed := peer.missed + missed, phase := if streaming then Streaming else Gone)
  {
    got, lost, missed, streaming := [], [], 0, true;
    match turn.choice {
      case NoticeTerm => streaming := !turn.term;
      case HearPeer(closes) => streaming := !closes;
      case TakePayload(writes) =>
        var payload := blocks.Receive(turn.log, capacity, turn.dropped);
        match payload {
          case Message(m) =>
            if writes {
              got := [m];
            } else {
              lost, streaming := [m], false;
            }
          case Lagged(n) => missed := n;
          case Closed => streaming := false;
          case Pending =>
        }
    }
    assert peer.delivered + [] == peer.delivered && peer.unsent + [] == peer.unsent;
  }

  // A peer whose receiver has just been made.
  function NewPeer<M>(joined: nat): Peer<M> {
    Peer(joined, joined, [], [], 0, Streaming)
  }

  // Turn k is the one that loses the peer.
  ghost predicate LosesAt<M>(peer: Peer<M>, turns: seq<Turn<M>>, k: nat, capacity: pos)
    requires LogGrows(turns, peer.cursor) && k < |turns|
  {
    CursorFollows(peer, turns, k, capacity);
    var before := TakeTurns(peer, turns[..k], capacity);
    before.phase == Streaming && Loses(before, turns[k], capacity)
  }

  lemma CursorFollows<M>(peer: Peer<M>, turns: seq<Turn<M>>, k: nat, capacity: pos)
    requires LogGrows(turns, peer.cursor) && k < |turns|
    ensures LogGrows(turns[..k], peer.cursor)
    ensures TakeTurns(peer, turns[..k], capacity).cursor <= |turns[k].log|
  {
    assert 0 < k ==> turns[k - 1].log <= turns[k].log;
  }

  ghost predicate EverLoses<M>(peer: Peer<M>, turns: seq<Turn<M>>, capacity: pos)
    requires LogGrows(turns, peer.cursor)
  {
    exists k :: 0 <= k < |turns| && LosesAt(peer, turns, k, capacity)
  }

  lemma EverLosesNext<M>(peer: Peer<M>, turns: seq<Turn<M>>, n: nat, capacity: pos)
    requires LogGrows(turns, peer.cursor) && |turns| == n + 1
    ensures EverLoses(peer, turns, capacity)
            <==> EverLoses(peer, turns[..n], capacity) || LosesAt(peer, turns, n, capacity)
  {
    forall k | 0 <= k < n
      ensures LosesAt(peer, turns, k, capacity) <==> LosesAt(peer, turns[..n], k, capacity)
    {
      assert turns[..n][..k] == turns[..k];
    }
    if EverLoses(peer, turns[..n], capacity) {
      var k :| 0 <= k < n && LosesAt(peer, turns[..n], k, capacity);
      assert LosesAt(peer, turns, k, capacity);
    }
  }

  lemma {:induction false} LostIff<M>(peer: Peer<M>, turns: seq<Turn<M>>, capacity: pos)
    requires LogGrows(turns, peer.cursor) && peer.phase == Streaming
    ensures TakeTurns(peer, turns, capacity).phase == if EverLoses(peer, turns, capacity) then Gone else Streaming
  {
    if turns != [] {
      var n := |turns| - 1;
      LostIff(peer, turns[..n], capacity);
      EverLosesNext(peer, turns, n, capacity);
      CursorFollows(peer, turns, n, capacity);
      TurnLosesIff(TakeTurns(peer, turns[..n], capacity), turns[n], capacity);
    }
  }

  lemma {:induction false} TurnsSound<M>(joined: nat, turns: seq<Turn<M>>, capacity: pos)
    requires LogGrows(turns, joined) && turns != []
    ensures PeerSound(turns[|turns| - 1].log, TakeTurns(NewPeer(joined), turns, capacity))
  {
    var earlier, last := turns[..|turns| - 1], turns[|turns| - 1];
    var before := TakeTurns(NewPeer(joined), earlier, capacity);
    if earlier == [] {
      var none: seq<M> := [];
      assert Draws([], none, last.log, joined, joined);
      assert none + none == none;
    } else {
      TurnsSound(joined, earlier, capacity);
      assert earlier[|earlier| - 1].log <= last.log;
      DrawnLonger(before.delivered + before.unsent, earlier[|earlier| - 1].log, before.joined, before.cursor,
                  last.log, before.cursor);
    }
    TurnKeeps(before, last, capacity);
  }

  // The loop, fed with what its select finds; it ends as soon as a turn loses
  // the peer.
  method BroadcastLoop<M>(blocks: Receiver<M>, capacity: pos, turns: seq<Turn<M>>)
    returns (delivered: seq<M>, unsent: seq<M>, missed: nat, streaming: bool)
    requires LogGrows(turns, blocks.cursor)
    modifies blocks
    ensures Peer(old(blocks.cursor), blocks.cursor, delivered, unsent, missed, if streaming then Streaming else Gone)
            == TakeTurns(NewPeer(old(blocks.cursor)), turns, capacity)
    ensures streaming <==> forall k :: 0 <= k < |turns| ==> !LosesAt(NewPeer(old(blocks.cursor)), turns, k, capacity)
    ensures turns != [] ==>
              PeerSound(turns[|turns| - 1].log, Peer(old(blocks.cursor), blocks.cursor, delivered, unsent, missed,
                                                     if streaming then Streaming else Gone))
  {
    ghost var joined := blocks.cursor;
    ghost var start: Peer<M> := NewPeer(joined);
    ghost var peer := start;
    delivered, unsent, missed, streaming := [], [], 0, true;
    var k := 0;
    assert turns[..0] == [];
    while streaming && k < |turns|
      invariant k <= |turns|
      invariant peer == Peer(joined, blocks.cursor, delivered, unsent, missed, if streaming then Streaming else Gone)
      invariant TakeTurns(start, turns[..k], capacity) == peer
      decreases |turns| - k
    {
      NextTurn(start, turns, k, capacity);
      var got, lost, more;
      got, lost, more, streaming := BroadcastTurn(blocks, capacity, turns[k], peer);
      peer := TakeTurn(peer, turns[k], capacity);
      delivered, unsent, missed := delivered + got, unsent + lost, missed + more;
      k := k + 1;
    }
    GoneStays(start, turns, k, capacity);
    assert turns[..|turns|] == turns;
    LostIff(start, turns, capacity);
    if turns != [] {
      TurnsSound(joined, turns, capacity);
    }
  }

  lemma {:induction false} NextTurn<M>(peer: Peer<M>, turns: seq<Turn<M>>, k: nat, capacity: pos)
    requires LogGrows(turns, peer.cursor) && k < |turns|
    ensures TakeTurns(peer, turns[..k], capacity).cursor <= |turns[k].log|
    ensures TakeTurns(peer, turns[..k + 1], capacity)
            == TakeTurn(TakeTurns(peer, turns[..k], capacity), turns[k], capacity)
  {
    assert turns[..k + 1][..k] == turns[..k];
    assert 0 < k ==> turns[k - 1].log <= turns[k].log;
  }

  lemma {:induction false} GoneStays<M>(peer: Peer<M>, turns: seq<Turn<M>>, k: nat, capacity: pos)
    requires LogGrows(turns, peer.cursor) && k <= |turns|
    requires k < |turns| ==> TakeTurns(peer, turns[..k], capacity).phase == Gone
    ensures TakeTurns(peer, turns, capacity) == TakeTurns(peer, turns[..k], capacity)
  {
    if k == |turns| {
      assert turns[..k] == turns;
    } else {
      var earlier := turns[..|turns| - 1];
      assert earlier[..k] == turns[..k];
      GoneStays(peer, earlier, k, capacity);
    }
  }
}
