// Fan-out of published messages to websocket subscribers: the broadcast
// channel, the listener loop and one broadcast loop per peer (WebSocketSink in
// src/publish.rs), as a step protocol over one append-only log.
//
// The channel keeps the last `capacity` messages. A receiver that has fallen
// further behind skips to the oldest message kept and learns how many it lost.
module Fanout {
  import opened Prelude

  // --- One receiver -------------------------------------------------------

  datatype Phase = Handshaking | Streaming | Gone

  // A subscriber. `joined` is the length of the log when its receiver was
  // made, `cursor` the next message it takes; `unsent` holds the message whose
  // write failed, if that is how the peer was lost.
  datatype Peer<M> = Peer(
    joined: nat,
    cursor: nat,
    delivered: seq<M>,
    unsent: seq<M>,
    missed: nat,
    phase: Phase)

  datatype RecvResult<M> = Message(m: M) | Lagged(lost: nat) | Closed | Pending

  // What the select of the broadcast loop finds ready.
  datatype Choice = NoticeTerm | TakePayload(writes: bool) | HearPeer(closes: bool)

  // The shared state as a peer sees it when it takes a turn.
  datatype Turn<M> = Turn(log: seq<M>, term: bool, dropped: bool, choice: Choice)

  function Recv<M>(log: seq<M>, capacity: pos, dropped: bool, cursor: nat): (RecvResult<M>, nat)
    requires cursor <= |log|
  {
    if capacity < |log| - cursor then (Lagged(|log| - cursor - capacity), |log| - capacity)
    else if cursor < |log| then (Message(log[cursor]), cursor + 1)
    else if dropped then (Closed, cursor)
    else (Pending, cursor)
  }

  // One turn of the broadcast loop.
  function TakeTurn<M>(peer: Peer<M>, turn: Turn<M>, capacity: pos): Peer<M>
    requires peer.cursor <= |turn.log|
  {
    if peer.phase != Streaming then peer
    else
      match turn.choice
      case NoticeTerm => if turn.term then peer.(phase := Gone) else peer
      case HearPeer(closes) => if closes then peer.(phase := Gone) else peer
      case TakePayload(writes) =>
        var (result, cursor) := Recv(turn.log, capacity, turn.dropped, peer.cursor);
        var moved := peer.(cursor := cursor);
        match result
        case Message(m) =>
          if writes then moved.(delivered := peer.delivered + [m])
          else moved.(unsent := peer.unsent + [m], phase := Gone)
        case Lagged(lost) => moved.(missed := peer.missed + lost)
        case Closed => moved.(phase := Gone)
        case Pending => moved
  }

  // --- The system ---------------------------------------------------------

  datatype System<M> = System(log: seq<M>, peers: seq<Peer<M>>, listening: bool, term: bool, dropped: bool)

  // Publishing a message; a connection being accepted (its receiver is made
  // before the handshake); the handshake ending; a peer taking a turn; the
  // shutdown signal, with or without the sender being dropped; the listener
  // noticing it.
  datatype Event<M> =
    | Publish(m: M)
    | Accept
    | HandshakeEnds(ok: bool)
    | PeerTurn(peer: nat, choice: Choice)
    | Shutdown(drops: bool)
    | ListenerStops

  function InitialSystem<M>(): System<M> {
    System([], [], true, false, false)
  }

  function LivePeers<M>(peers: seq<Peer<M>>): nat {
    if peers == [] then 0
    else LivePeers(peers[..|peers| - 1]) + (if peers[|peers| - 1].phase == Gone then 0 else 1)
  }

  // Receivers of the channel: the listener's own and one per live peer.
  function Receivers<M>(s: System<M>): nat {
    (if s.listening then 1 else 0) + LivePeers(s.peers)
  }

  predicate Accepts<M>(s: System<M>) {
    !s.dropped && 0 < Receivers(s)
  }

  // The listener waits for a handshake before it takes the next connection or
  // notices the shutdown signal.
  predicate InHandshake<M>(s: System<M>) {
    s.peers != [] && s.peers[|s.peers| - 1].phase == Handshaking
  }

  ghost predicate CursorsInRange<M>(s: System<M>) {
    forall i :: 0 <= i < |s.peers| ==> s.peers[i].cursor <= |s.log|
  }

  function Step<M>(s: System<M>, capacity: pos, event: Event<M>): System<M>
    requires CursorsInRange(s)
  {
    match event
    case Publish(m) => if Accepts(s) then s.(log := s.log + [m]) else s
    case Accept =>
      if s.listening && !InHandshake(s)
      then s.(peers := s.peers + [Peer(|s.log|, |s.log|, [], [], 0, Handshaking)])
      else s
    case HandshakeEnds(ok) =>
      if InHandshake(s)
      then s.(peers := s.peers[|s.peers| - 1 := s.peers[|s.peers| - 1].(phase := if ok then Streaming else Gone)])
      else s
    case PeerTurn(i, choice) =>
      if i < |s.peers|
      then s.(peers := s.peers[i := TakeTurn(s.peers[i], Turn(s.log, s.term, s.dropped, choice), capacity)])
      else s
    case Shutdown(drops) => s.(term := true, dropped := s.dropped || drops)
    case ListenerStops => if s.listening && s.term && !InHandshake(s) then s.(listening := false) else s
  }

  function Run<M>(capacity: pos, events: seq<Event<M>>): (s: System<M>)
    ensures CursorsInRange(s)
  {
    if events == [] then InitialSystem()
    else
      var before := Run(capacity, events[..|events| - 1]);
      Step(before, capacity, events[|events| - 1])
  }

  lemma {:induction false} RunAppend<M>(capacity: pos, events: seq<Event<M>>, event: Event<M>)
    ensures Run(capacity, events + [event]) == Step(Run(capacity, events), capacity, event)
  {
    assert (events + [event])[..|events|] == events;
  }

  // --- What every step keeps ----------------------------------------------

  // ps are the log positions, in order and without repeats, from which d was
  // taken.
  ghost predicate Draws<M>(ps: seq<nat>, d: seq<M>, log: seq<M>, from: nat, to: nat) {
    && |ps| == |d| && to <= |log|
    && (forall i, j :: 0 <= i < j < |ps| ==> ps[i] < ps[j])
    && (forall i :: 0 <= i < |ps| ==> from <= ps[i] < to && d[i] == log[ps[i]])
  }

  ghost predicate Drawn<M>(d: seq<M>, log: seq<M>, from: nat, to: nat) {
    exists ps :: Draws(ps, d, log, from, to)
  }

  // Everything the receiver took was delivered, missed or the one message
  // whose write failed.
  ghost predicate PeerSound<M>(log: seq<M>, peer: Peer<M>) {
    && peer.joined <= peer.cursor <= |log|
    && |peer.delivered| + |peer.unsent| + peer.missed == peer.cursor - peer.joined
    && |peer.unsent| <= 1 && (peer.unsent != [] ==> peer.phase == Gone)
    && Drawn(peer.delivered + peer.unsent, log, peer.joined, peer.cursor)
  }

  lemma DrawnLonger<M>(d: seq<M>, log: seq<M>, from: nat, to: nat, log': seq<M>, to': nat)
    requires Drawn(d, log, from, to) && log <= log' && to <= to' <= |log'|
    ensures Drawn(d, log', from, to')
  {
    var ps :| Draws(ps, d, log, from, to);
    assert Draws(ps, d, log', from, to');
  }

  lemma DrawnNext<M>(d: seq<M>, log: seq<M>, from: nat, to: nat)
    requires Drawn(d, log, from, to) && from <= to < |log|
    ensures Drawn(d + [log[to]], log, from, to + 1)
  {
    var ps :| Draws(ps, d, log, from, to);
    assert Draws(ps + [to], d + [log[to]], log, from, to + 1);
  }

  lemma TurnKeeps<M>(peer: Peer<M>, turn: Turn<M>, capacity: pos)
    requires PeerSound(turn.log, peer)
    ensures PeerSound(turn.log, TakeTurn(peer, turn, capacity))
    ensures TakeTurn(peer, turn, capacity).joined == peer.joined
  {
    var peer' := TakeTurn(peer, turn, capacity);
    if peer'.cursor != peer.cursor {
      assert peer.unsent == [] && peer.delivered + [] == peer.delivered;
      if peer'.missed != peer.missed {
        DrawnLonger(peer.delivered, turn.log, peer.joined, peer.cursor, turn.log, peer'.cursor);
      } else {
        DrawnNext(peer.delivered, turn.log, peer.joined, peer.cursor);
        assert peer'.delivered + peer'.unsent == peer.delivered + [turn.log[peer.cursor]];
      }
    }
  }

  // A new peer starts at the end of the log with nothing delivered.
  lemma NewPeerSound<M>(log: seq<M>)
    ensures PeerSound(log, Peer(|log|, |log|, [], [], 0, Handshaking))
  {
    var none: seq<M> := [];
    assert Draws([], none, log, |log|, |log|);
    assert none + none == none;
  }

  ghost predicate AllSound<M>(s: System<M>) {
    forall i :: 0 <= i < |s.peers| ==> PeerSound(s.log, s.peers[i])
  }

  lemma StepKeepsPeer<M>(s: System<M>, capacity: pos, event: Event<M>, i: nat)
    requires CursorsInRange(s) && i < |s.peers| && PeerSound(s.log, s.peers[i])
    ensures var s' := Step(s, capacity, event);
            i < |s'.peers| && PeerSound(s'.log, s'.peers[i]) && s'.peers[i].joined == s.peers[i].joined
  {
    var s', peer := Step(s, capacity, event), s.peers[i];
    if event.PeerTurn? && event.peer == i {
      TurnKeeps(peer, Turn(s.log, s.term, s.dropped, event.choice), capacity);
    } else {
      DrawnLonger(peer.delivered + peer.unsent, s.log, peer.joined, peer.cursor, s'.log, peer.cursor);
    }
  }

  lemma StepGrows<M>(s: System<M>, capacity: pos, event: Event<M>)
    requires CursorsInRange(s)
    ensures var s' := Step(s, capacity, event);
            && s.log <= s'.log && |s.peers| <= |s'.peers|
            && forall i :: |s.peers| <= i < |s'.peers| ==>
                             s'.log == s.log && s'.peers[i] == Peer(|s.log|, |s.log|, [], [], 0, Handshaking)
  {
  }

  lemma StepKeeps<M>(s: System<M>, capacity: pos, event: Event<M>)
    requires CursorsInRange(s) && AllSound(s)
    ensures var s' := Step(s, capacity, event);
            && AllSound(s') && s.log <= s'.log && |s.peers| <= |s'.peers|
            && forall i :: 0 <= i < |s.peers| ==> s'.peers[i].joined == s.peers[i].joined
  {
    var s' := Step(s, capacity, event);
    StepGrows(s, capacity, event);
    forall i | 0 <= i < |s'.peers|
      ensures PeerSound(s'.log, s'.peers[i])
      ensures i < |s.peers| ==> s'.peers[i].joined == s.peers[i].joined
    {
      if i < |s.peers| {
        StepKeepsPeer(s, capacity, event, i);
      } else {
        NewPeerSound(s.log);
      }
    }
  }

  lemma {:induction false} RunSound<M>(capacity: pos, events: seq<Event<M>>)
    ensures AllSound(Run(capacity, events))
  {
    if events != [] {
      RunSound(capacity, events[..|events| - 1]);
      StepKeeps(Run(capacity, events[..|events| - 1]), capacity, events[|events| - 1]);
    }
  }

  // --- Main results -------------------------------------------------------

  lemma FullDraw<M>(ps: seq<nat>, d: seq<M>, log: seq<M>, from: nat, to: nat, k: nat)
    requires Draws(ps, d, log, from, to) && |d| == to - from && k < |d|
    ensures ps[k] == from + k
  {
    DrawBounds(ps, d, log, from, to, k);
  }

  lemma DrawBounds<M>(ps: seq<nat>, d: seq<M>, log: seq<M>, from: nat, to: nat, k: nat)
    requires Draws(ps, d, log, from, to) && k < |d|
    ensures from + k <= ps[k] < to - (|d| - 1 - k)
  {
    DrawLower(ps, d, log, from, to, k);
    DrawUpper(ps, d, log, from, to, k);
  }

  lemma {:induction false} DrawLower<M>(ps: seq<nat>, d: seq<M>, log: seq<M>, from: nat, to: nat, k: nat)
    requires Draws(ps, d, log, from, to) && k < |d|
    ensures from + k <= ps[k]
  {
    if 0 < k {
      DrawLower(ps, d, log, from, to, k - 1);
    }
  }

  lemma {:induction false} DrawUpper<M>(ps: seq<nat>, d: seq<M>, log: seq<M>, from: nat, to: nat, k: nat)
    requires Draws(ps, d, log, from, to) && k < |d|
    ensures ps[k] < to - (|d| - 1 - k)
    decreases |d| - k
  {
    if k < |d| - 1 {
      DrawUpper(ps, d, log, from, to, k + 1);
    }
  }

  lemma ContiguousIffNoneMissed<M>(log: seq<M>, peer: Peer<M>)
    requires PeerSound(log, peer)
    ensures peer.delivered + peer.unsent == log[peer.joined..peer.cursor] <==> peer.missed == 0
  {
    var d, window := peer.delivered + peer.unsent, log[peer.joined..peer.cursor];
    var ps :| Draws(ps, d, log, peer.joined, peer.cursor);
    if peer.missed == 0 {
      forall k | 0 <= k < |d|
        ensures d[k] == window[k]
      {
        FullDraw(ps, d, log, peer.joined, peer.cursor, k);
      }
      assert d == window;
    } else {
      assert |d| != |window|;
    }
  }

  // Stream safety: over every interleaving, what a peer got is an in-order
  // selection, without repeats, of the messages published since its receiver
  // was made, and each of those up to its cursor was delivered, reported as
  // missed, or is the one whose write ended the connection. It is the whole
  // contiguous stretch exactly when nothing was missed.
  lemma {:induction false} StreamSafety<M>(capacity: pos, events: seq<Event<M>>, i: nat)
    requires i < |Run(capacity, events).peers|
    ensures var s := Run(capacity, events);
            var peer := s.peers[i];
            && peer.joined <= peer.cursor <= |s.log|
            && Drawn(peer.delivered + peer.unsent, s.log, peer.joined, peer.cursor)
            && |peer.delivered| + |peer.unsent| + peer.missed == peer.cursor - peer.joined
            && |peer.unsent| <= 1
            && (peer.delivered + peer.unsent == s.log[peer.joined..peer.cursor] <==> peer.missed == 0)
  {
    RunSound(capacity, events);
    ContiguousIffNoneMissed(Run(capacity, events).log, Run(capacity, events).peers[i]);
  }

  lemma {:induction false} LaterKeeps<M>(capacity: pos, events: seq<Event<M>>, after: seq<Event<M>>)
    ensures var s, s' := Run(capacity, events), Run(capacity, events + after);
            && s.log <= s'.log && |s.peers| <= |s'.peers|
            && forall i :: 0 <= i < |s.peers| ==> s'.peers[i].joined == s.peers[i].joined
  {
    if after == [] {
      assert events + after == events;
    } else {
      var earlier, last := after[..|after| - 1], after[|after| - 1];
      assert events + after == (events + earlier) + [last];
      LaterKeeps(capacity, events, earlier);
      RunSound(capacity, events + earlier);
      RunAppend(capacity, events + earlier, last);
      StepKeeps(Run(capacity, events + earlier), capacity, last);
    }
  }

  // The receiver of a peer is made when its connection is accepted, so
  // messages published during its handshake are its to receive and earlier
  // ones never are; the log itself only grows.
  lemma {:induction false} JoinedAtAccept<M>(capacity: pos, before: seq<Event<M>>, after: seq<Event<M>>)
    requires Run(capacity, before).listening && !InHandshake(Run(capacity, before))
    ensures var i := |Run(capacity, before).peers|;
            var s := Run(capacity, before + [Accept] + after);
            && i < |s.peers|
            && s.peers[i].joined == |Run(capacity, before).log|
            && Run(capacity, before).log <= s.log
  {
    RunAppend(capacity, before, Accept);
    LaterKeeps(capacity, before + [Accept], after);
  }

  // The peer takes a payload while it is more than the capacity behind.
  ghost predicate LagsAt<M>(capacity: pos, events: seq<Event<M>>, i: nat, k: nat)
    requires k < |events|
  {
    var s := Run(capacity, events[..k]);
    && events[k].PeerTurn? && events[k].peer == i && events[k].choice.TakePayload?
    && i < |s.peers| && s.peers[i].phase == Streaming && capacity < |s.log| - s.peers[i].cursor
  }

  lemma MissedStep<M>(s: System<M>, capacity: pos, event: Event<M>, i: nat)
    requires CursorsInRange(s) && i < |Step(s, capacity, event).peers|
    ensures Step(s, capacity, event).peers[i].missed
            == (if i < |s.peers| then s.peers[i].missed else 0)
               + (if event.PeerTurn? && event.peer == i && event.choice.TakePayload? && i < |s.peers|
                     && s.peers[i].phase == Streaming && capacity < |s.log| - s.peers[i].cursor
                  then |s.log| - s.peers[i].cursor - capacity else 0)
  {
  }

  // The peer would skip messages with this event.
  ghost predicate Lags<M>(s: System<M>, capacity: pos, i: nat, event: Event<M>) {
    && event.PeerTurn? && event.peer == i && event.choice.TakePayload?
    && i < |s.peers| && s.peers[i].phase == Streaming && capacity < |s.log| - s.peers[i].cursor
  }

  lemma {:induction false} LagsNext<M>(capacity: pos, earlier: seq<Event<M>>, last: Event<M>, i: nat)
    ensures forall k :: 0 <= k < |earlier| ==>
                          (LagsAt(capacity, earlier + [last], i, k) <==> LagsAt(capacity, earlier, i, k))
    ensures LagsAt(capacity, earlier + [last], i, |earlier|) <==> Lags(Run(capacity, earlier), capacity, i, last)
  {
    var events := earlier + [last];
    forall k | 0 <= k <= |earlier|
      ensures events[..k] == earlier[..k]
    {
    }
    assert earlier[..|earlier|] == earlier;
  }

  // A peer has missed nothing exactly when it never took a payload while more
  // than the capacity behind.
  lemma {:induction false} NothingMissedIff<M>(capacity: pos, events: seq<Event<M>>, i: nat)
    requires i < |Run(capacity, events).peers|
    ensures Run(capacity, events).peers[i].missed == 0
            <==> forall k :: 0 <= k < |events| ==> !LagsAt(capacity, events, i, k)
  {
    if events != [] {
      var earlier, last := events[..|events| - 1], events[|events| - 1];
      assert events == earlier + [last];
      RunAppend(capacity, earlier, last);
      MissedStep(Run(capacity, earlier), capacity, last, i);
      LagsNext(capacity, earlier, last, i);
      if i < |Run(capacity, earlier).peers| {
        NothingMissedIff(capacity, earlier, i);
      } else {
        NotYetJoined(capacity, earlier, i);
      }
    }
  }

  lemma {:induction false} NotYetJoined<M>(capacity: pos, events: seq<Event<M>>, i: nat)
    requires |Run(capacity, events).peers| <= i
    ensures forall k :: 0 <= k < |events| ==> !LagsAt(capacity, events, i, k)
  {
    if events != [] {
      var earlier := events[..|events| - 1];
      NotYetJoined(capacity, earlier, i);
      forall k | 0 <= k < |events|
        ensures !LagsAt(capacity, events, i, k)
      {
        if k < |earlier| {
          assert earlier[..k] == events[..k];
          assert !LagsAt(capacity, earlier, i, k);
        }
      }
    }
  }

  // So a peer that never did holds everything up to its cursor.
  lemma {:induction false} NothingSkipped<M>(capacity: pos, events: seq<Event<M>>, i: nat)
    requires i < |Run(capacity, events).peers|
    requires forall k :: 0 <= k < |events| ==> !LagsAt(capacity, events, i, k)
    ensures var s := Run(capacity, events);
            var peer := s.peers[i];
            && peer.joined <= peer.cursor <= |s.log|
            && peer.delivered + peer.unsent == s.log[peer.joined..peer.cursor]
  {
    NothingMissedIff(capacity, events, i);
    StreamSafety(capacity, events, i);
  }

  // --- When publishing is refused -----------------------------------------

  function Messages<M>(events: seq<Event<M>>): seq<M> {
    if events == [] then []
    else
      Messages(events[..|events| - 1])
      + (if events[|events| - 1].Publish? then [events[|events| - 1].m] else [])
  }

  // Until the shutdown signal the listener keeps a receiver alive, so no
  // message is ever refused, peers or no peers, and the log is everything
  // published.
  lemma {:induction false} NoRefusalBeforeShutdown<M>(capacity: pos, events: seq<Event<M>>)
    requires forall k :: 0 <= k < |events| ==> !events[k].Shutdown?
    ensures Accepts(Run(capacity, events))
    ensures var s := Run(capacity, events); s.listening && !s.term && !s.dropped
    ensures Run(capacity, events).log == Messages(events)
  {
    if events != [] {
      NoRefusalBeforeShutdown(capacity, events[..|events| - 1]);
    }
  }

  lemma {:induction false} LivePeersZeroIff<M>(peers: seq<Peer<M>>)
    ensures LivePeers(peers) == 0 <==> forall i :: 0 <= i < |peers| ==> peers[i].phase == Gone
  {
    if peers != [] {
      LivePeersZeroIff(peers[..|peers| - 1]);
    }
  }

  // A refusal therefore takes a shutdown: the sender gone, or the listener
  // stopped and every peer lost. Once that is so it stays so.
  lemma {:induction false} RefusalIsFinal<M>(capacity: pos, events: seq<Event<M>>, more: seq<Event<M>>)
    requires !Accepts(Run(capacity, events))
    ensures var s := Run(capacity, events);
            s.term && (s.dropped || (!s.listening && forall i :: 0 <= i < |s.peers| ==> s.peers[i].phase == Gone))
    ensures !Accepts(Run(capacity, events + more)) && Run(capacity, events + more).log == Run(capacity, events).log
  {
    LivePeersZeroIff(Run(capacity, events).peers);
    TermBeforeStop(capacity, events);
    RefusedStays(capacity, events, more);
  }

  lemma {:induction false} TermBeforeStop<M>(capacity: pos, events: seq<Event<M>>)
    ensures var s := Run(capacity, events); (!s.listening || s.dropped) ==> s.term
  {
    if events != [] {
      TermBeforeStop(capacity, events[..|events| - 1]);
    }
  }

  ghost predicate Refusing<M>(s: System<M>, log: seq<M>) {
    !Accepts(s) && s.log == log
  }

  lemma RefusedStep<M>(s: System<M>, capacity: pos, event: Event<M>, log: seq<M>)
    requires CursorsInRange(s) && Refusing(s, log)
    ensures Refusing(Step(s, capacity, event), log)
  {
    LivePeersZeroIff(s.peers);
    LivePeersZeroIff(Step(s, capacity, event).peers);
  }

  lemma {:induction false} RefusedStays<M>(capacity: pos, events: seq<Event<M>>, more: seq<Event<M>>)
    requires !Accepts(Run(capacity, events))
    ensures Refusing(Run(capacity, events + more), Run(capacity, events).log)
  {
    if more == [] {
      assert events + more == events;
    } else {
      var earlier, last := more[..|more| - 1], more[|more| - 1];
      RefusedStays(capacity, events, earlier);
      assert events + more == (events + earlier) + [last];
      RunAppend(capacity, events + earlier, last);
      RefusedStep(Run(capacity, events + earlier), capacity, last, Run(capacity, events).log);
    }
  }

  // --- Catching up --------------------------------------------------------

  function Drain<M>(peer: Peer<M>, turn: Turn<M>, capacity: pos, n: nat): (r: Peer<M>)
    requires peer.cursor <= |turn.log|
    ensures r.cursor <= |turn.log|
  {
    if n == 0 then peer else TakeTurn(Drain(peer, turn, capacity, n - 1), turn, capacity)
  }

  lemma TakeNext<M>(peer: Peer<M>, turn: Turn<M>, capacity: pos)
    requires peer.phase == Streaming && turn.choice == TakePayload(true)
    requires peer.cursor < |turn.log| <= peer.cursor + capacity
    ensures TakeTurn(peer, turn, capacity)
            == peer.(cursor := peer.cursor + 1, delivered := peer.delivered + [turn.log[peer.cursor]])
  {
  }

  lemma SliceNext<T>(delivered: seq<T>, log: seq<T>, c: nat, n: nat)
    requires 0 < n && c + n <= |log|
    ensures (delivered + log[c..c + n - 1]) + [log[c + n - 1]] == delivered + log[c..c + n]
  {
  }

  // Reading on with no new messages brings a peer that is within the capacity
  // all the way up, in order.
  lemma {:induction false} DrainCatchesUp<M>(peer: Peer<M>, turn: Turn<M>, capacity: pos, n: nat)
    requires peer.phase == Streaming && turn.choice == TakePayload(true)
    requires peer.cursor + n <= |turn.log| <= peer.cursor + capacity
    ensures Drain(peer, turn, capacity, n)
            == peer.(cursor := peer.cursor + n, delivered := peer.delivered + turn.log[peer.cursor..peer.cursor + n])
  {
    if n == 0 {
      assert peer.delivered + turn.log[peer.cursor..peer.cursor] == peer.delivered;
    } else {
      DrainCatchesUp(peer, turn, capacity, n - 1);
      TakeNext(Drain(peer, turn, capacity, n - 1), turn, capacity);
      SliceNext(peer.delivered, turn.log, peer.cursor, n);
    }
  }

  function Publishes<M>(ms: seq<M>): seq<Event<M>> {
    seq(|ms|, k requires 0 <= k < |ms| => Publish(ms[k]))
  }

  lemma {:induction false} PublishNext<M>(capacity: pos, events: seq<Event<M>>, m: M)
    requires Run(capacity, events).listening && !Run(capacity, events).dropped
    ensures Run(capacity, events + [Publish(m)]) == Run(capacity, events).(log := Run(capacity, events).log + [m])
  {
    RunAppend(capacity, events, Publish(m));
  }

  lemma PublishesSplit<M>(events: seq<Event<M>>, ms: seq<M>)
    requires ms != []
    ensures events + Publishes(ms) == (events + Publishes(ms[..|ms| - 1])) + [Publish(ms[|ms| - 1])]
  {
  }

  lemma Reassociate<T>(a: seq<T>, b: seq<T>)
    requires b != []
    ensures (a + b[..|b| - 1]) + [b[|b| - 1]] == a + b
  {
  }

  lemma {:induction false} PublishesLog<M>(capacity: pos, events: seq<Event<M>>, ms: seq<M>)
    requires Run(capacity, events).listening && !Run(capacity, events).dropped
    ensures Run(capacity, events + Publishes(ms)) == Run(capacity, events).(log := Run(capacity, events).log + ms)
  {
    if ms == [] {
      assert events + Publishes(ms) == events;
    } else {
      var earlier, last := ms[..|ms| - 1], ms[|ms| - 1];
      PublishesLog(capacity, events, earlier);
      PublishNext(capacity, events + Publishes(earlier), last);
      PublishesSplit(events, ms);
      Reassociate(Run(capacity, events).log, ms);
    }
  }

  function Turns<M>(i: nat, n: nat): seq<Event<M>> {
    seq(n, _ => PeerTurn(i, TakePayload(true)))
  }

  lemma DrainStep<M>(s: System<M>, capacity: pos, i: nat, n: nat, s': System<M>)
    requires CursorsInRange(s) && i < |s.peers|
    requires var turn := Turn(s.log, s.term, s.dropped, TakePayload(true));
             s' == s.(peers := s.peers[i := Drain(s.peers[i], turn, capacity, n)])
    ensures var turn := Turn(s.log, s.term, s.dropped, TakePayload(true));
            && CursorsInRange(s')
            && Step(s', capacity, PeerTurn(i, TakePayload(true)))
               == s.(peers := s.peers[i := Drain(s.peers[i], turn, capacity, n + 1)])
  {
  }

  lemma TurnsSplit<M>(events: seq<Event<M>>, i: nat, n: nat)
    requires 0 < n
    ensures events + Turns(i, n) == (events + Turns(i, n - 1)) + [PeerTurn(i, TakePayload(true))]
  {
  }

  lemma {:induction false} TurnsDrain<M>(capacity: pos, events: seq<Event<M>>, i: nat, n: nat)
    requires i < |Run(capacity, events).peers|
    ensures var s := Run(capacity, events);
            var turn := Turn(s.log, s.term, s.dropped, TakePayload(true));
            Run(capacity, events + Turns(i, n)) == s.(peers := s.peers[i := Drain(s.peers[i], turn, capacity, n)])
  {
    if n == 0 {
      assert events + Turns(i, n) == events;
    } else {
      TurnsDrain(capacity, events, i, n - 1);
      TurnsSplit(events, i, n);
      RunAppend(capacity, events + Turns(i, n - 1), PeerTurn(i, TakePayload(true)));
      DrainStep(Run(capacity, events), capacity, i, n - 1, Run(capacity, events + Turns(i, n - 1)));
    }
  }

  // A peer whose connection has just been accepted, in a system it is the
  // newest of.
  ghost predicate JustAccepted<M>(s: System<M>, others: seq<Peer<M>>, log: seq<M>, phase: Phase) {
    && s.peers == others + [Peer(|log|, |log|, [], [], 0, phase)]
    && log <= s.log
  }

  lemma AcceptStep<M>(s: System<M>, capacity: pos)
    requires CursorsInRange(s) && s.listening && !s.dropped && !InHandshake(s)
    ensures var s' := Step(s, capacity, Accept);
            JustAccepted(s', s.peers, s.log, Handshaking) && s' == s.(peers := s'.peers)
  {
  }

  lemma HandshakeStep<M>(s: System<M>, capacity: pos, others: seq<Peer<M>>, log: seq<M>)
    requires CursorsInRange(s) && JustAccepted(s, others, log, Handshaking)
    ensures var s' := Step(s, capacity, HandshakeEnds(true));
            JustAccepted(s', others, log, Streaming) && s'.log == s.log
  {
  }

  // The system once a handshake is over during which some messages were
  // published.
  lemma {:induction false} HandshakeReady<M>(capacity: pos, before: seq<Event<M>>, ms: seq<M>)
    requires Run(capacity, before).listening && !Run(capacity, before).dropped && !InHandshake(Run(capacity, before))
    ensures var s := Run(capacity, before);
            var ready := Run(capacity, before + [Accept] + Publishes(ms) + [HandshakeEnds(true)]);
            JustAccepted(ready, s.peers, s.log, Streaming) && ready.log == s.log + ms
  {
    var s := Run(capacity, before);
    RunAppend(capacity, before, Accept);
    AcceptStep(s, capacity);
    PublishesLog(capacity, before + [Accept], ms);
    RunAppend(capacity, before + [Accept] + Publishes(ms), HandshakeEnds(true));
    HandshakeStep(Run(capacity, before + [Accept] + Publishes(ms)), capacity, s.peers, s.log);
  }

  lemma {:induction false} NewPeerDrains<M>(s: System<M>, capacity: pos, others: seq<Peer<M>>, log: seq<M>, ms: seq<M>)
    requires JustAccepted(s, others, log, Streaming) && s.log == log + ms && |ms| <= capacity
    ensures var turn := Turn(s.log, s.term, s.dropped, TakePayload(true));
            var peer := Drain(s.peers[|others|], turn, capacity, |ms|);
            peer.phase == Streaming && peer.delivered == ms && peer.missed == 0
  {
    var turn := Turn(s.log, s.term, s.dropped, TakePayload(true));
    DrainCatchesUp(s.peers[|others|], turn, capacity, |ms|);
    assert s.log[|log|..|log| + |ms|] == ms;
  }

  // Whatever happened before: a connection accepted while the listener runs
  // gets exactly the messages published during its handshake, if they are no
  // more than the capacity, as soon as it has read as many times.
  lemma {:induction false} HandshakeMessagesDelivered<M>(capacity: pos, before: seq<Event<M>>, ms: seq<M>)
    requires Run(capacity, before).listening && !Run(capacity, before).dropped && !InHandshake(Run(capacity, before))
    requires |ms| <= capacity
    ensures var i := |Run(capacity, before).peers|;
            var s := Run(capacity, before + [Accept] + Publishes(ms) + [HandshakeEnds(true)] + Turns(i, |ms|));
            && i < |s.peers| && s.peers[i].phase == Streaming
            && s.peers[i].delivered == ms && s.peers[i].missed == 0
            && s.log == Run(capacity, before).log + ms
  {
    var s := Run(capacity, before);
    var events := before + [Accept] + Publishes(ms) + [HandshakeEnds(true)];
    HandshakeReady(capacity, before, ms);
    NewPeerDrains(Run(capacity, events), capacity, s.peers, s.log, ms);
    TurnsDrain(capacity, events, |s.peers|, |ms|);
  }

  function Notices<M>(n: nat): seq<Event<M>> {
    seq(n, i requires 0 <= i < n => PeerTurn(i, NoticeTerm))
  }

  lemma NoticeStep<M>(s: System<M>, capacity: pos, i: nat)
    requires CursorsInRange(s) && s.term && i < |s.peers| && s.peers[i].phase != Handshaking
    ensures Step(s, capacity, PeerTurn(i, NoticeTerm)) == s.(peers := s.peers[i := s.peers[i].(phase := Gone)])
  {
  }

  // s' is s with its first n peers gone.
  ghost predicate FirstGone<M>(s: System<M>, s': System<M>, n: nat) {
    && s' == s.(peers := s'.peers) && |s'.peers| == |s.peers|
    && (forall i :: 0 <= i < n <= |s.peers| ==> s'.peers[i].phase == Gone)
    && (forall i :: n <= i < |s.peers| ==> s'.peers[i] == s.peers[i])
  }

  lemma NoticeNext<M>(s: System<M>, s': System<M>, capacity: pos, n: nat)
    requires CursorsInRange(s') && s.term && n < |s.peers| && s.peers[n].phase != Handshaking
    requires FirstGone(s, s', n)
    ensures FirstGone(s, Step(s', capacity, PeerTurn(n, NoticeTerm)), n + 1)
  {
    NoticeStep(s', capacity, n);
  }

  lemma NoticesSplit<M>(events: seq<Event<M>>, n: nat)
    requires 0 < n
    ensures events + Notices(n) == (events + Notices(n - 1)) + [PeerTurn(n - 1, NoticeTerm)]
  {
  }

  lemma {:induction false} NoticesDisconnect<M>(capacity: pos, events: seq<Event<M>>, n: nat)
    requires n <= |Run(capacity, events).peers| && Run(capacity, events).term
    requires forall i :: 0 <= i < |Run(capacity, events).peers| ==> Run(capacity, events).peers[i].phase != Handshaking
    ensures FirstGone(Run(capacity, events), Run(capacity, events + Notices(n)), n)
  {
    if n == 0 {
      assert events + Notices(n) == events;
    } else {
      NoticesDisconnect(capacity, events, n - 1);
      NoticesSplit(events, n);
      RunAppend(capacity, events + Notices(n - 1), PeerTurn(n - 1, NoticeTerm));
      NoticeNext(Run(capacity, events), Run(capacity, events + Notices(n - 1)), capacity, n - 1);
    }
  }

  // Only the newest peer can be in its handshake.
  ghost predicate OnlyLastInHandshake<M>(peers: seq<Peer<M>>) {
    forall i :: 0 <= i < |peers| - 1 ==> peers[i].phase != Handshaking
  }

  lemma HandshakeOrder<M>(s: System<M>, capacity: pos, event: Event<M>)
    requires CursorsInRange(s) && OnlyLastInHandshake(s.peers)
    ensures OnlyLastInHandshake(Step(s, capacity, event).peers)
  {
    forall i | 0 <= i < |Step(s, capacity, event).peers| - 1
      ensures Step(s, capacity, event).peers[i].phase != Handshaking
    {
      if i < |s.peers| - 1 {
        assert s.peers[i].phase != Handshaking;
      }
    }
  }

  lemma {:induction false} OneHandshake<M>(capacity: pos, events: seq<Event<M>>)
    ensures OnlyLastInHandshake(Run(capacity, events).peers)
  {
    if events != [] {
      OneHandshake(capacity, events[..|events| - 1]);
      HandshakeOrder(Run(capacity, events[..|events| - 1]), capacity, events[|events| - 1]);
    }
  }

  // What a shutdown cannot take back: the signal, and peers that are gone.
  ghost predicate Leaving<M>(s: System<M>, s': System<M>) {
    && (s.term ==> s'.term) && |s.peers| <= |s'.peers|
    && forall i :: 0 <= i < |s.peers| && s.peers[i].phase == Gone ==> s'.peers[i].phase == Gone
  }

  lemma StepLeaving<M>(s: System<M>, capacity: pos, event: Event<M>)
    requires CursorsInRange(s)
    ensures Leaving(s, Step(s, capacity, event))
  {
  }

  lemma {:induction false} RunLeaving<M>(capacity: pos, events: seq<Event<M>>, more: seq<Event<M>>)
    ensures Leaving(Run(capacity, events), Run(capacity, events + more))
  {
    if more == [] {
      assert events + more == events;
    } else {
      var earlier, last := more[..|more| - 1], more[|more| - 1];
      assert events + more == (events + earlier) + [last];
      RunLeaving(capacity, events, earlier);
      RunAppend(capacity, events + earlier, last);
      StepLeaving(Run(capacity, events + earlier), capacity, last);
    }
  }

  // Peer i notices the signal, given no later than `from`, at step k.
  ghost predicate NoticesAt<M>(capacity: pos, events: seq<Event<M>>, from: nat, i: nat, k: nat)
    requires from <= |events|
  {
    && from <= k < |events| && events[k] == PeerTurn(i, NoticeTerm)
    && i < |Run(capacity, events[..k]).peers| && Run(capacity, events[..k]).peers[i].phase != Handshaking
  }

  ghost predicate HasNoticed<M>(capacity: pos, events: seq<Event<M>>, from: nat, i: nat)
    requires from <= |events|
  {
    exists k :: NoticesAt(capacity, events, from, i, k)
  }

  lemma {:induction false} NoticeTakesEffect<M>(capacity: pos, events: seq<Event<M>>, from: nat, i: nat, k: nat)
    requires from <= |events| && Run(capacity, events[..from]).term && NoticesAt(capacity, events, from, i, k)
    ensures var s := Run(capacity, events[..k] + [events[k]]);
            i < |s.peers| && s.peers[i].phase == Gone
  {
    assert events[..k] == events[..from] + events[from..k];
    RunLeaving(capacity, events[..from], events[from..k]);
    RunAppend(capacity, events[..k], events[k]);
    NoticeStep(Run(capacity, events[..k]), capacity, i);
  }

  lemma {:induction false} NoticedIsGone<M>(capacity: pos, events: seq<Event<M>>, from: nat, i: nat, k: nat)
    requires from <= |events| && Run(capacity, events[..from]).term && NoticesAt(capacity, events, from, i, k)
    ensures i < |Run(capacity, events).peers| && Run(capacity, events).peers[i].phase == Gone
  {
    NoticeTakesEffect(capacity, events, from, i, k);
    assert events == (events[..k] + [events[k]]) + events[k + 1..];
    RunLeaving(capacity, events[..k] + [events[k]], events[k + 1..]);
  }

  // Shutdown takes effect, whatever else happens and in whatever order: once
  // the signal has been given, the listener has stopped and every peer has had
  // a turn to notice after its handshake, no receiver is left.
  lemma {:induction false} ShutdownDisconnects<M>(capacity: pos, events: seq<Event<M>>, from: nat)
    requires from <= |events| && Run(capacity, events[..from]).term && !Run(capacity, events).listening
    requires forall i :: 0 <= i < |Run(capacity, events).peers| ==> HasNoticed(capacity, events, from, i)
    ensures Receivers(Run(capacity, events)) == 0 && !Accepts(Run(capacity, events))
  {
    forall i | 0 <= i < |Run(capacity, events).peers|
      ensures Run(capacity, events).peers[i].phase == Gone
    {
      assert HasNoticed(capacity, events, from, i);
      var k :| NoticesAt(capacity, events, from, i, k);
      NoticedIsGone(capacity, events, from, i, k);
    }
    LivePeersZeroIff(Run(capacity, events).peers);
  }

  // It can always complete when no handshake is open: the listener stops, each
  // peer notices in turn, and nothing is left.
  lemma {:induction false} ShutdownCompletes<M>(capacity: pos, before: seq<Event<M>>, drops: bool)
    requires !InHandshake(Run(capacity, before))
    ensures var n := |Run(capacity, before).peers|;
            var s := Run(capacity, before + [Shutdown(drops)] + [ListenerStops] + Notices(n));
            Receivers(s) == 0 && !Accepts(s)
  {
    var n, signalled := |Run(capacity, before).peers|, before + [Shutdown(drops)];
    RunAppend(capacity, before, Shutdown(drops));
    RunAppend(capacity, signalled, ListenerStops);
    OneHandshake(capacity, before);
    ListenerStopped(Run(capacity, before), capacity, drops);
    NoticesDisconnect(capacity, signalled + [ListenerStops], n);
    LivePeersZeroIff(Run(capacity, signalled + [ListenerStops] + Notices(n)).peers);
  }

  lemma ListenerStopped<M>(s: System<M>, capacity: pos, drops: bool)
    requires CursorsInRange(s) && !InHandshake(s) && OnlyLastInHandshake(s.peers)
    ensures var s' := Step(Step(s, capacity, Shutdown(drops)), capacity, ListenerStops);
            && s'.term && !s'.listening && s'.peers == s.peers
            && forall i :: 0 <= i < |s'.peers| ==> s'.peers[i].phase != Handshaking
  {
  }

  ghost predicate HeldByHandshake<M>(s: System<M>, n: nat) {
    s.listening && InHandshake(s) && |s.peers| == n
  }

  lemma HeldStep<M>(s: System<M>, capacity: pos, event: Event<M>, n: nat)
    requires CursorsInRange(s) && HeldByHandshake(s, n) && !event.HandshakeEnds?
    ensures HeldByHandshake(Step(s, capacity, event), n)
  {
  }

  // But an open handshake holds it up: until it ends the listener neither
  // stops, signal or not, nor takes another connection, and messages are still
  // accepted unless the sender is dropped.
  lemma {:induction false} HandshakeHoldsListener<M>(capacity: pos, before: seq<Event<M>>, more: seq<Event<M>>)
    requires Run(capacity, before).listening && InHandshake(Run(capacity, before))
    requires forall k :: 0 <= k < |more| ==> !more[k].HandshakeEnds?
    ensures var s := Run(capacity, before + more);
            && s.listening && InHandshake(s) && |s.peers| == |Run(capacity, before).peers|
            && (Accepts(s) <==> !s.dropped)
  {
    if more == [] {
      assert before + more == before;
    } else {
      var earlier, last := more[..|more| - 1], more[|more| - 1];
      assert before + more == (before + earlier) + [last];
      HandshakeHoldsListener(capacity, before, earlier);
      RunAppend(capacity, before + earlier, last);
      HeldStep(Run(capacity, before + earlier), capacity, last, |Run(capacity, before).peers|);
    }
  }
}
