// Checkpoint histories: the part of the block-building library the pipeline
// relies on.
//
//  - a new checkpoint inherits the context of its parent;
//  - a step may replace everything after the last barrier and nothing else;
//  - `barrier_with_context` puts an empty barrier that starts a new context;
//  - `history_since_first_context(c)` is the suffix that begins at the first
//    checkpoint whose context is c, if there is one.
module Checkpoints {
  import opened Prelude
  import opened Platform

  datatype Checkpoint = Checkpoint(context: FlashblockNumber, barrier: bool, txs: seq<Transaction>)

  // What a step proposes to put on top of a history; it cannot choose a context.
  datatype Draft = Draft(barrier: bool, txs: seq<Transaction>)

  // A history always rests on the baseline checkpoint, which is a barrier.
  type History = h: seq<Checkpoint> | 0 < |h| && h[0].barrier
    witness [Checkpoint(FIRST_FLASHBLOCK, true, [])]

  const BASELINE: History := [Checkpoint(FIRST_FLASHBLOCK, true, [])]

  function Context(h: History): FlashblockNumber {
    h[|h| - 1].context
  }

  function Transactions(span: seq<Checkpoint>): seq<Transaction> {
    if span == [] then [] else Transactions(span[..|span| - 1]) + span[|span| - 1].txs
  }

  function LastBarrier(h: History): (k: nat)
    ensures k < |h| && h[k].barrier
    ensures forall j :: k < j < |h| ==> !h[j].barrier
  {
    if h[|h| - 1].barrier then |h| - 1 else LastBarrier(h[..|h| - 1])
  }

  function FirstWithContext(h: seq<Checkpoint>, c: FlashblockNumber): (k: Option<nat>)
    ensures k.Some? ==> k.value < |h| && h[k.value].context == c
    ensures k.Some? ==> forall j :: 0 <= j < k.value ==> h[j].context != c
    ensures k.None? ==> forall j :: 0 <= j < |h| ==> h[j].context != c
  {
    if h == [] then None
    else
      var earlier := FirstWithContext(h[..|h| - 1], c);
      if earlier.Some? then earlier
      else if h[|h| - 1].context == c then Some(|h| - 1)
      else None
  }

  function HistorySinceFirstContext(h: History, c: FlashblockNumber): Option<seq<Checkpoint>> {
    var first := FirstWithContext(h, c);
    if first.Some? then Some(h[first.value..]) else None
  }

  function BarrierWithContext(h: History, c: FlashblockNumber): History {
    h + [Checkpoint(c, true, [])]
  }

  function Stamp(c: FlashblockNumber, drafts: seq<Draft>): seq<Checkpoint> {
    seq(|drafts|, i requires 0 <= i < |drafts| => Checkpoint(c, drafts[i].barrier, drafts[i].txs))
  }

  // The effect of any step that is not the publisher: whatever lies after the
  // last barrier is replaced, and the new checkpoints inherit its context.
  function Rewrite(h: History, drafts: seq<Draft>): History {
    var last := LastBarrier(h);
    var kept := h[..last + 1];
    assert kept[0] == h[0];
    kept + Stamp(h[last].context, drafts)
  }

  // Appending one checkpoint on top of the history.
  function Append(h: History, txs: seq<Transaction>): History {
    h + [Checkpoint(Context(h), false, txs)]
  }

  // --- Layout -------------------------------------------------------------

  ghost predicate ContextsAscend(h: History) {
    forall i, j :: 0 <= i <= j < |h| ==> h[i].context.current <= h[j].context.current
  }

  // Position of the first checkpoint of the flashblock under construction.
  function OpenFrom(h: History): (k: nat)
    ensures k < |h| && h[k].context == Context(h)
    ensures forall j :: 0 <= j < k ==> h[j].context != Context(h)
  {
    FirstWithContext(h, Context(h)).value
  }

  // Contexts ascend along the history and the current one starts at a barrier.
  ghost predicate WellLaid(h: History) {
    ContextsAscend(h) && h[OpenFrom(h)].barrier
  }

  lemma {:induction false} TransactionsNext(span: seq<Checkpoint>, last: Checkpoint)
    ensures Transactions(span + [last]) == Transactions(span) + last.txs
  {
    assert (span + [last])[..|span|] == span;
  }

  lemma {:induction false} TransactionsJoin(a: seq<Checkpoint>, earlier: seq<Checkpoint>, last: Checkpoint)
    requires Transactions(a + earlier) == Transactions(a) + Transactions(earlier)
    ensures Transactions((a + earlier) + [last]) == Transactions(a) + Transactions(earlier + [last])
  {
    TransactionsNext(a + earlier, last);
    TransactionsNext(earlier, last);
  }

  lemma {:induction false} TransactionsAppend(a: seq<Checkpoint>, b: seq<Checkpoint>)
    ensures Transactions(a + b) == Transactions(a) + Transactions(b)
  {
    if b == [] {
      assert a + b == a;
    } else {
      var earlier, last := b[..|b| - 1], b[|b| - 1];
      assert a + b == (a + earlier) + [last] && b == earlier + [last];
      TransactionsAppend(a, earlier);
      TransactionsJoin(a, earlier, last);
    }
  }

  // The transactions of some drafts, in order.
  function Drafted(drafts: seq<Draft>): seq<Transaction> {
    Flatten(seq(|drafts|, i requires 0 <= i < |drafts| => drafts[i].txs))
  }

  lemma {:induction false} StampedTransactions(c: FlashblockNumber, drafts: seq<Draft>)
    ensures Transactions(Stamp(c, drafts)) == Drafted(drafts)
  {
    if drafts != [] {
      var earlier, last := drafts[..|drafts| - 1], drafts[|drafts| - 1];
      StampedTransactions(c, earlier);
      assert Stamp(c, drafts) == Stamp(c, earlier) + [Checkpoint(c, last.barrier, last.txs)];
      TransactionsNext(Stamp(c, earlier), Checkpoint(c, last.barrier, last.txs));
      DraftedNext(earlier, last);
      assert drafts == earlier + [last];
    }
  }

  lemma DraftedNext(earlier: seq<Draft>, last: Draft)
    ensures Drafted(earlier + [last]) == Drafted(earlier) + last.txs
  {
    var all := seq(|earlier| + 1, i requires 0 <= i <= |earlier| => (earlier + [last])[i].txs);
    assert all[..|earlier|] == seq(|earlier|, i requires 0 <= i < |earlier| => earlier[i].txs);
    assert all == seq(|earlier + [last]|, i requires 0 <= i < |earlier + [last]| => (earlier + [last])[i].txs);
  }

  // Rewriting puts the drafts' transactions in place of what followed the last
  // barrier, and leaves everything up to it alone.
  lemma RewriteContributes(h: History, drafts: seq<Draft>)
    ensures var kept := h[..LastBarrier(h) + 1];
            && kept <= Rewrite(h, drafts) && |Rewrite(h, drafts)| == |kept| + |drafts|
            && (forall i :: 0 <= i < |drafts| ==>
                              && Rewrite(h, drafts)[|kept| + i].barrier == drafts[i].barrier
                              && Rewrite(h, drafts)[|kept| + i].txs == drafts[i].txs)
            && Transactions(Rewrite(h, drafts)) == Transactions(kept) + Drafted(drafts)
  {
    TransactionsAppend(h[..LastBarrier(h) + 1], Stamp(h[LastBarrier(h)].context, drafts));
    StampedTransactions(h[LastBarrier(h)].context, drafts);
  }

  lemma OpenFromUnique(h: History, k: nat)
    requires k < |h| && h[k].context == Context(h)
    requires forall j :: 0 <= j < k ==> h[j].context != Context(h)
    ensures OpenFrom(h) == k
  {
    var first := OpenFrom(h);
  }

  // In a well-laid history the last barrier is at or after the start of the
  // open flashblock, so every checkpoint from there on has the current context.
  lemma {:induction false} OpenFromBeforeLastBarrier(h: History)
    requires WellLaid(h)
    ensures OpenFrom(h) <= LastBarrier(h)
    ensures forall j :: OpenFrom(h) <= j < |h| ==> h[j].context == Context(h)
  {
    forall j | OpenFrom(h) <= j < |h|
      ensures h[j].context == Context(h)
    {
      assert h[OpenFrom(h)].context.current <= h[j].context.current <= h[|h| - 1].context.current;
    }
  }

  // Rewriting keeps the layout, the context and every checkpoint before the
  // open flashblock.
  lemma RewriteKeepsFrozen(h: History, drafts: seq<Draft>)
    requires WellLaid(h)
    ensures WellLaid(Rewrite(h, drafts))
    ensures Context(Rewrite(h, drafts)) == Context(h)
    ensures OpenFrom(Rewrite(h, drafts)) == OpenFrom(h)
    ensures Rewrite(h, drafts)[..OpenFrom(h)] == h[..OpenFrom(h)]
  {
    OpenFromBeforeLastBarrier(h);
    var h' := Rewrite(h, drafts);
    assert forall j :: LastBarrier(h) <= j < |h'| ==> h'[j].context == Context(h);
    assert forall j :: 0 <= j <= LastBarrier(h) ==> h'[j] == h[j];
    OpenFromUnique(h', OpenFrom(h));
  }

  lemma {:induction false} AppendKeepsFrozen(h: History, txs: seq<Transaction>)
    requires WellLaid(h)
    ensures WellLaid(Append(h, txs))
    ensures Context(Append(h, txs)) == Context(h)
    ensures OpenFrom(Append(h, txs)) == OpenFrom(h)
    ensures Append(h, txs)[..OpenFrom(h)] == h[..OpenFrom(h)]
    ensures Transactions(Append(h, txs)) == Transactions(h) + txs
  {
    var h' := Append(h, txs);
    OpenFromUnique(h', OpenFrom(h));
    assert h'[..|h'| - 1] == h;
  }

  // A barrier with a larger context freezes the whole history.
  lemma {:induction false} BarrierFreezes(h: History, c: FlashblockNumber)
    requires WellLaid(h) && Context(h).current < c.current
    ensures WellLaid(BarrierWithContext(h, c))
    ensures Context(BarrierWithContext(h, c)) == c
    ensures OpenFrom(BarrierWithContext(h, c)) == |h|
    ensures BarrierWithContext(h, c)[..|h|] == h
    ensures Transactions(BarrierWithContext(h, c)) == Transactions(h)
  {
    var h' := BarrierWithContext(h, c);
    forall j | 0 <= j < |h|
      ensures h'[j].context.current < c.current
    {
      assert h[j].context.current <= h[|h| - 1].context.current;
    }
    OpenFromUnique(h', |h|);
    assert h'[..|h'| - 1] == h;
  }
}
