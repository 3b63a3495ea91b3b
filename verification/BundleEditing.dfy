// Removing transactions from a bundle (src/bundle.rs).
module BundleEditing {
  import opened Prelude
  import opened Platform
  import opened Bundles

  // What remains of a list of items, known by their keys, when some are gone.
  function Keep<T>(items: seq<T>, key: T -> B256, gone: set<B256>): seq<T> {
    if items == [] then []
    else
      var last := items[|items| - 1];
      Keep(items[..|items| - 1], key, gone) + (if key(last) in gone then [] else [last])
  }

  // A transaction is known by its hash, a listed hash by itself.
  function HashOf(tx: Transaction): B256 {
    tx.hash
  }

  function Itself(hash: B256): B256 {
    hash
  }

  // The bundle with every trace of some hashes removed.
  function Restrict(b: Bundle, gone: set<B256>): Bundle {
    b.(txs := Keep(b.txs, HashOf, gone),
       revertingTxHashes := Keep(b.revertingTxHashes, Itself, gone),
       droppingTxHashes := Keep(b.droppingTxHashes, Itself, gone))
  }

  method Retain<T>(items: seq<T>, key: T -> B256, tx: B256) returns (kept: seq<T>)
    ensures kept == Keep(items, key, {tx})
  {
    kept := [];
    for i := 0 to |items|
      invariant kept == Keep(items[..i], key, {tx})
    {
      assert items[..i + 1][..i] == items[..i];
      if key(items[i]) != tx {
        kept := kept + [items[i]];
      }
    }
    assert items[..|items|] == items;
  }

  // The six bounds are untouched.
  ghost predicate SameBounds(b: Bundle, b': Bundle) {
    && b'.minBlockNumber == b.minBlockNumber && b'.maxBlockNumber == b.maxBlockNumber
    && b'.minTimestamp == b.minTimestamp && b'.maxTimestamp == b.maxTimestamp
    && b'.minFlashblockNumber == b.minFlashblockNumber && b'.maxFlashblockNumber == b.maxFlashblockNumber
  }

  // Takes the bundle by value, edits its three lists and hands it back.
  method WithoutTransaction(b: Bundle, tx: B256) returns (bundle: Bundle)
    ensures bundle == Restrict(b, {tx}) && SameBounds(b, bundle)
  {
    bundle := b;
    var txs := Retain(bundle.txs, HashOf, tx);
    bundle := bundle.(txs := txs);
    var reverting := Retain(bundle.revertingTxHashes, Itself, tx);
    bundle := bundle.(revertingTxHashes := reverting);
    var dropping := Retain(bundle.droppingTxHashes, Itself, tx);
    bundle := bundle.(droppingTxHashes := dropping);
  }

  // Removing a list of transactions one after another.
  method WithoutTransactions(b: Bundle, removed: seq<B256>) returns (bundle: Bundle)
    ensures bundle == WithoutAll(b, removed)
  {
    bundle := b;
    for i := 0 to |removed|
      invariant bundle == WithoutAll(b, removed[..i])
    {
      assert removed[..i + 1][..i] == removed[..i];
      bundle := WithoutTransaction(bundle, removed[i]);
    }
    assert removed[..|removed|] == removed;
  }

  function WithoutAll(b: Bundle, removed: seq<B256>): Bundle {
    if removed == [] then b
    else Restrict(WithoutAll(b, removed[..|removed| - 1]), {removed[|removed| - 1]})
  }

  // --- What is kept -------------------------------------------------------

  // The positions of a list that survive, in order.
  function Surviving<T>(items: seq<T>, key: T -> B256, gone: set<B256>): (ps: seq<nat>)
    ensures forall k :: 0 <= k < |ps| ==> ps[k] < |items|
  {
    if items == [] then []
    else
      Surviving(items[..|items| - 1], key, gone)
      + (if key(items[|items| - 1]) in gone then [] else [|items| - 1])
  }

  lemma {:induction false} SurvivingMembers<T>(items: seq<T>, key: T -> B256, gone: set<B256>, i: nat)
    requires i < |items|
    ensures i in Surviving(items, key, gone) <==> key(items[i]) !in gone
  {
    var n := |items| - 1;
    if i < n {
      SurvivingMembers(items[..n], key, gone, i);
    }
  }

  ghost predicate Ascending(ps: seq<nat>) {
    forall i, j :: 0 <= i < j < |ps| ==> ps[i] < ps[j]
  }

  lemma {:induction false} SurvivingAscends<T>(items: seq<T>, key: T -> B256, gone: set<B256>)
    ensures Ascending(Surviving(items, key, gone))
  {
    if items != [] {
      SurvivingAscends(items[..|items| - 1], key, gone);
    }
  }

  lemma {:induction false} KeepIsSurviving<T>(items: seq<T>, key: T -> B256, gone: set<B256>)
    ensures var kept, ps := Keep(items, key, gone), Surviving(items, key, gone);
            |kept| == |ps| && forall k :: 0 <= k < |kept| ==> kept[k] == items[ps[k]]
  {
    if items != [] {
      KeepIsSurviving(items[..|items| - 1], key, gone);
    }
  }

  // Exactly the items whose key is not gone are kept, each as often as before
  // and in the original order.
  lemma {:induction false} KeepsTheRestInOrder<T>(items: seq<T>, key: T -> B256, gone: set<B256>)
    ensures var kept, ps := Keep(items, key, gone), Surviving(items, key, gone);
            && Ascending(ps)
            && (forall i :: 0 <= i < |items| ==> (i in ps <==> key(items[i]) !in gone))
            && |kept| == |ps|
            && (forall k :: 0 <= k < |ps| ==> kept[k] == items[ps[k]])
  {
    SurvivingAscends(items, key, gone);
    KeepIsSurviving(items, key, gone);
    forall i | 0 <= i < |items|
      ensures i in Surviving(items, key, gone) <==> key(items[i]) !in gone
    {
      SurvivingMembers(items, key, gone, i);
    }
  }

  lemma {:induction false} KeepTwice<T>(items: seq<T>, key: T -> B256, a: set<B256>, b: set<B256>)
    ensures Keep(Keep(items, key, a), key, b) == Keep(items, key, a + b)
  {
    if items != [] {
      var earlier, last := items[..|items| - 1], items[|items| - 1];
      KeepTwice(earlier, key, a, b);
      if key(last) in a {
        assert Keep(items, key, a) == Keep(earlier, key, a);
      } else {
        assert (Keep(earlier, key, a) + [last])[..|Keep(earlier, key, a)|] == Keep(earlier, key, a);
      }
    }
  }

  lemma {:induction false} KeepNothingGone<T>(items: seq<T>, key: T -> B256)
    ensures Keep(items, key, {}) == items
  {
    if items != [] {
      KeepNothingGone(items[..|items| - 1], key);
    }
  }

  lemma {:induction false} KeepMembers<T>(items: seq<T>, key: T -> B256, gone: set<B256>, item: T)
    ensures item in Keep(items, key, gone) <==> item in items && key(item) !in gone
  {
    if items != [] {
      KeepMembers(items[..|items| - 1], key, gone, item);
      assert items == items[..|items| - 1] + [items[|items| - 1]];
    }
  }

  function SetOf(removed: seq<B256>): set<B256> {
    set h | h in removed
  }

  // --- Main results -------------------------------------------------------

  // Removing a list of hashes one by one is removing their set at once.
  lemma {:induction false} RemovalIsRestriction(b: Bundle, removed: seq<B256>)
    ensures WithoutAll(b, removed) == Restrict(b, SetOf(removed))
  {
    if removed == [] {
      assert SetOf(removed) == {};
      KeepNothingGone(b.txs, HashOf);
      KeepNothingGone(b.revertingTxHashes, Itself);
      KeepNothingGone(b.droppingTxHashes, Itself);
    } else {
      var earlier, last := removed[..|removed| - 1], removed[|removed| - 1];
      RemovalIsRestriction(b, earlier);
      KeepTwice(b.txs, HashOf, SetOf(earlier), {last});
      KeepTwice(b.revertingTxHashes, Itself, SetOf(earlier), {last});
      KeepTwice(b.droppingTxHashes, Itself, SetOf(earlier), {last});
      assert SetOf(removed) == SetOf(earlier) + {last};
    }
  }

  // So the order and the repetitions of the list do not matter.
  lemma {:induction false} OrderDoesNotMatter(b: Bundle, xs: seq<B256>, ys: seq<B256>)
    requires forall h :: h in xs <==> h in ys
    ensures WithoutAll(b, xs) == WithoutAll(b, ys)
  {
    RemovalIsRestriction(b, xs);
    RemovalIsRestriction(b, ys);
    assert SetOf(xs) == SetOf(ys);
  }

  // Removed hashes are neither allowed to fail nor optional any more; all
  // others are what the lists they were in said, and no bound changes.
  lemma AnswersAfterRemoval(b: Bundle, removed: seq<B256>, h: B256)
    ensures WithoutAll(b, removed).IsAllowedToFail(h)
            <==> (exists i :: 0 <= i < |b.revertingTxHashes| && b.revertingTxHashes[i] == h) && h !in removed
    ensures WithoutAll(b, removed).IsOptional(h)
            <==> (exists i :: 0 <= i < |b.droppingTxHashes| && b.droppingTxHashes[i] == h) && h !in removed
    ensures Transaction(h) in WithoutAll(b, removed).txs <==> Transaction(h) in b.txs && h !in removed
    ensures SameBounds(b, WithoutAll(b, removed))
  {
    RemovalIsRestriction(b, removed);
    KeepMembers(b.revertingTxHashes, Itself, SetOf(removed), h);
    KeepMembers(b.droppingTxHashes, Itself, SetOf(removed), h);
    KeepMembers(b.txs, HashOf, SetOf(removed), Transaction(h));
  }

  // Removing transactions leaves none exactly when all of them were named, and
  // such a bundle is ruled out for every header, block and flashblock.
  lemma {:induction false} RemovingEverything(b: Bundle, removed: seq<B256>)
    ensures var left := WithoutAll(b, removed);
            && (left.txs == [] <==> forall i :: 0 <= i < |b.txs| ==> b.txs[i].hash in removed)
            && (left.txs == [] ==>
                  && (forall header: Slot :: IsPermanentlyIneligible(left, header))
                  && (forall block: Slot, number :: IsEligible(left, block, number) == PermanentlyIneligible))
  {
    var left := WithoutAll(b, removed);
    forall i | 0 <= i < |b.txs|
      ensures b.txs[i] in left.txs <==> b.txs[i].hash !in removed
    {
      AnswersAfterRemoval(b, removed, b.txs[i].hash);
    }
    if left.txs != [] {
      AnswersAfterRemoval(b, removed, left.txs[0].hash);
      assert left.txs[0] in b.txs && left.txs[0].hash !in removed;
    }
  }
}
