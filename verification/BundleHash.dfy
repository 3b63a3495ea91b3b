// The bytes a bundle's hash is computed from (src/bundle.rs). Keccak itself is
// not part of this model: the hasher only records what it absorbs.
module BundleHash {
  import opened Prelude
  import opened Platform
  import opened Bundles

  class Keccak {
    var absorbed: seq<byte>

    constructor ()
      ensures absorbed == []
    {
      absorbed := [];
    }

    method Update(bytes: seq<byte>)
      modifies this
      ensures absorbed == old(absorbed) + bytes
    {
      absorbed := absorbed + bytes;
    }
  }

  // The k low-order bytes of n, most significant first.
  function BigEndian(n: nat, k: nat): (bytes: seq<byte>)
    ensures |bytes| == k
  {
    if k == 0 then [] else BigEndian(n / 256, k - 1) + [n % 256]
  }

  function Power256(k: nat): nat {
    if k == 0 then 1 else 256 * Power256(k - 1)
  }

  function OptionalBytes(field: Option<u64>): seq<byte> {
    if field.Some? then BigEndian(field.value, 8) else []
  }

  function Words(hashes: seq<B256>): seq<byte> {
    if hashes == [] then [] else Words(hashes[..|hashes| - 1]) + hashes[|hashes| - 1]
  }

  function TxHashes(txs: seq<Transaction>): seq<B256> {
    seq(|txs|, i requires 0 <= i < |txs| => txs[i].hash)
  }

  function Fields(b: Bundle): seq<Option<u64>> {
    [b.minBlockNumber, b.maxBlockNumber, b.minTimestamp, b.maxTimestamp, b.minFlashblockNumber, b.maxFlashblockNumber]
  }

  function FieldBytes(fields: seq<Option<u64>>): seq<byte> {
    if fields == [] then [] else FieldBytes(fields[..|fields| - 1]) + OptionalBytes(fields[|fields| - 1])
  }

  function Preimage(b: Bundle): seq<byte> {
    Words(TxHashes(b.txs)) + Words(b.revertingTxHashes) + Words(b.droppingTxHashes) + FieldBytes(Fields(b))
  }

  method Absorb(hasher: Keccak, hashes: seq<B256>)
    modifies hasher
    ensures hasher.absorbed == old(hasher.absorbed) + Words(hashes)
  {
    for i := 0 to |hashes|
      invariant hasher.absorbed == old(hasher.absorbed) + Words(hashes[..i])
    {
      assert hashes[..i + 1][..i] == hashes[..i];
      hasher.Update(hashes[i]);
    }
    assert hashes[..|hashes|] == hashes;
  }

  method AbsorbFields(hasher: Keccak, fields: seq<Option<u64>>)
    modifies hasher
    ensures hasher.absorbed == old(hasher.absorbed) + FieldBytes(fields)
  {
    for i := 0 to |fields|
      invariant hasher.absorbed == old(hasher.absorbed) + FieldBytes(fields[..i])
    {
      assert fields[..i + 1][..i] == fields[..i];
      if fields[i].Some? {
        hasher.Update(BigEndian(fields[i].value, 8));
      }
    }
    assert fields[..|fields|] == fields;
  }

  method Hash(b: Bundle) returns (hasher: Keccak)
    ensures fresh(hasher) && hasher.absorbed == Preimage(b)
  {
    hasher := new Keccak();
    Absorb(hasher, TxHashes(b.txs));
    assert hasher.absorbed == Words(TxHashes(b.txs));
    Absorb(hasher, b.revertingTxHashes);
    Absorb(hasher, b.droppingTxHashes);
    AbsorbFields(hasher, Fields(b));
  }

  // --- Where everything lies ----------------------------------------------

  // The number some bytes spell, the first being the most significant.
  function Spelled(bytes: seq<byte>): nat {
    if bytes == [] then 0 else 256 * Spelled(bytes[..|bytes| - 1]) + bytes[|bytes| - 1]
  }

  lemma {:induction false} BigEndianSpells(n: nat, k: nat)
    requires n < Power256(k)
    ensures Spelled(BigEndian(n, k)) == n
  {
    if 0 < k {
      BigEndianSpells(n / 256, k - 1);
      assert BigEndian(n, k)[..k - 1] == BigEndian(n / 256, k - 1);
    }
  }

  // Word i of some hashes.
  lemma {:induction false} WordAt(hashes: seq<B256>, i: nat)
    requires i < |hashes|
    ensures 32 * i + 32 <= |Words(hashes)| && Words(hashes)[32 * i..32 * i + 32] == hashes[i]
  {
    var n := |hashes| - 1;
    WordsLength(hashes);
    WordsLength(hashes[..n]);
    if i < n {
      WordAt(hashes[..n], i);
      assert Words(hashes)[32 * i..32 * i + 32] == Words(hashes[..n])[32 * i..32 * i + 32];
    }
  }

  // How many bytes the fields before field j take.
  function FieldOffset(fields: seq<Option<u64>>, j: nat): nat
    requires j <= |fields|
  {
    if j == 0 then 0 else FieldOffset(fields, j - 1) + (if fields[j - 1].Some? then 8 else 0)
  }

  lemma {:induction false} OffsetOfPrefix(fields: seq<Option<u64>>, n: nat, j: nat)
    requires j <= n <= |fields|
    ensures FieldOffset(fields[..n], j) == FieldOffset(fields, j)
  {
    if 0 < j {
      OffsetOfPrefix(fields, n, j - 1);
    }
  }

  lemma {:induction false} FieldBytesEnd(fields: seq<Option<u64>>)
    ensures |FieldBytes(fields)| == FieldOffset(fields, |fields|)
  {
    if fields != [] {
      FieldBytesEnd(fields[..|fields| - 1]);
      OffsetOfPrefix(fields, |fields| - 1, |fields| - 1);
    }
  }

  lemma {:induction false} FieldAt(fields: seq<Option<u64>>, j: nat)
    requires j < |fields| && fields[j].Some?
    ensures var at := FieldOffset(fields, j);
            at + 8 <= |FieldBytes(fields)| && FieldBytes(fields)[at..at + 8] == BigEndian(fields[j].value, 8)
  {
    var n := |fields| - 1;
    FieldBytesEnd(fields[..n]);
    OffsetOfPrefix(fields, n, j);
    if j < n {
      FieldAt(fields[..n], j);
      var at := FieldOffset(fields, j);
      assert FieldBytes(fields)[at..at + 8] == FieldBytes(fields[..n])[at..at + 8];
    }
  }

  lemma SliceOfPart<T>(a: seq<T>, b: seq<T>, c: seq<T>, lo: nat, hi: nat)
    requires lo <= hi <= |b|
    ensures (a + b + c)[|a| + lo..|a| + hi] == b[lo..hi]
  {
  }

  // Some bytes hold the words of some hashes from a position on.
  ghost predicate HoldsWords(bytes: seq<byte>, from: nat, hashes: seq<B256>) {
    && from + 32 * |hashes| <= |bytes|
    && forall i :: 0 <= i < |hashes| ==> bytes[from + 32 * i..from + 32 * i + 32] == hashes[i]
  }

  // They spell the fields that are present, eight bytes each, in order.
  ghost predicate SpellsFields(bytes: seq<byte>, from: nat, fields: seq<Option<u64>>) {
    && |bytes| == from + FieldOffset(fields, |fields|)
    && forall j :: 0 <= j < |fields| && fields[j].Some? ==>
                     && from + FieldOffset(fields, j) + 8 <= |bytes|
                     && Spelled(bytes[from + FieldOffset(fields, j)..from + FieldOffset(fields, j) + 8])
                        == fields[j].value
  }

  lemma WordsWithin(a: seq<byte>, hashes: seq<B256>, c: seq<byte>)
    ensures HoldsWords(a + Words(hashes) + c, |a|, hashes)
  {
    WordsLength(hashes);
    forall i | 0 <= i < |hashes|
      ensures (a + Words(hashes) + c)[|a| + 32 * i..|a| + 32 * i + 32] == hashes[i]
    {
      WordAt(hashes, i);
      SliceOfPart(a, Words(hashes), c, 32 * i, 32 * i + 32);
    }
  }

  lemma FieldWithin(a: seq<byte>, fields: seq<Option<u64>>, j: nat)
    requires j < |fields| && fields[j].Some?
    ensures var at := FieldOffset(fields, j);
            && |a| + at + 8 <= |a + FieldBytes(fields)|
            && (a + FieldBytes(fields))[|a| + at..|a| + at + 8] == BigEndian(fields[j].value, 8)
  {
    var at := FieldOffset(fields, j);
    FieldAt(fields, j);
    SliceOfEnd(a, FieldBytes(fields), at, at + 8);
  }

  lemma SliceOfEnd<T>(a: seq<T>, b: seq<T>, lo: nat, hi: nat)
    requires lo <= hi <= |b|
    ensures (a + b)[|a| + lo..|a| + hi] == b[lo..hi]
  {
  }

  lemma FieldsWithin(a: seq<byte>, fields: seq<Option<u64>>)
    ensures SpellsFields(a + FieldBytes(fields), |a|, fields)
  {
    FieldBytesEnd(fields);
    forall j | 0 <= j < |fields| && fields[j].Some?
      ensures |a| + FieldOffset(fields, j) + 8 <= |a + FieldBytes(fields)|
      ensures Spelled((a + FieldBytes(fields))[|a| + FieldOffset(fields, j)..|a| + FieldOffset(fields, j) + 8])
              == fields[j].value
    {
      FieldWithin(a, fields, j);
      EightBytesHoldU64(fields[j].value);
      BigEndianSpells(fields[j].value, 8);
    }
  }

  lemma FirstWords(txs: seq<B256>, rest: seq<byte>)
    ensures HoldsWords(Words(txs) + rest, 0, txs)
  {
    WordsWithin([], txs, rest);
    assert [] + Words(txs) + rest == Words(txs) + rest;
  }

  lemma LaterWords(before: seq<byte>, hashes: seq<B256>, rest: seq<byte>, bytes: seq<byte>, from: nat)
    requires bytes == before + Words(hashes) + rest && from == |before|
    ensures HoldsWords(bytes, from, hashes)
  {
    WordsWithin(before, hashes, rest);
  }

  lemma Regroup<T>(a: seq<T>, b: seq<T>, c: seq<T>, d: seq<T>)
    ensures a + b + c + d == a + (b + c + d)
    ensures a + b + c + d == a + b + (c + d)
  {
  }

  lemma ListsLayout(txs: seq<B256>, reverting: seq<B256>, dropping: seq<B256>, fields: seq<Option<u64>>)
    ensures var bytes := Words(txs) + Words(reverting) + Words(dropping) + FieldBytes(fields);
            && HoldsWords(bytes, 0, txs)
            && HoldsWords(bytes, |Words(txs)|, reverting)
            && HoldsWords(bytes, |Words(txs) + Words(reverting)|, dropping)
            && SpellsFields(bytes, |Words(txs) + Words(reverting) + Words(dropping)|, fields)
  {
    var a, b, c, d := Words(txs), Words(reverting), Words(dropping), FieldBytes(fields);
    Regroup(a, b, c, d);
    FirstWords(txs, b + c + d);
    LaterWords(a, reverting, c + d, a + b + c + d, |a|);
    LaterWords(a + b, dropping, d, a + b + c + d, |a + b|);
    FieldsWithin(a + b + c, fields);
  }

  // What the hasher is fed, place by place: the hashes of the transactions, the
  // reverting and the dropping hashes, 32 bytes each, and then the fields that
  // are present, from the block number to the flashblock number, the minimum
  // before the maximum, 8 bytes each with the most significant first.
  lemma PreimageLayout(b: Bundle)
    ensures var n, r := 32 * |b.txs|, 32 * |b.revertingTxHashes|;
            && n <= |Preimage(b)|
            && (forall i :: 0 <= i < |b.txs| ==> Preimage(b)[32 * i..32 * i + 32] == b.txs[i].hash)
            && HoldsWords(Preimage(b), n, b.revertingTxHashes)
            && HoldsWords(Preimage(b), n + r, b.droppingTxHashes)
            && SpellsFields(Preimage(b), n + r + 32 * |b.droppingTxHashes|,
                            [b.minBlockNumber, b.maxBlockNumber, b.minTimestamp, b.maxTimestamp,
                             b.minFlashblockNumber, b.maxFlashblockNumber])
  {
    ListsLayout(TxHashes(b.txs), b.revertingTxHashes, b.droppingTxHashes, Fields(b));
    WordsLength(TxHashes(b.txs));
    WordsLength(b.revertingTxHashes);
    WordsLength(b.droppingTxHashes);
    forall i | 0 <= i < |b.txs|
      ensures Preimage(b)[32 * i..32 * i + 32] == b.txs[i].hash
    {
      assert Preimage(b)[0 + 32 * i..0 + 32 * i + 32] == TxHashes(b.txs)[i];
    }
  }

  // --- Injectivity --------------------------------------------------------

  lemma {:induction false} BigEndianInjective(n: nat, m: nat, k: nat)
    requires n < Power256(k) && m < Power256(k) && BigEndian(n, k) == BigEndian(m, k)
    ensures n == m
  {
    if 0 < k {
      var a, b := BigEndian(n, k), BigEndian(m, k);
      assert a[..k - 1] == BigEndian(n / 256, k - 1) && b[..k - 1] == BigEndian(m / 256, k - 1);
      assert a[k - 1] == n % 256 && b[k - 1] == m % 256;
      BigEndianInjective(n / 256, m / 256, k - 1);
    }
  }

  lemma EightBytesHoldU64(n: u64)
    ensures n < Power256(8)
  {
    assert Power256(4) == 0x1_0000_0000;
    assert Power256(8) == 0x1_0000_0000_0000_0000;
  }

  lemma SplitEqual<T>(a: seq<T>, b: seq<T>, c: seq<T>, d: seq<T>)
    requires a + b == c + d && |a| == |c|
    ensures a == c && b == d
  {
    assert a == (a + b)[..|a|] && c == (c + d)[..|c|];
    assert b == (a + b)[|a|..] && d == (c + d)[|c|..];
  }

  lemma {:induction false} WordsLength(hashes: seq<B256>)
    ensures |Words(hashes)| == 32 * |hashes|
  {
    if hashes != [] {
      WordsLength(hashes[..|hashes| - 1]);
    }
  }

  lemma {:induction false} WordsInjective(a: seq<B256>, b: seq<B256>)
    requires |a| == |b| && Words(a) == Words(b)
    ensures a == b
  {
    if a != [] {
      var n := |a| - 1;
      WordsLength(a[..n]);
      WordsLength(b[..n]);
      SplitEqual(Words(a[..n]), a[n], Words(b[..n]), b[n]);
      WordsInjective(a[..n], b[..n]);
      assert a == a[..n] + [a[n]] && b == b[..n] + [b[n]];
    }
  }

  // Which of the optional fields are present.
  function Present(fields: seq<Option<u64>>): seq<bool> {
    seq(|fields|, i requires 0 <= i < |fields| => fields[i].Some?)
  }

  function CountTrue(flags: seq<bool>): nat {
    if flags == [] then 0 else CountTrue(flags[..|flags| - 1]) + (if flags[|flags| - 1] then 1 else 0)
  }

  lemma {:induction false} FieldBytesLength(fields: seq<Option<u64>>)
    ensures |FieldBytes(fields)| == 8 * CountTrue(Present(fields))
  {
    if fields != [] {
      FieldBytesLength(fields[..|fields| - 1]);
      assert Present(fields)[..|fields| - 1] == Present(fields[..|fields| - 1]);
    }
  }

  lemma {:induction false} FieldBytesInjective(a: seq<Option<u64>>, b: seq<Option<u64>>)
    requires Present(a) == Present(b) && FieldBytes(a) == FieldBytes(b)
    ensures a == b
  {
    assert |a| == |Present(a)| == |b|;
    if a != [] {
      var n := |a| - 1;
      assert Present(a[..n]) == Present(a)[..n] == Present(b[..n]);
      assert Present(a)[n] == Present(b)[n];
      SplitEqualBack(FieldBytes(a[..n]), OptionalBytes(a[n]), FieldBytes(b[..n]), OptionalBytes(b[n]));
      FieldBytesInjective(a[..n], b[..n]);
      OptionalBytesInjective(a[n], b[n]);
      assert a == a[..n] + [a[n]] && b == b[..n] + [b[n]];
    }
  }

  lemma OptionalBytesInjective(a: Option<u64>, b: Option<u64>)
    requires a.Some? == b.Some? && OptionalBytes(a) == OptionalBytes(b)
    ensures a == b
  {
    if a.Some? {
      EightBytesHoldU64(a.value);
      EightBytesHoldU64(b.value);
      BigEndianInjective(a.value, b.value, 8);
    }
  }

  lemma SplitEqualBack<T>(a: seq<T>, b: seq<T>, c: seq<T>, d: seq<T>)
    requires a + b == c + d && |b| == |d|
    ensures a == c && b == d
  {
    assert |a| + |b| == |a + b| == |c + d|;
    SplitEqual(a, b, c, d);
  }

  // The shape of a bundle: the lengths of its lists and which optional fields
  // it has.
  datatype Shape = Shape(txs: nat, reverting: nat, dropping: nat, present: seq<bool>) {
    function Length(): nat {
      32 * (txs + reverting + dropping) + 8 * CountTrue(present)
    }
  }

  function ShapeOf(b: Bundle): Shape {
    Shape(|b.txs|, |b.revertingTxHashes|, |b.droppingTxHashes|, Present(Fields(b)))
  }

  lemma TxHashesInjective(a: seq<Transaction>, b: seq<Transaction>)
    requires TxHashes(a) == TxHashes(b)
    ensures a == b
  {
    assert |a| == |TxHashes(a)| == |b|;
    forall i | 0 <= i < |a|
      ensures a[i] == b[i]
    {
      assert TxHashes(a)[i] == TxHashes(b)[i];
    }
  }

  lemma PreimageLength(b: Bundle)
    ensures |Preimage(b)| == ShapeOf(b).Length()
  {
    WordsLength(TxHashes(b.txs));
    WordsLength(b.revertingTxHashes);
    WordsLength(b.droppingTxHashes);
    FieldBytesLength(Fields(b));
  }

  // Bundles of one shape feed the hasher the same bytes only if they are the
  // same bundle.
  lemma InjectivePerShape(a: Bundle, b: Bundle)
    requires ShapeOf(a) == ShapeOf(b)
    ensures Preimage(a) == Preimage(b) <==> a == b
  {
    if Preimage(a) == Preimage(b) {
      var ta, tb := Words(TxHashes(a.txs)), Words(TxHashes(b.txs));
      var ra, rb := Words(a.revertingTxHashes), Words(b.revertingTxHashes);
      var da, db := Words(a.droppingTxHashes), Words(b.droppingTxHashes);
      WordsLength(TxHashes(a.txs));
      WordsLength(TxHashes(b.txs));
      WordsLength(a.revertingTxHashes);
      WordsLength(b.revertingTxHashes);
      WordsLength(a.droppingTxHashes);
      WordsLength(b.droppingTxHashes);
      SplitEqual(ta + ra + da, FieldBytes(Fields(a)), tb + rb + db, FieldBytes(Fields(b)));
      SplitEqual(ta + ra, da, tb + rb, db);
      SplitEqual(ta, ra, tb, rb);
      WordsInjective(TxHashes(a.txs), TxHashes(b.txs));
      TxHashesInjective(a.txs, b.txs);
      WordsInjective(a.revertingTxHashes, b.revertingTxHashes);
      WordsInjective(a.droppingTxHashes, b.droppingTxHashes);
      FieldBytesInjective(Fields(a), Fields(b));
      SameFields(a, b);
    }
  }

  lemma SameFields(a: Bundle, b: Bundle)
    requires Fields(a) == Fields(b)
    requires a.txs == b.txs && a.revertingTxHashes == b.revertingTxHashes && a.droppingTxHashes == b.droppingTxHashes
    ensures a == b
  {
    assert Fields(a)[0] == Fields(b)[0] && Fields(a)[1] == Fields(b)[1] && Fields(a)[2] == Fields(b)[2];
    assert Fields(a)[3] == Fields(b)[3] && Fields(a)[4] == Fields(b)[4] && Fields(a)[5] == Fields(b)[5];
  }

  // --- Collisions across shapes -------------------------------------------

  function Zeros(n: nat): seq<byte> {
    seq(n, _ => 0)
  }

  function ZeroBundle(s: Shape): Bundle
    requires |s.present| == 6
  {
    Bundle(seq(s.txs, _ => Transaction(ZERO_WORD)), seq(s.reverting, _ => ZERO_WORD), seq(s.dropping, _ => ZERO_WORD),
           ZeroIf(s.present[0]), ZeroIf(s.present[1]), ZeroIf(s.present[2]),
           ZeroIf(s.present[3]), ZeroIf(s.present[4]), ZeroIf(s.present[5]))
  }

  function ZeroIf(present: bool): Option<u64> {
    if present then Some(0) else None
  }

  lemma {:induction false} BigEndianZero(k: nat)
    ensures BigEndian(0, k) == Zeros(k)
  {
    if 0 < k {
      BigEndianZero(k - 1);
    }
  }

  lemma {:induction false} ZeroWords(hashes: seq<B256>)
    requires forall i :: 0 <= i < |hashes| ==> hashes[i] == ZERO_WORD
    ensures Words(hashes) == Zeros(32 * |hashes|)
  {
    if hashes != [] {
      ZeroWords(hashes[..|hashes| - 1]);
      assert ZERO_WORD == Zeros(32);
    }
  }

  lemma {:induction false} ZeroFields(fields: seq<Option<u64>>)
    requires forall i :: 0 <= i < |fields| && fields[i].Some? ==> fields[i].value == 0
    ensures FieldBytes(fields) == Zeros(8 * CountTrue(Present(fields)))
  {
    if fields != [] {
      ZeroFields(fields[..|fields| - 1]);
      BigEndianZero(8);
      assert Present(fields)[..|fields| - 1] == Present(fields[..|fields| - 1]);
    }
  }

  lemma ZeroPreimage(s: Shape)
    requires |s.present| == 6
    ensures ShapeOf(ZeroBundle(s)) == s
    ensures Preimage(ZeroBundle(s)) == Zeros(s.Length())
  {
    var b := ZeroBundle(s);
    assert Present(Fields(b)) == s.present;
    ZeroWords(TxHashes(b.txs));
    ZeroWords(b.revertingTxHashes);
    ZeroWords(b.droppingTxHashes);
    ZeroFields(Fields(b));
  }

  // One hash, listed as allowed to revert or as droppable.
  lemma ListsNotSeparated(tx: Transaction)
    ensures var a := Unbounded([tx]).(revertingTxHashes := [tx.hash]);
            var b := Unbounded([tx]).(droppingTxHashes := [tx.hash]);
            a != b && Preimage(a) == Preimage(b)
  {
    var a := Unbounded([tx]).(revertingTxHashes := [tx.hash]);
    var b := Unbounded([tx]).(droppingTxHashes := [tx.hash]);
    assert Words([]) == [] && Fields(a) == Fields(b);
    assert Words(a.revertingTxHashes) + Words(a.droppingTxHashes)
        == Words(b.revertingTxHashes) + Words(b.droppingTxHashes);
  }

  // Bundles of two shapes can feed the hasher the same bytes exactly when the
  // shapes have the same length in bytes: nothing in the bytes tells a
  // reverting hash from a dropping one, or one optional field from another.
  lemma ShapesCollideIff(s: Shape, t: Shape)
    requires |s.present| == 6 && |t.present| == 6
    ensures (exists a, b :: ShapeOf(a) == s && ShapeOf(b) == t && Preimage(a) == Preimage(b))
            <==> s.Length() == t.Length()
  {
    if s.Length() == t.Length() {
      ZeroPreimage(s);
      ZeroPreimage(t);
      assert ShapeOf(ZeroBundle(s)) == s && ShapeOf(ZeroBundle(t)) == t;
    }
    forall a, b | ShapeOf(a) == s && ShapeOf(b) == t && Preimage(a) == Preimage(b)
      ensures s.Length() == t.Length()
    {
      PreimageLength(a);
      PreimageLength(b);
    }
  }
}
