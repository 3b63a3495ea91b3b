// Shared vocabulary: options, machine integers, bytes and sums of sequences.
module Prelude {

  datatype Option<+T> = None | Some(value: T)

  const U64_MAX: nat := 0xFFFF_FFFF_FFFF_FFFF

  type u64 = n: nat | n <= U64_MAX

  type byte = n: nat | n < 256

  type pos = n: nat | 1 <= n witness 1

  // A 32-byte word: hashes and roots.
  type B256 = s: seq<byte> | |s| == 32 witness seq(32, _ => 0)

  function Min(a: nat, b: nat): nat {
    if a <= b then a else b
  }

  function Max(a: nat, b: nat): nat {
    if a <= b then b else a
  }

  function SaturatingSub(a: nat, b: nat): nat {
    if b <= a then a - b else 0
  }

  // Concatenation of a list of lists.
  function Flatten<T>(parts: seq<seq<T>>): seq<T> {
    if parts == [] then [] else Flatten(parts[..|parts| - 1]) + parts[|parts| - 1]
  }

  lemma {:induction false} FlattenAppend<T>(a: seq<seq<T>>, b: seq<seq<T>>)
    ensures Flatten(a + b) == Flatten(a) + Flatten(b)
  {
    if b == [] {
      assert a + b == a;
    } else {
      var rest := b[..|b| - 1];
      FlattenAppend(a, rest);
      assert (a + b)[..|a + b| - 1] == a + rest;
    }
  }
}
