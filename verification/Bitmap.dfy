/** The visited set: one bit per vertex in 64-bit words. */
module Bitmap {
  import opened Bits

  /** Index i is marked. */
  predicate Marked(words: seq<nat>, i: nat)
  {
    i / 64 < |words| && Bit(words[i / 64], i % 64)
  }

  lemma SixtyFour()
    ensures Pow2(6) == 64
  {
    assert Pow2(6) == 2 * Pow2(5) == 4 * Pow2(4) == 8 * Pow2(3) == 16 * Pow2(2) == 32 * Pow2(1);
  }

  method Test(words: array<nat>, i: nat) returns (b: bool)
    requires i / 64 < words.Length
    ensures b <==> Marked(words[..], i)
  {
    SixtyFour();
    AndMask(i, 6);
    AndFlag(words[i / 64], i % 64);
    b := And(words[i / 64], Pow2(And(i, 63))) != 0;
  }

  method Mark(words: array<nat>, i: nat)
    requires i / 64 < words.Length
    modifies words
    ensures forall j: nat :: Marked(words[..], j) <==> j == i || Marked(old(words[..]), j)
  {
    SixtyFour();
    AndMask(i, 6);
    ghost var was := words[..];
    words[i / 64] := Or(words[i / 64], Pow2(And(i, 63)));
    forall j: nat ensures Marked(words[..], j) <==> j == i || Marked(was, j) {
      OrBit(was[i / 64], i % 64, j % 64);
      SameBit(i, j);
    }
  }

  lemma SameBit(i: nat, j: nat)
    ensures i == j <==> i / 64 == j / 64 && i % 64 == j % 64
  {
  }

  /** Clearing every word clears every mark. */
  method Clear(words: array<nat>)
    modifies words
    ensures forall j: nat :: !Marked(words[..], j)
  {
    for k := 0 to words.Length
      invariant forall m :: 0 <= m < k ==> words[m] == 0
    {
      words[k] := 0;
    }
    forall j: nat ensures !Marked(words[..], j) { ZeroBit(j % 64); }
  }
}
