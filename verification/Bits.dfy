/** Unsigned machine words as natural numbers, with the bitwise operators the
    library uses on them: the power-of-two test, the index mask and the tag bit
    carried in the top of a cursor. */
module Bits {

  function Pow2(k: nat): (p: nat)
    ensures p >= 1
  {
    if k == 0 then 1 else 2 * Pow2(k - 1)
  }

  /** Bitwise conjunction. */
  function And(x: nat, y: nat): (r: nat)
    ensures r <= x && r <= y
  {
    if x == 0 || y == 0 then 0
    else 2 * And(x / 2, y / 2) + (if x % 2 == 1 && y % 2 == 1 then 1 else 0)
  }

  /** Bitwise disjunction. */
  function Or(x: nat, y: nat): (r: nat)
    ensures r >= x && r >= y
    decreases x + y
  {
    if x == 0 then y
    else if y == 0 then x
    else 2 * Or(x / 2, y / 2) + (if x % 2 == 1 || y % 2 == 1 then 1 else 0)
  }

  /** Bit k of x. */
  function Bit(x: nat, k: nat): bool
  {
    if k == 0 then x % 2 == 1 else Bit(x / 2, k - 1)
  }

  /** x + n copies of the modulus reduces to x. */
  lemma {:induction false} ModAddMultiple(x: nat, n: nat, m: nat)
    requires m > 0
    ensures (x + n * m) % m == x % m
  {
    if n > 0 {
      ModAddMultiple(x, n - 1, m);
      ModStep(x + (n - 1) * m, m);
      assert x + n * m == x + (n - 1) * m + m;
    }
  }

  lemma ModStep(a: nat, m: nat)
    requires m > 0
    ensures (a + m) % m == a % m
  {
    var q, r := a / m, a % m;
    assert a + m == m * (q + 1) + r;
    DivModUnique(a + m, m, q + 1, r);
  }

  /** Quotient and remainder are determined by the division identity. */
  lemma DivModUnique(a: nat, m: nat, q: nat, r: nat)
    requires m > 0 && r < m && a == m * q + r
    ensures a / m == q && a % m == r
  {
    var q', r' := a / m, a % m;
    assert m * (q - q') == r' - r;
    if q < q' { MulMono(m, 1, q' - q); }
    if q' < q { MulMono(m, 1, q - q'); }
  }

  lemma MulMono(m: nat, a: nat, b: nat)
    requires a <= b
    ensures m * a <= m * b
  {
    assert m * b == m * a + m * (b - a);
  }

  /** Masking with 2^k - 1 keeps the remainder modulo 2^k. */
  lemma {:induction false} AndMask(x: nat, k: nat)
    ensures And(x, Pow2(k) - 1) == x % Pow2(k)
  {
    hide And;
    AndZero(x);
    if k == 0 {
      DivModUnique(x, 1, x, 0);
    } else if x == 0 {
      AndZero(Pow2(k) - 1);
      DivModUnique(0, Pow2(k), 0, 0);
    } else {
      AndMask(x / 2, k - 1);
      AndOdd(x, Pow2(k - 1));
      HalveMod(x, Pow2(k - 1));
    }
  }

  lemma AndZero(x: nat)
    ensures And(x, 0) == 0 && And(0, x) == 0
  {
  }

  /** An odd mask keeps the last bit. */
  lemma AndOdd(x: nat, h: nat)
    requires h > 0
    ensures And(x, 2 * h - 1) == 2 * And(x / 2, h - 1) + x % 2
  {
    assert (2 * h - 1) / 2 == h - 1 && (2 * h - 1) % 2 == 1;
  }

  lemma HalveMod(x: nat, h: nat)
    requires h > 0
    ensures x % (2 * h) == 2 * ((x / 2) % h) + x % 2
  {
    var q, r := (x / 2) / h, (x / 2) % h;
    assert x == 2 * (h * q + r) + x % 2;
    assert x == (2 * h) * q + (2 * r + x % 2);
    DivModUnique(x, 2 * h, q, 2 * r + x % 2);
  }

  /** `x & (x - 1) == 0` recognizes powers of two, and only those. */
  lemma {:induction false} PassesTest(x: nat) returns (k: nat)
    requires x >= 1 && And(x, x - 1) == 0
    ensures x == Pow2(k)
  {
    if x == 1 {
      k := 0;
    } else {
      // An odd x > 1 shares its upper bits with x - 1.
      var h, g := x / 2, (x - 1) / 2;
      AndSelf(h);
      assert And(x, x - 1) >= 2 * And(h, g);
      assert g == h - 1 && x == 2 * h;
      var j := PassesTest(h);
      k := j + 1;
    }
  }

  lemma {:induction false} PowerPasses(k: nat)
    ensures Pow2(k) >= 1 && And(Pow2(k), Pow2(k) - 1) == 0
  {
    if k > 0 {
      PowerPasses(k - 1);
      var x := Pow2(k);
      assert x == 2 * Pow2(k - 1) && x / 2 == Pow2(k - 1) && (x - 1) / 2 == x / 2 - 1;
    }
  }

  lemma {:induction false} AndSelf(x: nat)
    ensures And(x, x) == x
  {
    if x > 0 { AndSelf(x / 2); }
  }

  /** A clear top bit can be set by adding it. */
  lemma {:induction false} OrFlag(x: nat, k: nat)
    requires x < Pow2(k)
    ensures Or(x, Pow2(k)) == x + Pow2(k)
  {
    if k > 0 && x > 0 {
      OrFlag(x / 2, k - 1);
      assert Pow2(k) / 2 == Pow2(k - 1) && Pow2(k) % 2 == 0;
    }
  }

  /** Testing one bit through a mask that holds only that bit. */
  lemma {:induction false} AndFlag(x: nat, k: nat)
    ensures And(x, Pow2(k)) != 0 <==> Bit(x, k)
  {
    if x == 0 {
      ZeroBit(k);
    } else if k == 0 {
    } else {
      AndFlag(x / 2, k - 1);
      assert Pow2(k) / 2 == Pow2(k - 1) && Pow2(k) % 2 == 0;
    }
  }

  lemma {:induction false} ZeroBit(k: nat)
    ensures !Bit(0, k)
  {
    if k > 0 { ZeroBit(k - 1); }
  }

  /** Setting bit k through a mask turns on bit k and no other. */
  lemma {:induction false} OrBit(x: nat, k: nat, j: nat)
    ensures Bit(Or(x, Pow2(k)), j) <==> (j == k || Bit(x, j))
  {
    if x == 0 {
      PowBit(k, j);
      ZeroBit(j);
    } else if j == 0 {
      if k > 0 { assert Pow2(k) % 2 == 0; }
    } else if k == 0 {
      OrZero(x / 2);
      assert Or(x, 1) / 2 == Or(x / 2, 0);
    } else {
      OrBit(x / 2, k - 1, j - 1);
      assert Pow2(k) / 2 == Pow2(k - 1) && Pow2(k) % 2 == 0;
      assert Or(x, Pow2(k)) / 2 == Or(x / 2, Pow2(k - 1));
    }
  }

  lemma OrZero(x: nat)
    ensures Or(x, 0) == x
  {
  }

  lemma {:induction false} PowBit(k: nat, j: nat)
    ensures Bit(Pow2(k), j) <==> j == k
  {
    if j == 0 {
    } else if k == 0 {
      ZeroBit(j - 1);
    } else {
      PowBit(k - 1, j - 1);
      assert Pow2(k) / 2 == Pow2(k - 1);
    }
  }

  /** A number below 2^k has bit k clear. */
  lemma {:induction false} SmallBit(x: nat, k: nat)
    requires x < Pow2(k)
    ensures !Bit(x, k)
  {
    if k > 0 { SmallBit(x / 2, k - 1); }
  }

  lemma {:induction false} Pow2Square(k: nat)
    ensures Pow2(2 * k) == Pow2(k) * Pow2(k)
  {
    if k > 0 {
      Pow2Square(k - 1);
      var h := Pow2(k - 1);
      assert Pow2(2 * k) == 2 * Pow2(2 * k - 1) == 4 * Pow2(2 * (k - 1)) == 4 * (h * h);
      assert (2 * h) * (2 * h) == 4 * (h * h);
    }
  }
}
