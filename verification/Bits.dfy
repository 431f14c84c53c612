/** The bit operations of unsigned integers, on numbers: a value of a w-bit unsigned type
    is a number below 2^w, and every operation is pinned down by what it does to each bit. */
module Bits {
  import opened Arithmetic
  import opened Power

  function Bit(x: nat, i: nat): bool {
    if i == 0 then x % 2 == 1 else Bit(x / 2, i - 1)
  }

  function And(x: nat, y: nat): nat {
    if x == 0 || y == 0 then 0
    else 2 * And(x / 2, y / 2) + if x % 2 == 1 && y % 2 == 1 then 1 else 0
  }

  function Or(x: nat, y: nat): nat {
    if x == 0 then y else if y == 0 then x
    else 2 * Or(x / 2, y / 2) + if x % 2 == 1 || y % 2 == 1 then 1 else 0
  }

  // The complement in a w-bit type.
  function Not(x: nat, w: nat): nat
    requires x < Pow2(w)
  {
    Pow2(w) - 1 - x
  }

  function Shl(x: nat, k: nat): nat { x * Pow2(k) }

  function Shr(x: nat, k: nat): nat { if k == 0 then x else Shr(x / 2, k - 1) }

  // The lowest w bits set.
  function Ones(w: nat): nat { Pow2(w) - 1 }

  lemma {:induction false} ZeroBit(i: nat)
    ensures !Bit(0, i)
  {
    if i > 0 { ZeroBit(i - 1); }
  }

  // Two numbers with the same bits are equal.
  lemma {:induction false} SameBits(x: nat, y: nat)
    requires forall i: nat :: Bit(x, i) == Bit(y, i)
    ensures x == y
    decreases x + y
  {
    assert Bit(x, 0) == Bit(y, 0);
    if x != 0 || y != 0 {
      forall i: nat ensures Bit(x / 2, i) == Bit(y / 2, i) { assert Bit(x, i + 1) == Bit(y, i + 1); }
      SameBits(x / 2, y / 2);
    }
  }

  lemma {:induction false} BitAnd(x: nat, y: nat, i: nat)
    ensures Bit(And(x, y), i) == (Bit(x, i) && Bit(y, i))
  {
    ZeroBit(i);
    if x != 0 && y != 0 && i > 0 { BitAnd(x / 2, y / 2, i - 1); }
  }

  lemma {:induction false} BitOr(x: nat, y: nat, i: nat)
    ensures Bit(Or(x, y), i) == (Bit(x, i) || Bit(y, i))
  {
    ZeroBit(i);
    if x != 0 && y != 0 && i > 0 { BitOr(x / 2, y / 2, i - 1); }
  }

  lemma NotStep(x: nat, w: nat)
    requires 0 < w && x < Pow2(w)
    ensures Not(x, w) / 2 == Not(x / 2, w - 1) && Not(x, w) % 2 == 1 - x % 2
  {
    var h := Pow2(w - 1);
    assert Not(x, w) == 2 * (h - 1 - x / 2) + (1 - x % 2);
  }

  lemma {:induction false} BitNot(x: nat, w: nat, i: nat)
    requires x < Pow2(w)
    ensures Bit(Not(x, w), i) == (i < w && !Bit(x, i))
  {
    if w == 0 {
      ZeroBit(i);
    } else {
      NotStep(x, w);
      if i > 0 { BitNot(x / 2, w - 1, i - 1); }
    }
  }

  lemma {:induction false} BitOnes(w: nat, i: nat)
    ensures Bit(Ones(w), i) == (i < w)
  {
    BitNot(0, w, i);
    ZeroBit(i);
  }

  lemma {:induction false} BitShl(x: nat, k: nat, i: nat)
    ensures Bit(Shl(x, k), i) == (k <= i && Bit(x, i - k))
  {
    if k > 0 {
      assert Shl(x, k) == 2 * Shl(x, k - 1) by { assert x * (2 * Pow2(k - 1)) == 2 * (x * Pow2(k - 1)); }
      if i > 0 { BitShl(x, k - 1, i - 1); }
    }
  }

  lemma {:induction false} BitShr(x: nat, k: nat, i: nat)
    ensures Bit(Shr(x, k), i) == Bit(x, i + k)
  {
    if k > 0 { BitShr(x / 2, k - 1, i); }
  }

  // A number that fits in w bits has no bit from w on.
  lemma {:induction false} FitsNoBit(x: nat, w: nat, i: nat)
    requires x < Pow2(w) && w <= i
    ensures !Bit(x, i)
  {
    if w == 0 { ZeroBit(i); } else { FitsNoBit(x / 2, w - 1, i - 1); }
  }

  // A number that does not fit in w bits has one.
  lemma {:induction false} HighBit(x: nat, w: nat) returns (i: nat)
    requires Pow2(w) <= x
    ensures w <= i && Bit(x, i)
  {
    if w == 0 {
      i := SomeBit(x);
    } else {
      i := HighBit(x / 2, w - 1);
      i := i + 1;
    }
  }

  lemma {:induction false} SomeBit(x: nat) returns (i: nat)
    requires 0 < x
    ensures Bit(x, i)
  {
    if x % 2 == 1 {
      i := 0;
    } else {
      i := SomeBit(x / 2);
      i := i + 1;
    }
  }

  lemma ModStep(x: nat, k: nat)
    requires 0 < k
    ensures x % Pow2(k) == 2 * ((x / 2) % Pow2(k - 1)) + x % 2
    ensures x / Pow2(k) == (x / 2) / Pow2(k - 1)
  {
    var p := Pow2(k - 1);
    var q, r := (x / 2) / p, (x / 2) % p;
    assert x / 2 == p * q + r;
    assert x == (2 * p) * q + (2 * r + x % 2) by { assert (2 * p) * q == 2 * (p * q); }
    DivisionIsUnique(2 * p, q, 2 * r + x % 2);
  }

  // Shifting right by k is dividing by 2^k.
  lemma {:induction false} ShrIsQuotient(x: nat, k: nat)
    ensures Shr(x, k) == x / Pow2(k)
  {
    if k > 0 {
      ModStep(x, k);
      ShrIsQuotient(x / 2, k - 1);
    }
  }

  // Masking with 2^k - 1 is taking the remainder modulo 2^k.
  lemma {:induction false} AndOnes(x: nat, k: nat)
    ensures And(x, Ones(k)) == x % Pow2(k)
  {
    if x == 0 {
      if k > 0 { DivisionIsUnique(Pow2(k), 0, 0); }
    } else if k > 0 {
      ModStep(x, k);
      AndOnes(x / 2, k - 1);
      assert Ones(k) / 2 == Ones(k - 1) && Ones(k) % 2 == 1;
    }
  }

  // The i-th bit is the i-th binary digit.
  lemma {:induction false} BitIsDigit(x: nat, i: nat)
    ensures Bit(x, i) == (x / Pow2(i) % 2 == 1)
  {
    if i > 0 {
      ModStep(x, i);
      BitIsDigit(x / 2, i - 1);
    }
  }

  // The bits of a number cut down to w bits.
  lemma LowBits(x: nat, w: nat, i: nat)
    ensures 0 <= x % Pow2(w) < Pow2(w) && Bit(x % Pow2(w), i) == (i < w && Bit(x, i))
  {
    hide Bit, And, Ones;
    AndOnes(x, w);
    BitAnd(x, Ones(w), i);
    BitOnes(w, i);
  }

  // A union is empty only if both parts are.
  lemma OrZero(x: nat, y: nat)
    ensures Or(x, y) == 0 <==> x == 0 && y == 0
  {
    if x != 0 {
      var i := SomeBit(x);
      BitOr(x, y, i);
      ZeroBit(i);
    }
  }

  // The number with bit b only.
  function OneBit(b: nat): nat { Shl(1, b) }

  lemma OneBitBits(b: nat, i: nat)
    ensures Bit(OneBit(b), i) == (i == b)
  {
    hide Bit, Shl;
    BitShl(1, b, i);
    if b <= i { BitOfOne(i - b); }
  }

  lemma BitOfOne(i: nat)
    ensures Bit(1, i) == (i == 0)
  {
    if i > 0 { ZeroBit(i - 1); }
  }

  // All bits of x are in y, as a mask test decides it.
  predicate Within(x: nat, y: nat) { And(y, x) == x }

  lemma WithinBit(x: nat, y: nat, i: nat)
    requires Within(x, y) && Bit(x, i)
    ensures Bit(y, i)
  {
    BitAnd(y, x, i);
  }

  lemma WithinByBits(x: nat, y: nat)
    requires forall i: nat {:trigger Bit(x, i)} :: Bit(x, i) ==> Bit(y, i)
    ensures Within(x, y)
  {
    hide Bit, And;
    forall i: nat ensures Bit(And(y, x), i) == Bit(x, i) { BitAnd(y, x, i); }
    SameBits(And(y, x), x);
  }

  lemma FitsByBits(x: nat, w: nat)
    requires forall i: nat {:trigger Bit(x, i)} :: w <= i ==> !Bit(x, i)
    ensures x < Pow2(w)
  {
    if Pow2(w) <= x { var i := HighBit(x, w); }
  }
}
