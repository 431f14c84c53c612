/** Fields of a word: `width` bits from bit `offset` on, read and written by masking and shifting.
    Shared by the two mask-based state machines, which use the same expressions. */
module Fields {
  import opened Arithmetic
  import opened Bits
  import opened Power

  // Shifting left by k stays within w bits when x has at most w - k of them.
  lemma ShlFits(x: nat, a: nat, k: nat, w: nat)
    requires x < Pow2(a) && a + k <= w
    ensures Shl(x, k) < Pow2(w)
  {
    hide Pow2;
    Pow2Add(a, k);
    Pow2Mono(a + k, w);
    MulLess(x, Pow2(a), Pow2(k));
  }

  // The bits of a field; all ones for a field as wide as the word.
  function FieldMask(offset: nat, width: nat, w: nat): (m: nat)
    requires offset + width <= w
    ensures m < Pow2(w)
  {
    ShlFits(Ones(width), width, offset, w);
    if width >= w then Ones(w) else Shl(Ones(width), offset)
  }

  // What a field holds: masked out and shifted down.
  function Get(m: nat, offset: nat, width: nat, w: nat): nat
    requires offset + width <= w
  {
    Shr(And(m, FieldMask(offset, width, w)), offset)
  }

  // The word with the field cleared and the value, cut to the width, put in its place.
  function Set(m: nat, offset: nat, width: nat, value: nat, w: nat): nat
    requires offset + width <= w
  {
    Or(And(m, Not(FieldMask(offset, width, w), w)), Shl(And(value, Ones(width)), offset))
  }

  lemma FieldMaskBit(offset: nat, width: nat, w: nat, i: nat)
    requires offset + width <= w
    ensures Bit(FieldMask(offset, width, w), i) == (offset <= i < offset + width)
  {
    hide Bit;
    BitOnes(w, i);
    BitShl(Ones(width), offset, i);
    if offset <= i { BitOnes(width, i - offset); }
  }

  lemma GetBit(m: nat, offset: nat, width: nat, w: nat, i: nat)
    requires offset + width <= w
    ensures Bit(Get(m, offset, width, w), i) == (i < width && Bit(m, offset + i))
  {
    hide Bit, And, FieldMask, Shr;
    FieldMaskBit(offset, width, w, i + offset);
    BitAnd(m, FieldMask(offset, width, w), i + offset);
    BitShr(And(m, FieldMask(offset, width, w)), offset, i);
  }

  lemma ValueBit(value: nat, offset: nat, width: nat, i: nat)
    ensures Bit(Shl(And(value, Ones(width)), offset), i)
      == (offset <= i < offset + width && Bit(value, i - offset))
  {
    hide Bit, And, Shl, Ones;
    BitShl(And(value, Ones(width)), offset, i);
    if offset <= i {
      BitAnd(value, Ones(width), i - offset);
      BitOnes(width, i - offset);
    }
  }

  // Writing a field puts the value's bits into it and leaves every other bit of the word alone.
  lemma SetBit(m: nat, offset: nat, width: nat, value: nat, w: nat, i: nat)
    requires offset + width <= w && m < Pow2(w)
    ensures Bit(Set(m, offset, width, value, w), i)
      == if offset <= i < offset + width then Bit(value, i - offset) else Bit(m, i)
  {
    hide Bit, And, Or, Not, FieldMask, Shl, Ones;
    var mask := FieldMask(offset, width, w);
    var kept := And(m, Not(mask, w));
    FieldMaskBit(offset, width, w, i);
    BitNot(mask, w, i);
    BitAnd(m, Not(mask, w), i);
    ValueBit(value, offset, width, i);
    BitOr(kept, Shl(And(value, Ones(width)), offset), i);
    if w <= i { FitsNoBit(m, w, i); }
  }

  // A written word is again a word of w bits.
  lemma SetFits(m: nat, offset: nat, width: nat, value: nat, w: nat)
    requires offset + width <= w && m < Pow2(w)
    ensures Set(m, offset, width, value, w) < Pow2(w)
  {
    hide Bit, Set;
    var r := Set(m, offset, width, value, w);
    if Pow2(w) <= r {
      var i := HighBit(r, w);
      SetBit(m, offset, width, value, w, i);
      FitsNoBit(m, w, i);
    }
  }

  lemma GetFits(m: nat, offset: nat, width: nat, w: nat)
    requires offset + width <= w
    ensures Get(m, offset, width, w) < Pow2(width)
  {
    hide Bit, Get;
    var r := Get(m, offset, width, w);
    if Pow2(width) <= r {
      var i := HighBit(r, width);
      GetBit(m, offset, width, w, i);
    }
  }

  // The value is cut down to the width of the field.
  lemma GetAfterSet(m: nat, offset: nat, width: nat, value: nat, w: nat)
    requires offset + width <= w && m < Pow2(w)
    ensures Get(Set(m, offset, width, value, w), offset, width, w) == value % Pow2(width)
  {
    hide Bit, Set, Get, And;
    var r := Set(m, offset, width, value, w);
    AndOnes(value, width);
    forall i: nat
      ensures Bit(Get(r, offset, width, w), i) == Bit(And(value, Ones(width)), i)
    {
      GetBit(r, offset, width, w, i);
      SetBit(m, offset, width, value, w, offset + i);
      BitAnd(value, Ones(width), i);
      BitOnes(width, i);
    }
    SameBits(Get(r, offset, width, w), And(value, Ones(width)));
  }

  ghost predicate Disjoint(o1: nat, w1: nat, o2: nat, w2: nat) {
    o1 + w1 <= o2 || o2 + w2 <= o1
  }

  // Writing one field changes no field disjoint from it.
  lemma GetOther(m: nat, offset: nat, width: nat, value: nat, o: nat, wd: nat, w: nat)
    requires offset + width <= w && o + wd <= w && m < Pow2(w) && Disjoint(offset, width, o, wd)
    ensures Get(Set(m, offset, width, value, w), o, wd, w) == Get(m, o, wd, w)
  {
    hide Bit, Set, Get;
    var r := Set(m, offset, width, value, w);
    forall i: nat
      ensures Bit(Get(r, o, wd, w), i) == Bit(Get(m, o, wd, w), i)
    {
      GetBit(r, o, wd, w, i);
      GetBit(m, o, wd, w, i);
      SetBit(m, offset, width, value, w, o + i);
    }
    SameBits(Get(r, o, wd, w), Get(m, o, wd, w));
  }

  // Writing back what a field holds changes nothing.
  lemma SetGet(m: nat, offset: nat, width: nat, w: nat)
    requires offset + width <= w && m < Pow2(w)
    ensures Set(m, offset, width, Get(m, offset, width, w), w) == m
  {
    hide Bit, Set, Get;
    var v := Get(m, offset, width, w);
    forall i: nat
      ensures Bit(Set(m, offset, width, v, w), i) == Bit(m, i)
    {
      SetBit(m, offset, width, v, w, i);
      if offset <= i { GetBit(m, offset, width, w, i - offset); }
    }
    SameBits(Set(m, offset, width, v, w), m);
  }
}
