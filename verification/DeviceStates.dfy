/** The packed device states of design/mode/states/ex_combine_v3/state_machine.h: `devices` fields of
    `bits` bits each in one unsigned word of w bits.  The three template parameters are symbolic. */
module DeviceStates {
  import opened Bits
  import opened Arithmetic
  import opened Fields
  import opened Power

  datatype Layout = Layout(w: nat, devices: nat, bits: nat)

  // The class's static assertions.
  predicate Valid(a: Layout) {
    0 < a.devices && 0 < a.bits && a.devices * a.bits <= a.w
  }

  const UINT32: nat := 0x1_0000_0000

  function Offset(a: Layout, i: nat): nat { i * a.bits }

  lemma OffsetFits(a: Layout, i: nat)
    requires Valid(a) && i < a.devices
    ensures Offset(a, i) + a.bits <= a.devices * a.bits <= a.w
  {
    MulAtMost(i + 1, a.devices, a.bits);
    assert (i + 1) * a.bits == i * a.bits + a.bits;
  }

  lemma OffsetsDisjoint(a: Layout, i: nat, j: nat)
    requires i != j
    ensures Disjoint(Offset(a, i), a.bits, Offset(a, j), a.bits)
  {
    if i < j { MulAtMost(i + 1, j, a.bits); } else { MulAtMost(j + 1, i, a.bits); }
    assert (i + 1) * a.bits == i * a.bits + a.bits && (j + 1) * a.bits == j * a.bits + a.bits;
  }

  // The mask of a field, not yet shifted to its place.
  function LowMask(a: Layout): nat { if a.bits >= a.w then Ones(a.w) else Ones(a.bits) }

  // The state of device i, returned as a 32-bit number.
  function GetDevice(a: Layout, m: nat, i: nat): nat {
    And(Shr(m, Offset(a, i)), LowMask(a)) % UINT32
  }

  // The mask with the field of device i replaced by the value, cut to the field.
  function SetDevice(a: Layout, m: nat, i: nat, value: nat): nat
    requires Valid(a) && i < a.devices
  {
    OffsetFits(a, i);
    Set(m, Offset(a, i), a.bits, value, a.w)
  }

  // Shifting before masking reads the same field as masking before shifting.
  lemma GetIsField(a: Layout, m: nat, i: nat)
    requires Valid(a) && i < a.devices
    ensures Offset(a, i) + a.bits <= a.w
    ensures GetDevice(a, m, i) == Get(m, Offset(a, i), a.bits, a.w) % UINT32
  {
    OffsetFits(a, i);
    if a.bits >= a.w { WholeWord(a); }
    hide Bit, And, Shr, Ones, Get, Offset;
    var x, y := And(Shr(m, Offset(a, i)), Ones(a.bits)), Get(m, Offset(a, i), a.bits, a.w);
    forall p: nat ensures Bit(x, p) == Bit(y, p) {
      GetBit(m, Offset(a, i), a.bits, a.w, p);
      BitAnd(Shr(m, Offset(a, i)), Ones(a.bits), p);
      BitShr(m, Offset(a, i), p);
      BitOnes(a.bits, p);
    }
    SameBits(x, y);
  }

  lemma WholeWord(a: Layout)
    requires Valid(a) && a.bits >= a.w
    ensures a.bits == a.w
  {
    MulAtMost(1, a.devices, a.bits);
  }

  lemma SetThenGet(a: Layout, m: nat, i: nat, value: nat)
    requires Valid(a) && i < a.devices && m < Pow2(a.w) && value < UINT32
    ensures GetDevice(a, SetDevice(a, m, i, value), i) == value % Pow2(a.bits)
  {
    hide Set, Get, GetDevice, Pow2, Offset;
    GetIsField(a, SetDevice(a, m, i, value), i);
    GetAfterSet(m, Offset(a, i), a.bits, value, a.w);
    SmallResidue(value, Pow2(a.bits));
  }

  lemma SmallResidue(x: nat, c: nat)
    requires 0 < c && x < UINT32
    ensures 0 <= x % c <= x && x % c % UINT32 == x % c
  {
    if x < c { DivisionIsUnique(c, 0, x); }
  }

  // Setting one device's state changes no other device's.
  lemma SetKeepsOthers(a: Layout, m: nat, i: nat, value: nat, j: nat)
    requires Valid(a) && i < a.devices && j < a.devices && i != j && m < Pow2(a.w)
    ensures GetDevice(a, SetDevice(a, m, i, value), j) == GetDevice(a, m, j)
  {
    hide Set, Get, GetDevice, Pow2, Offset;
    GetIsField(a, SetDevice(a, m, i, value), j);
    GetIsField(a, m, j);
    GetIsField(a, m, i);
    OffsetsDisjoint(a, i, j);
    GetOther(m, Offset(a, i), a.bits, value, Offset(a, j), a.bits, a.w);
  }

  // A mask with nothing outside the devices' fields.
  predicate WellFormed(a: Layout, m: nat) { m < Pow2(a.devices * a.bits) }

  lemma SetWellFormed(a: Layout, m: nat, i: nat, value: nat)
    requires Valid(a) && i < a.devices && WellFormed(a, m)
    ensures WellFormed(a, SetDevice(a, m, i, value)) && m < Pow2(a.w)
  {
    hide Bit, Set, Pow2, Offset;
    OffsetFits(a, i);
    Pow2Mono(a.devices * a.bits, a.w);
    var r, n := SetDevice(a, m, i, value), a.devices * a.bits;
    if Pow2(n) <= r {
      var p := HighBit(r, n);
      SetBit(m, Offset(a, i), a.bits, value, a.w, p);
      FitsNoBit(m, n, p);
    }
  }

  // ---------- masks and state arrays ----------

  // The mask of the first n states.
  function Make(a: Layout, states: seq<nat>, n: nat): nat
    requires Valid(a) && n <= |states| == a.devices
  {
    if n == 0 then 0 else SetDevice(a, Make(a, states, n - 1), n - 1, states[n - 1])
  }

  predicate States32(states: seq<nat>) { forall i :: 0 <= i < |states| ==> states[i] < UINT32 }

  lemma {:induction false} MakeWellFormed(a: Layout, states: seq<nat>, n: nat)
    requires Valid(a) && n <= |states| == a.devices
    ensures WellFormed(a, Make(a, states, n)) && Make(a, states, n) < Pow2(a.w)
  {
    hide SetDevice;
    Pow2Mono(a.devices * a.bits, a.w);
    if n > 0 {
      MakeWellFormed(a, states, n - 1);
      SetWellFormed(a, Make(a, states, n - 1), n - 1, states[n - 1]);
    }
  }

  // Decoding a mask that was made gives back every state, cut down to the width of a field.
  lemma {:induction false} DecodeMade(a: Layout, states: seq<nat>, n: nat, i: nat)
    requires Valid(a) && i < n <= |states| == a.devices && States32(states)
    ensures GetDevice(a, Make(a, states, n), i) == states[i] % Pow2(a.bits)
  {
    hide SetDevice, GetDevice, Pow2;
    MakeWellFormed(a, states, n - 1);
    if i == n - 1 {
      SetThenGet(a, Make(a, states, n - 1), i, states[i]);
    } else {
      SetKeepsOthers(a, Make(a, states, n - 1), n - 1, states[n - 1], i);
      DecodeMade(a, states, n - 1, i);
    }
  }

  lemma {:induction false} MakeBit(a: Layout, states: seq<nat>, n: nat, i: nat, q: nat)
    requires Valid(a) && n <= |states| == a.devices && i < a.devices && q < a.bits
    ensures Bit(Make(a, states, n), i * a.bits + q) == (i < n && Bit(states[i], q))
  {
    hide Bit, Set, Pow2;
    var p := i * a.bits + q;
    if n == 0 {
      ZeroBit(p);
    } else {
      MakeWellFormed(a, states, n - 1);
      MakeBit(a, states, n - 1, i, q);
      OffsetFits(a, n - 1);
      OffsetsDisjoint(a, i, i + 1);
      SetBit(Make(a, states, n - 1), (n - 1) * a.bits, a.bits, states[n - 1], a.w, p);
      if i != n - 1 { OffsetsDisjoint(a, i, n - 1); }
    }
  }

  // Bit q of state i is bit i * bits + q of the mask made, and the mask has no bits beyond the devices'.
  lemma MaskBit(a: Layout, states: seq<nat>, i: nat, q: nat, p: nat)
    requires Valid(a) && |states| == a.devices
    ensures i < a.devices && q < a.bits ==> Bit(Make(a, states, a.devices), i * a.bits + q) == Bit(states[i], q)
    ensures a.devices * a.bits <= p ==> !Bit(Make(a, states, a.devices), p)
  {
    hide Bit, Make;
    if i < a.devices && q < a.bits { MakeBit(a, states, a.devices, i, q); }
    if a.devices * a.bits <= p {
      MakeWellFormed(a, states, a.devices);
      FitsNoBit(Make(a, states, a.devices), a.devices * a.bits, p);
    }
  }

  // Bit q of device i's state is bit i * bits + q of the mask, as far as the device and 32 bits reach.
  lemma StateBit(a: Layout, m: nat, i: nat, q: nat)
    requires Valid(a) && i < a.devices
    ensures Bit(GetDevice(a, m, i), q) <==> q < a.bits && q < 32 && Bit(m, i * a.bits + q)
  {
    hide Bit, Get, Pow2, GetDevice;
    GetIsField(a, m, i);
    Pow2Of32();
    var g := Get(m, Offset(a, i), a.bits, a.w);
    LowBits(g, 32, q);
    GetBit(m, Offset(a, i), a.bits, a.w, q);
  }

  ghost predicate SameStates(a: Layout, m: nat, m': nat) {
    forall i: nat {:trigger GetDevice(a, m, i)} :: i < a.devices ==> GetDevice(a, m, i) == GetDevice(a, m', i)
  }

  lemma FieldOfBit(a: Layout, p: nat) returns (i: nat, q: nat)
    requires Valid(a) && p < a.devices * a.bits
    ensures i < a.devices && q < a.bits && p == Offset(a, i) + q
  {
    i, q := p / a.bits, p % a.bits;
    assert p == a.bits * i + q && i * a.bits == a.bits * i;
    if a.devices <= i { MulAtMost(a.devices, i, a.bits); }
  }

  lemma GetIsNarrow(a: Layout, m: nat, i: nat)
    requires Valid(a) && a.bits <= 32 && i < a.devices
    ensures Offset(a, i) + a.bits <= a.w
    ensures GetDevice(a, m, i) == Get(m, Offset(a, i), a.bits, a.w) < Pow2(a.bits)
  {
    hide Get, GetDevice, Offset, Pow2;
    GetIsField(a, m, i);
    GetFits(m, Offset(a, i), a.bits, a.w);
    Pow2Mono(a.bits, 32);
    Pow2Of32();
    var g := Get(m, Offset(a, i), a.bits, a.w);
    assert g < UINT32 ==> g % UINT32 == g;
  }

  // A device's state fits its field and the 32-bit type it is returned in.
  lemma StateFits(a: Layout, m: nat, i: nat)
    requires Valid(a) && i < a.devices
    ensures GetDevice(a, m, i) < Pow2(a.bits) && GetDevice(a, m, i) < UINT32
  {
    Pow2Of32();
    if a.bits <= 32 {
      hide GetDevice, Pow2;
      GetIsNarrow(a, m, i);
      Pow2Mono(a.bits, 32);
    } else {
      Pow2Mono(32, a.bits);
    }
  }

  lemma Pow2Of32()
    ensures Pow2(32) == UINT32
  {
    Pow2Add(16, 16);
    Pow2Add(8, 8);
    assert Pow2(8) == 256;
  }

  // A well-formed mask is determined by the states in it.
  lemma StatesDetermine(a: Layout, m: nat, m': nat)
    requires Valid(a) && a.bits <= 32 && WellFormed(a, m) && WellFormed(a, m') && SameStates(a, m, m')
    ensures m == m'
  {
    hide Bit, Get, GetDevice, Offset, Pow2;
    forall p: nat ensures Bit(m, p) == Bit(m', p) {
      if p < a.devices * a.bits {
        var i, q := FieldOfBit(a, p);
        GetIsNarrow(a, m, i);
        GetIsNarrow(a, m', i);
        GetBit(m, Offset(a, i), a.bits, a.w, q);
        GetBit(m', Offset(a, i), a.bits, a.w, q);
      } else {
        FitsNoBit(m, a.devices * a.bits, p);
        FitsNoBit(m', a.devices * a.bits, p);
      }
    }
    SameBits(m, m');
  }

  function States(a: Layout, m: nat): seq<nat> {
    seq(a.devices, i requires 0 <= i < a.devices => GetDevice(a, m, i))
  }

  // Encoding what was decoded gives back the mask.
  lemma MakeDecoded(a: Layout, m: nat)
    requires Valid(a) && a.bits <= 32 && WellFormed(a, m)
    ensures Make(a, States(a, m), a.devices) == m
  {
    hide GetDevice, Pow2, Make;
    var s := States(a, m);
    MakeWellFormed(a, s, a.devices);
    Pow2Mono(a.bits, 32);
    Pow2Of32();
    forall i | 0 <= i < a.devices ensures s[i] < Pow2(a.bits) { GetIsNarrow(a, m, i); }
    forall i: nat | i < a.devices ensures GetDevice(a, Make(a, s, a.devices), i) == GetDevice(a, m, i) {
      DecodeMade(a, s, a.devices, i);
      DivisionIsUnique(Pow2(a.bits), 0, s[i]);
    }
    StatesDetermine(a, Make(a, s, a.devices), m);
  }

  method MakeMask(a: Layout, states: seq<nat>) returns (m: nat)
    requires Valid(a) && |states| == a.devices && States32(states)
    ensures WellFormed(a, m) && m == Make(a, states, a.devices)
    ensures forall i: nat {:trigger GetDevice(a, m, i)} :: i < a.devices ==>
      GetDevice(a, m, i) == states[i] % Pow2(a.bits)
    ensures forall i: nat, q: nat {:trigger Bit(states[i], q)} :: i < a.devices && q < a.bits ==>
      Bit(m, i * a.bits + q) == Bit(states[i], q)
  {
    hide SetDevice, GetDevice, Pow2, Bit;
    m := 0;
    var i := 0;
    while i < a.devices
      invariant 0 <= i <= a.devices && m == Make(a, states, i)
    {
      m := SetDevice(a, m, i, states[i]);
      i := i + 1;
    }
    MakeWellFormed(a, states, a.devices);
    forall i: nat | i < a.devices ensures GetDevice(a, m, i) == states[i] % Pow2(a.bits) {
      DecodeMade(a, states, a.devices, i);
    }
    forall i: nat, q: nat | i < a.devices && q < a.bits ensures Bit(m, i * a.bits + q) == Bit(states[i], q) {
      MaskBit(a, states, i, q, 0);
    }
  }

  method DecodeMask(a: Layout, m: nat) returns (states: seq<nat>)
    ensures states == States(a, m)
  {
    hide GetDevice;
    states := seq(a.devices, _ => 0);
    var i := 0;
    while i < a.devices
      invariant 0 <= i <= a.devices == |states|
      invariant forall j :: 0 <= j < i ==> states[j] == GetDevice(a, m, j)
    {
      states := states[i := GetDevice(a, m, i)];
      i := i + 1;
    }
  }

  // ---------- no downgrade ----------

  ghost predicate NoDowngrade(a: Layout, from: nat, to: nat) {
    forall i: nat {:trigger GetDevice(a, from, i)} {:trigger GetDevice(a, to, i)} ::
      i < a.devices ==> GetDevice(a, from, i) <= GetDevice(a, to, i)
  }

  method CanTransitionNoDowngrade(a: Layout, from: nat, to: nat) returns (ok: bool)
    ensures ok <==> NoDowngrade(a, from, to)
  {
    hide GetDevice;
    var i := 0;
    while i < a.devices
      invariant 0 <= i <= a.devices
      invariant forall j: nat {:trigger GetDevice(a, from, j)} {:trigger GetDevice(a, to, j)} ::
        j < i ==> GetDevice(a, from, j) <= GetDevice(a, to, j)
    {
      var cur := GetDevice(a, from, i);
      var nxt := GetDevice(a, to, i);
      if nxt < cur { return false; }
      i := i + 1;
    }
    return true;
  }

  // "No device is downgraded" is a preorder on all masks.
  lemma NoDowngradeIsPreorder(a: Layout, x: nat, y: nat, z: nat)
    ensures NoDowngrade(a, x, x)
    ensures NoDowngrade(a, x, y) && NoDowngrade(a, y, z) ==> NoDowngrade(a, x, z)
  {
    hide GetDevice;
  }

  // A state wider than the 32-bit type it is returned in loses its upper bits.
  lemma WideStatesCollide(a: Layout, i: nat)
    requires Valid(a) && 32 < a.bits && i < a.devices
    ensures GetDevice(a, 0, i) == GetDevice(a, UINT32, i)
  {
    hide Bit, And, Shr, Ones, Get, Offset, GetDevice, Pow2;
    GetIsField(a, 0, i);
    GetIsField(a, UINT32, i);
    Pow2Of32();
    assert Shl(1, 32) == UINT32;
    forall p: nat ensures Bit(GetDevice(a, 0, i), p) == Bit(GetDevice(a, UINT32, i), p) {
      LowBits(Get(0, Offset(a, i), a.bits, a.w), 32, p);
      LowBits(Get(UINT32, Offset(a, i), a.bits, a.w), 32, p);
      GetBit(0, Offset(a, i), a.bits, a.w, p);
      GetBit(UINT32, Offset(a, i), a.bits, a.w, p);
      ZeroBit(Offset(a, i) + p);
      if p < 32 { OnlyBit32(a, i, p); }
    }
    SameBits(GetDevice(a, 0, i), GetDevice(a, UINT32, i));
  }

  lemma OneIsSmall()
    ensures 1 < Pow2(1)
  {
  }

  lemma OnlyBit32(a: Layout, i: nat, p: nat)
    requires 32 < a.bits && p < 32
    ensures !Bit(UINT32, Offset(a, i) + p)
  {
    hide Bit, Pow2;
    Pow2Of32();
    assert Shl(1, 32) == UINT32;
    BitShl(1, 32, Offset(a, i) + p);
    if 0 < i {
      MulAtMost(1, i, a.bits);
      OneIsSmall();
      FitsNoBit(1, 1, Offset(a, i) + p - 32);
    }
  }

  ghost predicate Antisymmetric(a: Layout) {
    forall x, y {:trigger NoDowngrade(a, x, y)} ::
      WellFormed(a, x) && WellFormed(a, y) && NoDowngrade(a, x, y) && NoDowngrade(a, y, x) ==> x == y
  }

  // It is a partial order on well-formed masks if and only if a state fits the 32-bit type it is returned in.
  lemma NoDowngradeIsOrderIff(a: Layout)
    requires Valid(a)
    ensures Antisymmetric(a) <==> a.bits <= 32
  {
    hide GetDevice;
    if a.bits <= 32 {
      forall x: nat, y: nat | WellFormed(a, x) && WellFormed(a, y) && NoDowngrade(a, x, y) && NoDowngrade(a, y, x)
        ensures x == y
      {
        assert SameStates(a, x, y);
        StatesDetermine(a, x, y);
      }
    } else {
      forall i: nat | i < a.devices ensures GetDevice(a, 0, i) == GetDevice(a, UINT32, i) { WideStatesCollide(a, i); }
      assert NoDowngrade(a, 0, UINT32) && NoDowngrade(a, UINT32, 0);
      WideMaskFits(a);
    }
  }

  lemma WideMaskFits(a: Layout)
    requires Valid(a) && 32 < a.bits
    ensures WellFormed(a, 0) && WellFormed(a, UINT32)
  {
    Pow2Of32();
    MulAtMost(1, a.devices, a.bits);
    Pow2Mono(33, a.devices * a.bits);
    assert Pow2(33) == 2 * Pow2(32);
  }

  function Larger(a: Layout, from: nat, desired: nat): seq<nat> {
    seq(a.devices, i requires 0 <= i < a.devices =>
      if GetDevice(a, desired, i) < GetDevice(a, from, i) then GetDevice(a, from, i) else GetDevice(a, desired, i))
  }

  function Clamp(a: Layout, from: nat, desired: nat): nat
    requires Valid(a)
  {
    Make(a, Larger(a, from, desired), a.devices)
  }

  method ClampNoDowngrade(a: Layout, from: nat, desired: nat) returns (result: nat)
    requires Valid(a)
    ensures result == Clamp(a, from, desired)
  {
    hide SetDevice, GetDevice;
    result := 0;
    var i := 0;
    while i < a.devices
      invariant 0 <= i <= a.devices && result == Make(a, Larger(a, from, desired), i)
    {
      var cur := GetDevice(a, from, i);
      var want := GetDevice(a, desired, i);
      var allow := if want < cur then cur else want;
      result := SetDevice(a, result, i, allow);
      i := i + 1;
    }
  }

  lemma ClampStates(a: Layout, from: nat, desired: nat, i: nat)
    requires Valid(a) && i < a.devices
    ensures GetDevice(a, Clamp(a, from, desired), i) == Larger(a, from, desired)[i]
  {
    hide GetDevice, Pow2, Make;
    var s := Larger(a, from, desired);
    forall j | 0 <= j < a.devices ensures s[j] < Pow2(a.bits) && s[j] < UINT32 {
      StateFits(a, from, j);
      StateFits(a, desired, j);
    }
    DecodeMade(a, s, a.devices, i);
    DivisionIsUnique(Pow2(a.bits), 0, s[i]);
  }

  // Clamping is the least upper bound: well formed, a downgrade of neither mask, and below every other such mask.
  lemma ClampIsLeastUpperBound(a: Layout, from: nat, desired: nat, other: nat)
    requires Valid(a)
    ensures WellFormed(a, Clamp(a, from, desired))
    ensures NoDowngrade(a, from, Clamp(a, from, desired)) && NoDowngrade(a, desired, Clamp(a, from, desired))
    ensures NoDowngrade(a, from, other) && NoDowngrade(a, desired, other) ==>
      NoDowngrade(a, Clamp(a, from, desired), other)
  {
    hide GetDevice, WellFormed, Make;
    MakeWellFormed(a, Larger(a, from, desired), a.devices);
    forall i: nat | i < a.devices
      ensures GetDevice(a, Clamp(a, from, desired), i) == Larger(a, from, desired)[i]
    {
      ClampStates(a, from, desired, i);
    }
  }

  // A mask that may be entered is entered as it is.
  lemma ClampKeepsAllowed(a: Layout, from: nat, desired: nat)
    requires Valid(a) && a.bits <= 32 && WellFormed(a, desired)
    ensures Clamp(a, from, desired) == desired <==> NoDowngrade(a, from, desired)
  {
    hide GetDevice, WellFormed, Clamp;
    ClampIsLeastUpperBound(a, from, desired, desired);
    NoDowngradeIsOrderIff(a);
    NoDowngradeIsPreorder(a, desired, desired, desired);
  }
}
