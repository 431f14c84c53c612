/** The activation greedy of craft/class/multi_definition/test2.cpp.

    An item may be activated while its limit exceeds the number of active items; then every item,
    active or not, whose limit is at most the new number of active items is out for good.  The
    algorithm never looks at anything but the smallest limit available and yet is optimal. */
module MaxTotal {
  import opened Containers
  import opened Multisets

  datatype Item = Item(value: int, limit: int)

  // ---------- the rules ----------

  datatype Game = Game(pending: seq<Item>, active: seq<Item>)

  // The items whose limit exceeds x.
  function Keep(s: seq<Item>, x: int): seq<Item> {
    if s == [] then []
    else
      var rest := Keep(s[..|s| - 1], x);
      if s[|s| - 1].limit > x then rest + [s[|s| - 1]] else rest
  }

  ghost predicate CanActivate(g: Game, p: nat) {
    p < |g.pending| && |g.active| < g.pending[p].limit
  }

  ghost function Activate(g: Game, p: nat): Game
    requires CanActivate(g, p)
  {
    var x := |g.active| + 1;
    Game(Keep(g.pending[..p] + g.pending[p + 1..], x), Keep(g.active + [g.pending[p]], x))
  }

  // An order of activation: at each point, which of the pending items comes next.
  ghost predicate ValidOrder(g: Game, order: seq<nat>)
    decreases |order|
  {
    order == [] || (CanActivate(g, order[0]) && ValidOrder(Activate(g, order[0]), order[1..]))
  }

  ghost function Gain(g: Game, order: seq<nat>): int
    requires ValidOrder(g, order)
    decreases |order|
  {
    if order == [] then 0 else g.pending[order[0]].value + Gain(Activate(g, order[0]), order[1..])
  }

  ghost function Play(g: Game, order: seq<nat>): Game
    requires ValidOrder(g, order)
    decreases |order|
  {
    if order == [] then g else Play(Activate(g, order[0]), order[1..])
  }

  lemma {:induction false} PlayOneMore(g: Game, order: seq<nat>, p: nat)
    requires ValidOrder(g, order) && CanActivate(Play(g, order), p)
    ensures ValidOrder(g, order + [p])
    ensures Play(g, order + [p]) == Activate(Play(g, order), p)
    ensures Gain(g, order + [p]) == Gain(g, order) + Play(g, order).pending[p].value
    decreases |order|
  {
    if order == [] {
      assert [p][1..] == [];
    } else {
      PlayOneMore(Activate(g, order[0]), order[1..], p);
      assert (order + [p])[1..] == order[1..] + [p];
    }
  }

  // ---------- the largest values of a bucket ----------

  ghost function Max(b: multiset<int>): (m: int)
    requires b != multiset{}
    ensures IsMax(b, m)
  {
    MaxExists(b);
    var m :| IsMax(b, m);
    m
  }

  // The sum of the k largest values, or of all if there are fewer.
  ghost function TopSum(b: multiset<int>, k: int): int
    decreases |b|
  {
    if k <= 0 || b == multiset{} then 0 else Max(b) + TopSum(b - multiset{Max(b)}, k - 1)
  }

  // Taking any value first and then the k - 1 largest of the others gains no more.
  lemma {:induction false} TopSumTake(b: multiset<int>, v: int, k: int)
    requires v in b && 1 <= k
    ensures v + TopSum(b - multiset{v}, k - 1) <= TopSum(b, k)
    decreases |b|
  {
    var m := Max(b);
    var rest := b - multiset{v};
    if v != m && 2 <= k {
      assert m in rest && Max(rest) == m by { assert forall u :: u in rest ==> u in b; }
      assert rest - multiset{m} == b - multiset{m} - multiset{v};
      TopSumTake(b - multiset{m}, v, k - 1);
    }
  }

  ghost function Sum(s: seq<int>): int {
    if s == [] then 0 else Sum(s[..|s| - 1]) + s[|s| - 1]
  }

  // No k values of the bucket add up to more.
  lemma {:induction false} TopSumIsBest(b: multiset<int>, c: seq<int>)
    requires multiset(c) <= b
    ensures Sum(c) <= TopSum(b, |c|)
  {
    if c != [] {
      var n := |c| - 1;
      assert c == c[..n] + [c[n]];
      TopSumIsBest(b - multiset{c[n]}, c[..n]);
      TopSumTake(b, c[n], |c|);
    }
  }

  // And some min(k, |b|) values of it add up to as much.
  lemma {:induction false} TopSumIsAttained(b: multiset<int>, k: nat) returns (c: seq<int>)
    ensures multiset(c) <= b && |c| == (if k < |b| then k else |b|) && Sum(c) == TopSum(b, k)
    decreases |b|
  {
    if k == 0 || b == multiset{} {
      c := [];
    } else {
      var m := Max(b);
      assert TopSum(b, k) == m + TopSum(b - multiset{m}, k - 1);
      hide TopSum, IsMax;
      var rest := TopSumIsAttained(b - multiset{m}, k - 1);
      c := rest + [m];
      assert c[..|rest|] == rest;
      assert multiset(c) == multiset(rest) + multiset{m};
    }
  }

  // The same, leaving out values below lo.
  ghost function TopFrom(b: multiset<int>, k: int, lo: int): int
    decreases |b|
  {
    if k <= 0 || b == multiset{} || Max(b) < lo then 0 else Max(b) + TopFrom(b - multiset{Max(b)}, k - 1, lo)
  }

  lemma {:induction false} NoneLeftOut(b: multiset<int>, k: int, lo: int)
    requires forall v :: v in b ==> lo <= v
    ensures TopFrom(b, k, lo) == TopSum(b, k)
    decreases |b|
  {
    if 0 < k && b != multiset{} { NoneLeftOut(b - multiset{Max(b)}, k - 1, lo); }
  }

  lemma {:induction false} TopFromZero(b: multiset<int>, k: int)
    ensures 0 <= TopFrom(b, k, 0)
    decreases |b|
  {
    if 0 < k && b != multiset{} { TopFromZero(b - multiset{Max(b)}, k - 1); }
  }

  lemma TopFirst(b: multiset<int>, v: int, k: int, lo: int)
    requires IsMax(b, v) && 1 <= k && lo <= v
    ensures TopFrom(b, k, lo) == v + TopFrom(b - multiset{v}, k - 1, lo)
  {
  }

  lemma MaxOfRest(b: multiset<int>, v: int)
    requires v in b && v != Max(b)
    ensures b - multiset{v} != multiset{} && Max(b - multiset{v}) == Max(b)
  {
    var m, rest := Max(b), b - multiset{v};
    assert m in rest;
    assert forall u :: u in rest ==> u in b;
  }

  // Taking any value first, even one that costs, gains no more than the non-negative top.
  lemma {:induction false} TopFromTake(b: multiset<int>, v: int, k: int)
    requires v in b && 1 <= k
    ensures v + TopFrom(b - multiset{v}, k - 1, 0) <= TopFrom(b, k, 0)
    decreases |b|
  {
    var m := Max(b);
    if v != m {
      MaxOfRest(b, v);
      TopFromZero(b - multiset{m}, k - 1);
      if 2 <= k {
        assert b - multiset{v} - multiset{m} == b - multiset{m} - multiset{v};
        TopFromTake(b - multiset{m}, v, k - 1);
      }
    } else if m < 0 {
      NegativeTop(b - multiset{m}, k - 1);
    }
  }

  lemma NegativeTop(b: multiset<int>, k: int)
    requires forall v :: v in b ==> v < 0
    ensures TopFrom(b, k, 0) == 0
  {
  }

  // ---------- items by limit ----------

  ghost function Worth(it: Item, l: int): multiset<int> {
    if it.limit == l then multiset{it.value} else multiset{}
  }

  // The values of the items with limit l.
  ghost function Bucket(s: seq<Item>, l: int): multiset<int> {
    if s == [] then multiset{}
    else
      Bucket(s[..|s| - 1], l) + Worth(s[|s| - 1], l)
  }

  ghost function Limits(s: seq<Item>): multiset<int> {
    if s == [] then multiset{} else Limits(s[..|s| - 1]) + multiset{s[|s| - 1].limit}
  }

  lemma BucketOneMore(s: seq<Item>, it: Item, l: int)
    ensures Bucket(s + [it], l) == Bucket(s, l) + Worth(it, l)
  {
    assert (s + [it])[..|s|] == s;
  }

  lemma {:induction false} BucketRemove(s: seq<Item>, p: nat, l: int)
    requires p < |s|
    ensures Bucket(s, l) == Bucket(s[..p] + s[p + 1..], l) + Worth(s[p], l)
  {
    var n := |s| - 1;
    var r := s[..p] + s[p + 1..];
    hide Bucket, Worth;
    assert s == s[..n] + [s[n]];
    BucketOneMore(s[..n], s[n], l);
    if p == n {
      assert r == s[..n];
    } else {
      BucketRemove(s[..n], p, l);
      var r' := s[..n][..p] + s[..n][p + 1..];
      assert r == r' + [s[n]];
      BucketOneMore(r', s[n], l);
      SwapLast(Bucket(r', l), Worth(s[p], l), Worth(s[n], l));
    }
  }

  lemma {:induction false} BucketKeep(s: seq<Item>, x: int, l: int)
    ensures Bucket(Keep(s, x), l) == if l <= x then multiset{} else Bucket(s, l)
  {
    if s != [] {
      var n := |s| - 1;
      BucketKeep(s[..n], x, l);
      BucketOneMore(Keep(s[..n], x), s[n], l);
    }
  }

  lemma LimitsOneMore(s: seq<Item>, it: Item)
    ensures Limits(s + [it]) == Limits(s) + multiset{it.limit}
  {
    assert (s + [it])[..|s|] == s;
  }

  lemma {:induction false} LimitsKeep(s: seq<Item>, x: int, l: int)
    ensures Limits(Keep(s, x))[l] == if l <= x then 0 else Limits(s)[l]
  {
    if s != [] {
      var n := |s| - 1;
      LimitsKeep(s[..n], x, l);
      LimitsOneMore(Keep(s[..n], x), s[n]);
    }
  }

  lemma {:induction false} LimitsSize(s: seq<Item>)
    ensures |Limits(s)| == |s|
  {
    if s != [] { LimitsSize(s[..|s| - 1]); }
  }

  // Some pending item has a given limit and value.
  lemma {:induction false} FindItem(s: seq<Item>, l: int, v: int) returns (p: nat)
    requires v in Bucket(s, l)
    ensures p < |s| && s[p] == Item(v, l)
  {
    var n := |s| - 1;
    if s[n] == Item(v, l) { p := n; } else { p := FindItem(s[..n], l, v); }
  }

  lemma {:induction false} BucketHolds(s: seq<Item>, p: nat)
    requires p < |s|
    ensures s[p].value in Bucket(s, s[p].limit)
  {
    BucketRemove(s, p, s[p].limit);
  }

  // What an activation does to each bucket and to the active limits.
  ghost predicate BucketAfter(g: Game, p: nat, l: int)
    requires CanActivate(g, p)
  {
    Bucket(Activate(g, p).pending, l) ==
      if l <= |g.active| + 1 then multiset{}
      else if g.pending[p].limit == l then Bucket(g.pending, l) - multiset{g.pending[p].value}
      else Bucket(g.pending, l)
  }

  lemma ActivateBucket(g: Game, p: nat, l: int)
    requires CanActivate(g, p)
    ensures BucketAfter(g, p, l)
  {
    hide Bucket, Keep;
    BucketRemove(g.pending, p, l);
    BucketKeep(g.pending[..p] + g.pending[p + 1..], |g.active| + 1, l);
    AddTakeOne(Bucket(g.pending[..p] + g.pending[p + 1..], l), g.pending[p].value);
    AddNothing(Bucket(g.pending[..p] + g.pending[p + 1..], l));
  }

  lemma ActivateLimits(g: Game, p: nat, l: int)
    requires CanActivate(g, p)
    ensures Limits(Activate(g, p).active)[l] ==
      if l <= |g.active| + 1 then 0 else Limits(g.active)[l] + if g.pending[p].limit == l then 1 else 0
  {
    hide Limits, Keep;
    LimitsOneMore(g.active, g.pending[p]);
    LimitsKeep(g.active + [g.pending[p]], |g.active| + 1, l);
  }

  // ---------- no order does better ----------

  // What a bucket can still gain from values not below lo: no more items than its limit can ever be active.
  ghost function Room(g: Game, l: int, lo: int): int {
    TopFrom(Bucket(g.pending, l), l - Limits(g.active)[l], lo)
  }

  // What the limits up to n can still gain.
  ghost function Bound(g: Game, n: nat, lo: int): int {
    if n == 0 then 0 else Bound(g, n - 1, lo) + Room(g, n, lo)
  }

  lemma BoundStep(g: Game, n: nat, lo: int)
    ensures Bound(g, n, lo) == if n == 0 then 0 else Bound(g, n - 1, lo) + Room(g, n, lo)
  {
  }

  lemma {:induction false} LimitsAtMost(s: seq<Item>, l: int)
    ensures Limits(s)[l] <= |s|
  {
    if s != [] { LimitsAtMost(s[..|s| - 1], l); }
  }

  lemma RoomShrinks(g: Game, p: nat, l: int)
    requires CanActivate(g, p)
    ensures Room(Activate(g, p), l, 0) + (if g.pending[p].limit == l then g.pending[p].value else 0) <= Room(g, l, 0)
  {
    hide Bucket, Limits, TopFrom, Activate;
    var it, b, k := g.pending[p], Bucket(g.pending, l), l - Limits(g.active)[l];
    ActivateBucket(g, p, l);
    ActivateLimits(g, p, l);
    TopFromZero(b, k);
    if it.limit == l {
      LimitsAtMost(g.active, l);
      BucketHolds(g.pending, p);
      TopFromTake(b, it.value, k);
      TopFromZero(b - multiset{it.value}, k - 1);
    }
    NothingLeft(l - Limits(Activate(g, p).active)[l], 0);
  }

  lemma NothingLeft(k: int, lo: int)
    ensures TopFrom(multiset{}, k, lo) == 0
  {
  }

  lemma {:induction false} BoundShrinks(g: Game, p: nat, n: nat)
    requires CanActivate(g, p)
    ensures Bound(Activate(g, p), n, 0) + (if 1 <= g.pending[p].limit <= n then g.pending[p].value else 0)
      <= Bound(g, n, 0)
  {
    hide Room, Activate, Bound;
    BoundStep(g, n, 0);
    BoundStep(Activate(g, p), n, 0);
    if n > 0 {
      BoundShrinks(g, p, n - 1);
      RoomShrinks(g, p, n);
    }
  }

  lemma {:induction false} BoundNonNegative(g: Game, n: nat)
    ensures 0 <= Bound(g, n, 0)
  {
    hide Room, Bound;
    BoundStep(g, n, 0);
    if n > 0 {
      BoundNonNegative(g, n - 1);
      RoomNonNegative(g, n);
    }
  }

  lemma RoomNonNegative(g: Game, l: int)
    ensures 0 <= Room(g, l, 0)
  {
    TopFromZero(Bucket(g.pending, l), l - Limits(g.active)[l]);
  }

  ghost predicate LimitsUpTo(s: seq<Item>, n: int) {
    forall p {:trigger s[p]} :: 0 <= p < |s| ==> s[p].limit <= n
  }

  lemma {:induction false} KeepIsFrom(s: seq<Item>, x: int)
    ensures forall it :: it in Keep(s, x) ==> it in s && it.limit > x
  {
    if s != [] { KeepIsFrom(s[..|s| - 1], x); }
  }

  lemma ActivateIsFrom(g: Game, p: nat)
    requires CanActivate(g, p)
    ensures forall it :: it in Activate(g, p).pending ==> it in g.pending && it.limit > |g.active| + 1
    ensures forall it :: it in Activate(g, p).active ==>
      (it in g.active || it == g.pending[p]) && it.limit > |g.active| + 1
  {
    var r := g.pending[..p] + g.pending[p + 1..];
    KeepIsFrom(r, |g.active| + 1);
    KeepIsFrom(g.active + [g.pending[p]], |g.active| + 1);
  }

  // No order of activation gains more than the bound.
  lemma {:induction false} NoOrderBeatsBound(g: Game, order: seq<nat>, n: nat)
    requires ValidOrder(g, order) && LimitsUpTo(g.pending, n)
    ensures Gain(g, order) <= Bound(g, n, 0)
    decreases |order|
  {
    hide Activate, Bound;
    if order == [] {
      BoundNonNegative(g, n);
    } else {
      LimitsUpToKept(g, order[0], n);
      BoundShrinks(g, order[0], n);
      NoOrderBeatsBound(Activate(g, order[0]), order[1..], n);
    }
  }

  lemma LimitsUpToKept(g: Game, p: nat, n: int)
    requires CanActivate(g, p) && LimitsUpTo(g.pending, n)
    ensures LimitsUpTo(Activate(g, p).pending, n)
  {
    ActivateIsFrom(g, p);
  }

  // ---------- the greedy choice loses nothing ----------

  // A pending item that matters to a player who leaves out values below lo.
  ghost predicate InPlay(g: Game, b: Item, lo: int) {
    b in g.pending && 1 <= b.limit && lo <= b.value
  }

  // Every limit still in play exceeds t, which is at least the number of active items, and no item
  // in play has a smaller limit than an active one.
  ghost predicate Ordered(g: Game, t: int, lo: int) {
    && |g.active| <= t
    && (forall a :: a in g.active ==> t < a.limit)
    && (forall b {:trigger InPlay(g, b, lo)} :: InPlay(g, b, lo) ==> t < b.limit)
    && (forall a, b {:trigger a in g.active, InPlay(g, b, lo)} ::
          a in g.active && InPlay(g, b, lo) ==> a.limit <= b.limit)
  }

  // A largest value among the items of the smallest limit in play.
  ghost predicate Greedy(g: Game, p: nat, lo: int) {
    && CanActivate(g, p) && InPlay(g, g.pending[p], lo)
    && IsMax(Bucket(g.pending, g.pending[p].limit), g.pending[p].value)
    && forall b {:trigger InPlay(g, b, lo)} :: InPlay(g, b, lo) ==> g.pending[p].limit <= b.limit
  }

  lemma {:induction false} AllOfLimit(s: seq<Item>, l: int)
    requires forall it :: it in s ==> it.limit == l
    ensures Limits(s)[l] == |s|
  {
    if s != [] { AllOfLimit(s[..|s| - 1], l); }
  }

  // A bucket with no item in play has nothing to gain.
  lemma IdleBucket(g: Game, l: int, lo: int, k: int)
    requires 1 <= l && forall b {:trigger InPlay(g, b, lo)} :: InPlay(g, b, lo) ==> b.limit != l
    ensures TopFrom(Bucket(g.pending, l), k, lo) == 0
  {
    var s := Bucket(g.pending, l);
    if s != multiset{} {
      var p := FindItem(g.pending, l, Max(s));
      assert !InPlay(g, g.pending[p], lo);
    }
  }

  // If the choice fills its limit up, the active items were all of that limit.
  lemma LastOfItsLimit(g: Game, p: nat, t: int, lo: int)
    requires Ordered(g, t, lo) && Greedy(g, p, lo) && g.pending[p].limit == |g.active| + 1
    ensures Limits(g.active)[g.pending[p].limit] == |g.active|
  {
    AllOfLimit(g.active, g.pending[p].limit);
  }

  lemma SmallerRoom(g: Game, p: nat, l: int, lo: int)
    requires Greedy(g, p, lo) && 1 <= l < g.pending[p].limit
    ensures Room(g, l, lo) == 0 && Room(Activate(g, p), l, lo) == 0
  {
    hide Bucket, Limits, Activate, IsMax, TopFrom;
    var k' := l - Limits(Activate(g, p).active)[l];
    IdleBucket(g, l, lo, l - Limits(g.active)[l]);
    IdleBucket(g, l, lo, k');
    hide Greedy, InPlay;
    ActivateBucket(g, p, l);
    NothingLeft(k', lo);
  }

  lemma LargerRoom(g: Game, p: nat, l: int, lo: int)
    requires CanActivate(g, p) && g.pending[p].limit < l
    ensures Room(Activate(g, p), l, lo) == Room(g, l, lo)
  {
    hide Bucket, Limits, TopFrom, Activate;
    ActivateBucket(g, p, l);
    ActivateLimits(g, p, l);
  }

  lemma NoneTaken(b: multiset<int>, lo: int)
    ensures TopFrom(b, 0, lo) == 0
  {
  }

  // The chosen item's own bucket, when the choice fills its limit up.
  lemma LastRoom(g: Game, p: nat, lo: int)
    requires CanActivate(g, p) && g.pending[p].limit == |g.active| + 1 && lo <= g.pending[p].value
    requires Limits(g.active)[g.pending[p].limit] == |g.active|
    requires IsMax(Bucket(g.pending, g.pending[p].limit), g.pending[p].value)
    ensures Room(Activate(g, p), g.pending[p].limit, lo) + g.pending[p].value == Room(g, g.pending[p].limit, lo)
  {
    hide Bucket, Limits, TopFrom, Activate, IsMax;
    var it := g.pending[p];
    var b := Bucket(g.pending, it.limit);
    ActivateBucket(g, p, it.limit);
    ActivateLimits(g, p, it.limit);
    TopFirst(b, it.value, 1, lo);
    NothingLeft(it.limit, lo);
    NoneTaken(b - multiset{it.value}, lo);
  }

  // And when it does not.
  lemma NextRoom(g: Game, p: nat, lo: int)
    requires CanActivate(g, p) && g.pending[p].limit > |g.active| + 1 && lo <= g.pending[p].value
    requires IsMax(Bucket(g.pending, g.pending[p].limit), g.pending[p].value)
    ensures Room(Activate(g, p), g.pending[p].limit, lo) + g.pending[p].value == Room(g, g.pending[p].limit, lo)
  {
    hide Bucket, Limits, TopFrom, Activate, IsMax;
    var it := g.pending[p];
    LimitsAtMost(g.active, it.limit);
    ActivateBucket(g, p, it.limit);
    ActivateLimits(g, p, it.limit);
    TopFirst(Bucket(g.pending, it.limit), it.value, it.limit - Limits(g.active)[it.limit], lo);
  }

  lemma GreedyRoom(g: Game, p: nat, t: int, l: int, lo: int)
    requires Ordered(g, t, lo) && Greedy(g, p, lo) && 1 <= l
    ensures Room(Activate(g, p), l, lo) + (if g.pending[p].limit == l then g.pending[p].value else 0) == Room(g, l, lo)
  {
    hide Room, Activate, Ordered, IsMax, Bucket, Limits;
    if l < g.pending[p].limit {
      SmallerRoom(g, p, l, lo);
    } else if l > g.pending[p].limit {
      LargerRoom(g, p, l, lo);
    } else if l == |g.active| + 1 {
      LastOfItsLimit(g, p, t, lo);
      LastRoom(g, p, lo);
    } else {
      NextRoom(g, p, lo);
    }
  }

  ghost predicate RoomConserved(g: Game, p: nat, l: int, lo: int)
    requires CanActivate(g, p)
  {
    Room(Activate(g, p), l, lo) + (if g.pending[p].limit == l then g.pending[p].value else 0) == Room(g, l, lo)
  }

  lemma {:induction false} BoundConserved(g: Game, p: nat, n: nat, lo: int)
    requires CanActivate(g, p)
    requires forall l {:trigger RoomConserved(g, p, l, lo)} :: 1 <= l <= n ==> RoomConserved(g, p, l, lo)
    ensures Bound(Activate(g, p), n, lo) + (if 1 <= g.pending[p].limit <= n then g.pending[p].value else 0)
      == Bound(g, n, lo)
  {
    hide Room, Activate, Bound;
    BoundStep(g, n, lo);
    BoundStep(Activate(g, p), n, lo);
    if n > 0 {
      assert RoomConserved(g, p, n, lo);
      BoundConserved(g, p, n - 1, lo);
    }
  }

  lemma GreedyBound(g: Game, p: nat, t: int, n: nat, lo: int)
    requires Ordered(g, t, lo) && Greedy(g, p, lo)
    ensures Bound(Activate(g, p), n, lo) + (if 1 <= g.pending[p].limit <= n then g.pending[p].value else 0)
      == Bound(g, n, lo)
  {
    assert CanActivate(g, p);
    hide Room, Activate, Ordered, Greedy, Bound;
    forall l | 1 <= l <= n ensures RoomConserved(g, p, l, lo) { GreedyRoom(g, p, t, l, lo); }
    BoundConserved(g, p, n, lo);
  }

  lemma {:induction false} KeepShorter(s: seq<Item>, x: int)
    ensures |Keep(s, x)| <= |s|
  {
    if s != [] { KeepShorter(s[..|s| - 1], x); }
  }

  lemma GreedyOrdered(g: Game, p: nat, t: int, lo: int)
    requires Ordered(g, t, lo) && Greedy(g, p, lo)
    ensures Ordered(Activate(g, p), |g.active| + 1, lo)
    ensures |Activate(g, p).pending| < |g.pending|
  {
    ActivateIsFrom(g, p);
    KeepShorter(g.pending[..p] + g.pending[p + 1..], |g.active| + 1);
    KeepShorter(g.active + [g.pending[p]], |g.active| + 1);
    hide Activate, IsMax, Bucket;
    var g' := Activate(g, p);
    assert forall b {:trigger InPlay(g', b, lo)} :: InPlay(g', b, lo) ==> InPlay(g, b, lo);
  }

  // ---------- the bound is reached ----------

  lemma {:induction false} IdleBound(g: Game, n: nat, lo: int)
    requires forall b {:trigger InPlay(g, b, lo)} :: !InPlay(g, b, lo)
    ensures Bound(g, n, lo) == 0
  {
    hide Room, InPlay, Bound;
    BoundStep(g, n, lo);
    if n > 0 {
      IdleBound(g, n - 1, lo);
      IdleRoom(g, n, lo);
    }
  }

  lemma IdleRoom(g: Game, l: int, lo: int)
    requires 1 <= l && forall b {:trigger InPlay(g, b, lo)} :: !InPlay(g, b, lo)
    ensures Room(g, l, lo) == 0
  {
    IdleBucket(g, l, lo, l - Limits(g.active)[l]);
  }

  // While an item is in play there is a greedy choice.
  lemma GreedyExists(g: Game, t: int, lo: int, b: Item) returns (p: nat)
    requires Ordered(g, t, lo) && InPlay(g, b, lo)
    ensures Greedy(g, p, lo)
  {
    var limits := set c | c in g.pending && InPlay(g, c, lo) :: c.limit;
    assert b.limit in limits;
    LeastExists(limits);
    var l :| IsLeast(limits, l);
    var c :| InPlay(g, c, lo) && c.limit == l;
    var q :| 0 <= q < |g.pending| && g.pending[q] == c;
    BucketHolds(g.pending, q);
    p := FindItem(g.pending, l, Max(Bucket(g.pending, l)));
    assert InPlay(g, g.pending[p], lo);
    assert forall d {:trigger InPlay(g, d, lo)} :: InPlay(g, d, lo) ==> d.limit in limits;
  }

  lemma {:induction false} BoundIsReached(g: Game, t: int, n: nat) returns (order: seq<nat>)
    requires Ordered(g, t, 0) && LimitsUpTo(g.pending, n)
    ensures ValidOrder(g, order) && Gain(g, order) == Bound(g, n, 0)
    decreases |g.pending|
  {
    hide Bound, Activate, Ordered;
    if b :| InPlay(g, b, 0) {
      var p := GreedyExists(g, t, 0, b);
      GreedyBound(g, p, t, n, 0);
      GreedyOrdered(g, p, t, 0);
      LimitsUpToKept(g, p, n);
      var rest := BoundIsReached(Activate(g, p), |g.active| + 1, n);
      order := [p] + rest;
      assert order[1..] == rest;
    } else {
      IdleBound(g, n, 0);
      order := [];
    }
  }

  // ---------- the algorithm ----------

  ghost function Items(value: seq<int>, limit: seq<int>): seq<Item>
    requires |limit| == |value|
  {
    seq(|value|, i requires 0 <= i < |value| => Item(value[i], limit[i]))
  }

  // Over the limits 1 to n, the sum of the l largest values with limit l.
  ghost function Best(s: seq<Item>, n: nat): int {
    if n == 0 then 0 else Best(s, n - 1) + TopSum(Bucket(s, n), n)
  }

  ghost predicate ValuesFrom(s: seq<Item>, lo: int) {
    forall b :: b in s ==> lo <= b.value
  }

  lemma RoomAtStart(s: seq<Item>, l: int, lo: int)
    requires ValuesFrom(s, lo)
    ensures Room(Game(s, []), l, lo) == TopSum(Bucket(s, l), l)
  {
    hide TopSum, TopFrom;
    forall v | v in Bucket(s, l) ensures lo <= v { var p := FindItem(s, l, v); assert s[p] in s; }
    NoneLeftOut(Bucket(s, l), l, lo);
  }

  lemma {:induction false} BoundAtStart(s: seq<Item>, n: nat, lo: int)
    requires ValuesFrom(s, lo)
    ensures Bound(Game(s, []), n, lo) == Best(s, n)
  {
    hide Room, Bound, ValuesFrom, TopSum, Bucket;
    BoundStep(Game(s, []), n, lo);
    if n > 0 {
      BoundAtStart(s, n - 1, lo);
      RoomAtStart(s, n, lo);
    }
  }

  lemma {:induction false} SomeLowerBound(s: seq<Item>) returns (lo: int)
    ensures ValuesFrom(s, lo)
  {
    if s == [] {
      lo := 0;
    } else {
      lo := SomeLowerBound(s[1..]);
      assert forall b :: b in s ==> b == s[0] || b in s[1..];
      if s[0].value < lo { lo := s[0].value; }
    }
  }

  lemma {:induction false} BoundAtEnd(g: Game, n: nat, lo: int)
    requires forall l :: 1 <= l <= n ==> Bucket(g.pending, l) == multiset{}
    ensures Bound(g, n, lo) == 0
  {
    if n > 0 { BoundAtEnd(g, n - 1, lo); }
  }

  // The algorithm's variables against the game it plays.
  ghost predicate Tracks(g: Game, buckets: seq<multiset<int>>, avail: set<int>, activeLimits: multiset<int>, n: nat) {
    && |buckets| == n + 1
    && (forall l :: l in avail <==> 1 <= l <= n && Bucket(g.pending, l) != multiset{})
    && (forall l :: l in avail ==> buckets[l] == Bucket(g.pending, l))
    && activeLimits == Limits(g.active)
  }

  lemma PendingAvailable(g: Game, buckets: seq<multiset<int>>, avail: set<int>, active: multiset<int>, n: nat)
    requires Tracks(g, buckets, avail, active, n) && LimitsUpTo(g.pending, n)
    ensures forall b :: b in g.pending && 1 <= b.limit ==> b.limit in avail
  {
    hide Bucket, Limits;
    forall b | b in g.pending && 1 <= b.limit ensures b.limit in avail {
      var q :| 0 <= q < |g.pending| && g.pending[q] == b;
      BucketHolds(g.pending, q);
    }
  }

  lemma SomePending(g: Game, buckets: seq<multiset<int>>, avail: set<int>, active: multiset<int>, n: nat, l: int)
    requires Tracks(g, buckets, avail, active, n) && l in avail
    ensures exists b :: b in g.pending && b.limit == l
  {
    hide Limits;
    var s := Bucket(g.pending, l);
    assert (forall v :: v !in s) ==> s == multiset{};
    var v :| v in s;
    var p := FindItem(g.pending, l, v);
    assert g.pending[p] in g.pending;
  }

  ghost predicate LimitsAfter(active': multiset<int>, active: multiset<int>, x: int, limit: int) {
    forall l :: active'[l] == (if l <= x then 0 else active[l] + if l == limit then 1 else 0)
  }

  lemma RoundLimits(g: Game, p: nat, active: multiset<int>, active': multiset<int>)
    requires CanActivate(g, p) && active == Limits(g.active)
    requires LimitsAfter(active', active, |g.active| + 1, g.pending[p].limit)
    ensures active' == Limits(Activate(g, p).active)
  {
    hide Limits, Activate;
    var g' := Activate(g, p);
    forall l ensures active'[l] == Limits(g'.active)[l] { ActivateLimits(g, p, l); }
    assert active' == Limits(g'.active);
  }

  // One round of the algorithm is one activation.
  lemma RoundTracks(
      g: Game, p: nat, buckets: seq<multiset<int>>, avail: set<int>, active: multiset<int>, n: nat,
      buckets': seq<multiset<int>>, avail': set<int>, active': multiset<int>)
    requires Tracks(g, buckets, avail, active, n) && CanActivate(g, p) && g.pending[p].limit in avail
    requires var it := g.pending[p]; buckets' == buckets[it.limit := buckets[it.limit] - multiset{it.value}]
    requires forall l :: l in avail' <==>
      l in avail && l > |g.active| + 1 && !(l == g.pending[p].limit && buckets'[l] == multiset{})
    requires LimitsAfter(active', active, |g.active| + 1, g.pending[p].limit)
    ensures Tracks(Activate(g, p), buckets', avail', active', n)
  {
    hide Bucket, Limits, Activate, LimitsAfter;
    RoundLimits(g, p, active, active');
    forall l: int ensures BucketAfter(g, p, l) { ActivateBucket(g, p, l); }
    assert forall l: int {:trigger Bucket(Activate(g, p).pending, l)} :: BucketAfter(g, p, l);
  }

  method FillBuckets(value: seq<int>, limit: seq<int>) returns (buckets: seq<multiset<int>>)
    requires |limit| == |value| && forall i :: 0 <= i < |limit| ==> 0 <= limit[i] <= |value|
    ensures |buckets| == |value| + 1
    ensures forall l :: 0 <= l <= |value| ==> buckets[l] == Bucket(Items(value, limit), l)
  {
    var n := |value|;
    ghost var items := Items(value, limit);
    buckets := seq(n + 1, _ => multiset{});
    var i := 0;
    while i < n
      invariant 0 <= i <= n && |buckets| == n + 1
      invariant forall l :: 0 <= l <= n ==> buckets[l] == Bucket(items[..i], l)
    {
      assert items[..i + 1] == items[..i] + [items[i]];
      forall l { BucketOneMore(items[..i], items[i], l); }
      buckets := buckets[limit[i] := buckets[limit[i]] + multiset{value[i]}];
      i := i + 1;
    }
    assert items[..n] == items;
  }

  method FindAvailable(buckets: seq<multiset<int>>) returns (avail: set<int>)
    requires 0 < |buckets|
    ensures forall l :: l in avail <==> 1 <= l < |buckets| && buckets[l] != multiset{}
  {
    avail := {};
    var l := 1;
    while l < |buckets|
      invariant 1 <= l <= |buckets|
      invariant forall k :: k in avail <==> 1 <= k < l && buckets[k] != multiset{}
    {
      if buckets[l] != multiset{} { avail := avail + {l}; }
      l := l + 1;
    }
  }

  // Takes the available limits from the smallest on as long as they are at most x.
  method DropAvailable(avail0: set<int>, x: int) returns (avail: set<int>)
    ensures forall l :: l in avail <==> l in avail0 && l > x
  {
    avail := avail0;
    while avail != {}
      invariant avail <= avail0 && forall l :: l in avail0 && l > x ==> l in avail
      decreases |avail|
    {
      var first := Least(avail);
      if first > x { break; }
      avail := avail - {first};
    }
  }

  // Retires active items from the smallest limit on as long as it is at most x, counting them out.
  method DropActive(active0: multiset<int>, count0: int, x: int) returns (active: multiset<int>, count: int)
    ensures forall l :: active[l] == if l <= x then 0 else active0[l]
    ensures count0 - count == |active0| - |active|
  {
    active, count := active0, count0;
    while active != multiset{}
      invariant count0 - count == |active0| - |active|
      invariant forall l :: l > x ==> active[l] == active0[l]
      decreases |active|
    {
      var top := Smallest(active);
      if top > x {
        assert forall l :: l in active ==> x < l;
        break;
      }
      active := active - multiset{top};
      count := count - 1;
    }
  }

  // What the rounds so far amount to: an order of activation that gains total and has lost nothing.
  ghost predicate Played(start: Game, order: seq<nat>, g: Game, t: int, total: int, n: nat, lo: int) {
    && ValidOrder(start, order) && Play(start, order) == g && Gain(start, order) == total
    && Ordered(g, t, lo) && LimitsUpTo(g.pending, n) && ValuesFrom(g.pending, lo)
    && total + Bound(g, n, lo) == Bound(start, n, lo)
  }

  lemma PlayedOneMore(start: Game, order: seq<nat>, g: Game, t: int, total: int, n: nat, lo: int, p: nat)
    requires Played(start, order, g, t, total, n, lo) && Greedy(g, p, lo)
    ensures Played(start, order + [p], Activate(g, p), |g.active| + 1, total + g.pending[p].value, n, lo)
    ensures |Activate(g, p).pending| < |g.pending|
  {
    assert 1 <= g.pending[p].limit <= n;
    GreedyBound(g, p, t, n, lo);
    GreedyOrdered(g, p, t, lo);
    LimitsUpToKept(g, p, n);
    ActivateIsFrom(g, p);
    hide Bound, Ordered, Greedy, Activate, LimitsUpTo;
    PlayOneMore(start, order, p);
  }

  // The item the algorithm takes is a greedy choice.
  lemma Choice(
      g: Game, t: int, n: nat, lo: int,
      buckets: seq<multiset<int>>, avail: set<int>, active: multiset<int>, l: int, v: int)
    returns (p: nat)
    requires Ordered(g, t, lo) && LimitsUpTo(g.pending, n) && ValuesFrom(g.pending, lo)
    requires Tracks(g, buckets, avail, active, n) && l in avail && |g.active| < l && IsMax(buckets[l], v)
    requires forall k :: k in avail && |g.active| < k ==> l <= k
    ensures Greedy(g, p, lo) && g.pending[p] == Item(v, l)
  {
    hide Bucket, Limits;
    p := FindItem(g.pending, l, v);
    assert InPlay(g, g.pending[p], lo);
    PendingAvailable(g, buckets, avail, active, n);
    forall b | InPlay(g, b, lo) ensures l <= b.limit { assert b.limit in avail && t < b.limit; }
  }

  // One round of the main loop, for the limit l found above count0.
  method Round(
      l: int, buckets0: seq<multiset<int>>, avail0: set<int>, active0: multiset<int>, count0: int,
      ghost start: Game, ghost order: seq<nat>, ghost g: Game, ghost t: int, ghost total: int,
      ghost n: nat, ghost lo: int)
    returns (val: int, buckets: seq<multiset<int>>, avail: set<int>, active: multiset<int>, count: int, ghost p: nat)
    requires Played(start, order, g, t, total, n, lo)
    requires Tracks(g, buckets0, avail0, active0, n) && count0 == |g.active|
    requires l in avail0 && count0 < l && forall k :: k in avail0 && count0 < k ==> l <= k
    ensures Greedy(g, p, lo) && g.pending[p] == Item(val, l)
    ensures Tracks(Activate(g, p), buckets, avail, active, n) && count == |Activate(g, p).active|
  {
    hide Bucket, Activate, Ordered, LimitsUpTo, ValuesFrom, Bound;
    LimitsSize(g.active);
    val := Largest(buckets0[l]);
    p := Choice(g, t, n, lo, buckets0, avail0, active0, l, val);
    hide Greedy, IsMax, Played, InPlay, Tracks, LimitsAfter;
    buckets := buckets0[l := buckets0[l] - multiset{val}];
    count := count0 + 1;
    avail, active, count := Expire(buckets, avail0, active0, l, count);
    RoundTracks(g, p, buckets0, avail0, active0, n, buckets, avail, active);
    LimitsSize(Activate(g, p).active);
  }

  // The rest of a round: l becomes an active limit, and all limits up to x are out.
  method Expire(buckets: seq<multiset<int>>, avail0: set<int>, active0: multiset<int>, l: int, x: int)
    returns (avail: set<int>, active: multiset<int>, count: int)
    requires 0 <= l < |buckets| && x == |active0| + 1
    ensures forall k :: k in avail <==> k in avail0 && k > x && !(k == l && buckets[k] == multiset{})
    ensures LimitsAfter(active, active0, x, l)
    ensures count == |active|
  {
    active := active0 + multiset{l};
    avail := avail0;
    if buckets[l] == multiset{} { avail := avail - {l}; }
    avail := DropAvailable(avail, x);
    active, count := DropActive(active, x, x);
  }

  method MaxTotal(value: seq<int>, limit: seq<int>) returns (total: int, ghost order: seq<nat>)
    requires |limit| == |value| && forall i :: 0 <= i < |limit| ==> 0 <= limit[i] <= |value|
    ensures total == Best(Items(value, limit), |value|)
    ensures var start := Game(Items(value, limit), []); ValidOrder(start, order) && Gain(start, order) == total
  {
    var n := |value|;
    ghost var start := Game(Items(value, limit), []);
    ghost var lo := SomeLowerBound(start.pending);
    var buckets := FillBuckets(value, limit);
    var avail := FindAvailable(buckets);
    var activeCount, activeLimits: multiset<int> := 0, multiset{};
    total, order := 0, [];
    ghost var g, t := start, 0;
    hide Bound, Best, Bucket, Activate, Greedy;
    while true
      invariant Played(start, order, g, t, total, n, lo)
      invariant Tracks(g, buckets, avail, activeLimits, n) && activeCount == |g.active|
      decreases |g.pending|
    {
      hide Played, Tracks;
      var found, l := UpperBound(avail, activeCount);
      if !found { break; }
      var val;
      ghost var p;
      val, buckets, avail, activeLimits, activeCount, p :=
        Round(l, buckets, avail, activeLimits, activeCount, start, order, g, t, total, n, lo);
      PlayedOneMore(start, order, g, t, total, n, lo, p);
      total, t := total + val, |g.active| + 1;
      g, order := Activate(g, p), order + [p];
    }
    NothingAvailable(g, t, buckets, avail, activeLimits, n, lo);
    BoundAtStart(start.pending, n, lo);
  }

  lemma NothingAvailable(
      g: Game, t: int, buckets: seq<multiset<int>>, avail: set<int>, active: multiset<int>, n: nat, lo: int)
    requires Tracks(g, buckets, avail, active, n) && Ordered(g, t, lo) && ValuesFrom(g.pending, lo)
    requires forall l :: l in avail ==> l <= |g.active|
    ensures Bound(g, n, lo) == 0
  {
    forall l | l in avail ensures false {
      SomePending(g, buckets, avail, active, n, l);
      var b :| b in g.pending && b.limit == l;
      assert InPlay(g, b, lo);
    }
    BoundAtEnd(g, n, lo);
  }

  // ---------- when the result is the maximum ----------

  // No negative value is among the l largest: the bucket has none, or l others.
  ghost predicate Covered(b: multiset<int>, l: int) {
    (forall v :: v in b ==> 0 <= v) || exists c: seq<int> :: NonNegativePart(b, l, c)
  }

  ghost predicate NonNegativePart(b: multiset<int>, l: int, c: seq<int>) {
    |c| == l && multiset(c) <= b && forall v :: v in c ==> 0 <= v
  }

  lemma {:induction false} TopIsNoLess(b: multiset<int>, k: int)
    ensures TopSum(b, k) <= TopFrom(b, k, 0)
    decreases |b|
  {
    if 0 < k && b != multiset{} {
      TopIsNoLess(b - multiset{Max(b)}, k - 1);
      if Max(b) < 0 { NegativeTop(b - multiset{Max(b)}, k - 1); }
    }
  }

  ghost function IndexOf(c: seq<int>, m: int): (i: nat)
    requires m in c
    ensures i < |c| && c[i] == m
  {
    if c[|c| - 1] == m then |c| - 1 else IndexOf(c[..|c| - 1], m)
  }

  lemma WithoutOne(c: seq<int>, i: nat)
    requires i < |c|
    ensures multiset(c[..i] + c[i + 1..]) == multiset(c) - multiset{c[i]}
    ensures forall v :: v in c[..i] + c[i + 1..] ==> v in c
  {
    assert c == c[..i] + [c[i]] + c[i + 1..];
  }

  lemma TakenOut(c: multiset<int>, b: multiset<int>, v: int, m: int)
    requires c <= b && v in c && (v == m || m !in c)
    ensures c - multiset{v} <= b - multiset{m}
  {
  }

  // Without its largest value, a bucket still has one non-negative value fewer.
  lemma PartOfRest(b: multiset<int>, k: nat, c: seq<int>) returns (d: seq<int>)
    requires NonNegativePart(b, k, c) && 0 < k
    ensures b != multiset{} && 0 <= Max(b) && NonNegativePart(b - multiset{Max(b)}, k - 1, d)
  {
    assert c[0] in c && c[0] in multiset(c) && c[0] in b;
    var m := Max(b);
    assert c[0] <= m;
    var i := if m in c then IndexOf(c, m) else 0;
    WithoutOne(c, i);
    d := c[..i] + c[i + 1..];
    TakenOut(multiset(c), b, c[i], m);
    forall v | v in d ensures 0 <= v { assert v in c; }
  }

  lemma {:induction false} PartIsExact(b: multiset<int>, k: nat, c: seq<int>)
    requires NonNegativePart(b, k, c)
    ensures TopSum(b, k) == TopFrom(b, k, 0)
    decreases k
  {
    if 0 < k {
      var d := PartOfRest(b, k, c);
      hide NonNegativePart, IsMax;
      PartIsExact(b - multiset{Max(b)}, k - 1, d);
    }
  }

  lemma CoveredIsExact(b: multiset<int>, k: nat)
    requires Covered(b, k)
    ensures TopSum(b, k) == TopFrom(b, k, 0)
  {
    if forall v :: v in b ==> 0 <= v {
      NoneLeftOut(b, k, 0);
    } else {
      var c :| NonNegativePart(b, k, c);
      PartIsExact(b, k, c);
    }
  }

  lemma PartOfMore(b: multiset<int>, m: int, k: nat, c: seq<int>)
    requires m in b && 0 <= m && 0 < k && NonNegativePart(b - multiset{m}, k - 1, c)
    ensures NonNegativePart(b, k, c + [m])
  {
    assert multiset(c + [m]) == multiset(c) + multiset{m};
  }

  lemma CoveredByMax(b: multiset<int>, k: nat)
    requires b != multiset{} && 0 < k && 0 <= Max(b) && Covered(b - multiset{Max(b)}, k - 1)
    ensures Covered(b, k)
  {
    var m := Max(b);
    var rest := b - multiset{m};
    assert forall v :: v in b ==> v == m || v in rest;
    if !(forall v :: v in rest ==> 0 <= v) {
      var c :| NonNegativePart(rest, k - 1, c);
      PartOfMore(b, m, k, c);
    }
  }

  lemma {:induction false} ExactIsCovered(b: multiset<int>, k: nat)
    requires TopSum(b, k) == TopFrom(b, k, 0)
    ensures Covered(b, k)
    decreases k
  {
    if k == 0 {
      assert NonNegativePart(b, 0, []);
    } else if b != multiset{} {
      var rest := b - multiset{Max(b)};
      assert TopSum(b, k) == Max(b) + TopSum(rest, k - 1);
      assert TopFrom(b, k, 0) == if Max(b) < 0 then 0 else Max(b) + TopFrom(rest, k - 1, 0);
      hide Covered, TopSum, TopFrom;
      TopIsNoLess(rest, k - 1);
      if Max(b) < 0 {
        NegativeTop(rest, k - 1);
      } else {
        ExactIsCovered(rest, k - 1);
        CoveredByMax(b, k);
      }
    }
  }

  // The total of the non-negative tops: what the best order gains.
  ghost function Optimum(s: seq<Item>, n: nat): int {
    if n == 0 then 0 else Optimum(s, n - 1) + TopFrom(Bucket(s, n), n, 0)
  }

  lemma {:induction false} BoundIsOptimum(s: seq<Item>, n: nat)
    ensures Bound(Game(s, []), n, 0) == Optimum(s, n)
  {
    hide Bound, TopFrom, Bucket;
    BoundStep(Game(s, []), n, 0);
    if n > 0 { BoundIsOptimum(s, n - 1); }
  }

  ghost predicate AllCovered(s: seq<Item>, n: nat) {
    forall l: nat {:trigger Bucket(s, l)} :: 1 <= l <= n ==> Covered(Bucket(s, l), l)
  }

  lemma CoveredIff(b: multiset<int>, k: nat)
    ensures TopSum(b, k) <= TopFrom(b, k, 0)
    ensures TopSum(b, k) == TopFrom(b, k, 0) <==> Covered(b, k)
  {
    hide TopSum, TopFrom, Covered;
    TopIsNoLess(b, k);
    if TopSum(b, k) == TopFrom(b, k, 0) { ExactIsCovered(b, k); }
    if Covered(b, k) { CoveredIsExact(b, k); }
  }

  lemma AllCoveredStep(s: seq<Item>, n: nat)
    requires 0 < n
    ensures AllCovered(s, n) <==> AllCovered(s, n - 1) && Covered(Bucket(s, n), n)
  {
    hide Bucket, Covered;
  }

  lemma {:induction false} BestAgainstOptimum(s: seq<Item>, n: nat)
    ensures Best(s, n) <= Optimum(s, n)
    ensures Best(s, n) == Optimum(s, n) <==> AllCovered(s, n)
  {
    if n > 0 {
      assert Best(s, n) == Best(s, n - 1) + TopSum(Bucket(s, n), n);
      assert Optimum(s, n) == Optimum(s, n - 1) + TopFrom(Bucket(s, n), n, 0);
      hide Bucket, TopSum, TopFrom, Covered, AllCovered, Best, Optimum;
      BestAgainstOptimum(s, n - 1);
      CoveredIff(Bucket(s, n), n);
      AllCoveredStep(s, n);
    }
  }

  // No order of activation gains more than the optimum, and one gains as much, whatever the values.
  lemma OptimumIsMaximum(value: seq<int>, limit: seq<int>) returns (order: seq<nat>)
    requires |limit| == |value| && forall i :: 0 <= i < |limit| ==> 0 <= limit[i] <= |value|
    ensures var start := Game(Items(value, limit), []);
      ValidOrder(start, order) && Gain(start, order) == Optimum(start.pending, |value|)
    ensures var start := Game(Items(value, limit), []);
      forall other :: ValidOrder(start, other) ==> Gain(start, other) <= Optimum(start.pending, |value|)
  {
    var start := Game(Items(value, limit), []);
    BoundIsOptimum(start.pending, |value|);
    order := BoundIsReached(start, 0, |value|);
    forall other | ValidOrder(start, other) ensures Gain(start, other) <= Optimum(start.pending, |value|) {
      NoOrderBeatsBound(start, other, |value|);
    }
  }

  // The algorithm's result is the maximum over all orders of activation if and only if no bucket makes it
  // take a negative value; so always when no value is negative.
  lemma ResultIsMaximumIff(value: seq<int>, limit: seq<int>)
    requires |limit| == |value| && forall i :: 0 <= i < |limit| ==> 0 <= limit[i] <= |value|
    ensures var s := Items(value, limit);
      (forall order :: ValidOrder(Game(s, []), order) ==> Gain(Game(s, []), order) <= Best(s, |value|))
      <==> AllCovered(s, |value|)
    ensures (forall i :: 0 <= i < |value| ==> 0 <= value[i]) ==> AllCovered(Items(value, limit), |value|)
  {
    var s := Items(value, limit);
    var best := OptimumIsMaximum(value, limit);
    BestAgainstOptimum(s, |value|);
    if forall i :: 0 <= i < |value| ==> 0 <= value[i] {
      forall l: nat, v | v in Bucket(s, l) ensures 0 <= v { var p := FindItem(s, l, v); }
    }
  }

  // One item of value -1 is activated, although activating nothing would gain more.
  lemma NegativeValueCosts()
    ensures var s := Items([-1], [1]);
      Best(s, 1) == -1 && ValidOrder(Game(s, []), []) && Gain(Game(s, []), []) == 0 && !AllCovered(s, 1)
  {
    var s := Items([-1], [1]);
    assert s == [Item(-1, 1)] && s[..0] == [];
    assert Bucket(s, 1) == multiset{-1};
    var b := multiset{-1};
    assert Max(b) == -1;
    assert TopSum(b, 1) == -1 + TopSum(b - multiset{-1}, 0);
    BestAgainstOptimum(s, 1);
    assert TopFrom(b, 1, 0) == 0;
  }
}
