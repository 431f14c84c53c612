/** The sliding-window count of test/algo/byte/test3.cpp: in how many ways an array can be cut into
    non-empty contiguous segments each spanning at most k.

    dp and pre hold 32-bit numbers, so every step of the modular arithmetic is checked not to
    overflow; the set of cuts that is counted is defined without reference to the algorithm. */
module CountPartitions {
  import opened Containers

  newtype int32 = x: int | -0x8000_0000 <= x < 0x8000_0000

  const MOD: int32 := 1_000_000_007

  // ---------- what is counted ----------

  // The elements from l to r - 1 differ by at most k.
  ghost predicate Narrow(nums: seq<int>, k: int, l: int, r: int) {
    forall i, j :: l <= i < r && l <= j < r && 0 <= i < |nums| && 0 <= j < |nums| ==> nums[i] - nums[j] <= k
  }

  // Where the i-th segment of a cut of the first r elements ends.
  ghost function End(c: seq<nat>, i: nat, r: nat): nat {
    if i + 1 < |c| then c[i + 1] else r
  }

  ghost predicate SegmentOk(nums: seq<int>, k: int, c: seq<nat>, i: nat, r: nat)
    requires i < |c|
  {
    c[i] < End(c, i, r) && Narrow(nums, k, c[i], End(c, i, r))
  }

  // c lists where the segments of a cut of the first r elements begin.
  ghost predicate IsCut(nums: seq<int>, k: int, c: seq<nat>, r: nat) {
    && (c == [] <==> r == 0)
    && (c != [] ==> c[0] == 0)
    && forall i {:trigger SegmentOk(nums, k, c, i, r)} :: 0 <= i < |c| ==> SegmentOk(nums, k, c, i, r)
  }

  // ---------- the cuts, by their last segment ----------

  ghost function Extend(cuts: set<seq<nat>>, l: nat): set<seq<nat>> {
    set c | c in cuts :: c + [l]
  }

  ghost function Cuts(nums: seq<int>, k: int, r: nat): set<seq<nat>>
    decreases r, r + 1
  {
    if r == 0 then {[]} else CutsBelow(nums, k, r, r)
  }

  // The cuts of the first r elements whose last segment begins before m.
  ghost function CutsBelow(nums: seq<int>, k: int, r: nat, m: nat): set<seq<nat>>
    requires m <= r
    decreases r, m
  {
    if m == 0 then {}
    else CutsBelow(nums, k, r, m - 1) + if Narrow(nums, k, m - 1, r) then Extend(Cuts(nums, k, m - 1), m - 1) else {}
  }

  lemma CutExtends(nums: seq<int>, k: int, c: seq<nat>, l: nat, r: nat)
    requires IsCut(nums, k, c, l) && l < r && Narrow(nums, k, l, r)
    ensures IsCut(nums, k, c + [l], r)
  {
    var d := c + [l];
    forall i | 0 <= i < |d| ensures SegmentOk(nums, k, d, i, r) {
      if i < |c| { assert SegmentOk(nums, k, c, i, l) && End(d, i, r) == End(c, i, l); }
    }
  }

  lemma CutShortens(nums: seq<int>, k: int, d: seq<nat>, r: nat)
    requires IsCut(nums, k, d, r) && 0 < r
    ensures var l := d[|d| - 1];
      l < r && Narrow(nums, k, l, r) && IsCut(nums, k, d[..|d| - 1], l)
  {
    var n := |d| - 1;
    var c, l := d[..n], d[n];
    assert SegmentOk(nums, k, d, n, r);
    forall i | 0 <= i < n ensures SegmentOk(nums, k, c, i, l) {
      assert SegmentOk(nums, k, d, i, r) && End(c, i, l) == End(d, i, r);
    }
    if 0 < n { assert SegmentOk(nums, k, d, n - 1, r) && 0 < l; }
  }

  lemma ExtendHas(cuts: set<seq<nat>>, l: nat, d: seq<nat>)
    ensures d in Extend(cuts, l) <==> d != [] && d[|d| - 1] == l && d[..|d| - 1] in cuts
  {
    if d != [] && d[|d| - 1] == l && d[..|d| - 1] in cuts { assert d == d[..|d| - 1] + [l]; }
  }

  // The recursion lists exactly the cuts.
  lemma {:induction false} CutsAreCuts(nums: seq<int>, k: int, r: nat, d: seq<nat>)
    ensures d in Cuts(nums, k, r) <==> IsCut(nums, k, d, r)
    decreases r, r + 1
  {
    if r > 0 {
      CutsBelowAreCuts(nums, k, r, r, d);
      if IsCut(nums, k, d, r) { CutShortens(nums, k, d, r); }
    }
  }

  lemma {:induction false} CutsBelowAreCuts(nums: seq<int>, k: int, r: nat, m: nat, d: seq<nat>)
    requires m <= r && 0 < r
    ensures d in CutsBelow(nums, k, r, m) <==> IsCut(nums, k, d, r) && d[|d| - 1] < m
    decreases r, m
  {
    if m > 0 {
      hide Narrow, IsCut, Extend;
      var l := m - 1;
      CutsBelowAreCuts(nums, k, r, l, d);
      ExtendHas(Cuts(nums, k, l), l, d);
      NonEmptyCut(nums, k, d, r);
      if d != [] && d[|d| - 1] == l {
        var c := d[..|d| - 1];
        assert d == c + [l];
        CutsAreCuts(nums, k, l, c);
        if IsCut(nums, k, c, l) && Narrow(nums, k, l, r) { CutExtends(nums, k, c, l, r); }
        if IsCut(nums, k, d, r) { CutShortens(nums, k, d, r); }
      }
    }
  }

  // What is counted, spelled out: a cut of the whole array is an increasing list of places, the first of them 0,
  // such that no two elements of one segment differ by more than k.
  lemma CutsSpelledOut(nums: seq<int>, k: int, c: seq<nat>)
    requires nums != []
    ensures c in Cuts(nums, k, |nums|) <==>
      && c != [] && c[0] == 0 && (forall i :: 0 <= i < |c| - 1 ==> c[i] < c[i + 1]) && c[|c| - 1] < |nums|
      && forall i, p, q {:trigger c[i], nums[p], nums[q]} ::
           0 <= i < |c| && c[i] <= p < |nums| && c[i] <= q < |nums| && (i + 1 < |c| ==> p < c[i + 1] && q < c[i + 1])
           ==> nums[p] - nums[q] <= k
  {
    CutsAreCuts(nums, k, |nums|, c);
    if c != [] {
      forall i | 0 <= i < |c|
        ensures SegmentOk(nums, k, c, i, |nums|)
          <==> c[i] < End(c, i, |nums|) && Narrow(nums, k, c[i], End(c, i, |nums|))
      {
      }
    }
  }

  lemma NonEmptyCut(nums: seq<int>, k: int, d: seq<nat>, r: nat)
    requires 0 < r
    ensures IsCut(nums, k, d, r) ==> d != []
  {
  }

  // ---------- how many there are ----------

  lemma {:induction false} ExtendSize(cuts: set<seq<nat>>, l: nat)
    ensures |Extend(cuts, l)| == |cuts|
    decreases |cuts|
  {
    if cuts == {} {
      assert Extend(cuts, l) == {};
    } else {
      var c :| c in cuts;
      ExtendSize(cuts - {c}, l);
      assert c !in cuts - {c};
      forall d ensures d in Extend(cuts, l) <==> d in Extend(cuts - {c}, l) + {c + [l]} {
        ExtendHas(cuts, l, d);
        ExtendHas(cuts - {c}, l, d);
        if d != [] && d[|d| - 1] == l { assert d == d[..|d| - 1] + [l]; }
      }
      assert Extend(cuts, l) == Extend(cuts - {c}, l) + {c + [l]};
      ExtendHas(cuts - {c}, l, c + [l]);
    }
  }

  ghost function Ways(nums: seq<int>, k: int, r: nat): nat { |Cuts(nums, k, r)| }

  lemma WaysBelow(nums: seq<int>, k: int, r: nat, m: nat)
    requires 0 < m <= r
    ensures |CutsBelow(nums, k, r, m)| ==
      |CutsBelow(nums, k, r, m - 1)| + if Narrow(nums, k, m - 1, r) then Ways(nums, k, m - 1) else 0
  {
    hide Narrow, IsCut, Extend;
    var a, b := CutsBelow(nums, k, r, m - 1), Extend(Cuts(nums, k, m - 1), m - 1);
    forall d | d in a ensures d !in b {
      CutsBelowAreCuts(nums, k, r, m - 1, d);
      ExtendHas(Cuts(nums, k, m - 1), m - 1, d);
    }
    assert a !! b;
    ExtendSize(Cuts(nums, k, m - 1), m - 1);
  }

  // The ways of all shorter prefixes together.
  ghost function WaysUpTo(nums: seq<int>, k: int, i: nat): nat {
    if i == 0 then 0 else WaysUpTo(nums, k, i - 1) + Ways(nums, k, i - 1)
  }

  // left is the first index from which the elements up to r - 1 are narrow.
  ghost predicate FirstNarrow(nums: seq<int>, k: int, left: nat, r: nat) {
    Narrow(nums, k, left, r) && (left == 0 || !Narrow(nums, k, left - 1, r))
  }

  lemma NarrowShrinks(nums: seq<int>, k: int, l: int, l': int, r: int)
    requires Narrow(nums, k, l, r) && l <= l'
    ensures Narrow(nums, k, l', r)
  {
  }

  lemma {:induction false} WindowCounts(nums: seq<int>, k: int, left: nat, r: nat, m: nat)
    requires FirstNarrow(nums, k, left, r) && m <= r
    ensures |CutsBelow(nums, k, r, m)| ==
      if m <= left then 0 else WaysUpTo(nums, k, m) - WaysUpTo(nums, k, left)
  {
    if m > 0 {
      hide Narrow, Ways, CutsBelow;
      WindowCounts(nums, k, left, r, m - 1);
      WaysBelow(nums, k, r, m);
      if m - 1 >= left { NarrowShrinks(nums, k, left, m - 1, r); }
      if m - 1 < left && Narrow(nums, k, m - 1, r) { NarrowShrinks(nums, k, m - 1, left - 1, r); }
    } else {
      NoCutsBelow(nums, k, r);
    }
  }

  lemma NoCutsBelow(nums: seq<int>, k: int, r: nat)
    ensures CutsBelow(nums, k, r, 0) == {}
  {
  }

  // One cell of the table: the ways to cut r elements are those of the prefixes the window can start at.
  lemma WaysByWindow(nums: seq<int>, k: int, left: nat, r: nat)
    requires FirstNarrow(nums, k, left, r) && left < r
    ensures Ways(nums, k, r) == WaysUpTo(nums, k, r) - WaysUpTo(nums, k, left)
  {
    hide Narrow;
    WindowCounts(nums, k, left, r, r);
  }

  // ---------- the algorithm ----------

  ghost predicate AreTheCuts(cuts: set<seq<nat>>, nums: seq<int>, k: int, r: nat) {
    forall c :: c in cuts <==> IsCut(nums, k, c, r)
  }

  lemma CutsAreAll(nums: seq<int>, k: int, r: nat)
    ensures AreTheCuts(Cuts(nums, k, r), nums, k, r)
  {
    forall c ensures c in Cuts(nums, k, r) <==> IsCut(nums, k, c, r) { CutsAreCuts(nums, k, r, c); }
  }

  ghost predicate Window(w: multiset<int>, nums: seq<int>, left: int, r: int) {
    0 <= left <= r <= |nums| && w == multiset(nums[left..r])
  }

  lemma WindowHas(w: multiset<int>, nums: seq<int>, left: int, r: int)
    requires Window(w, nums, left, r)
    ensures forall i {:trigger nums[i]} :: left <= i < r ==> nums[i] in w
    ensures forall v :: v in w ==> exists i :: left <= i < r && nums[i] == v
  {
    var s := nums[left..r];
    forall i {:trigger nums[i]} | left <= i < r ensures nums[i] in w { assert nums[i] == s[i - left]; }
    forall v | v in w ensures exists i :: left <= i < r && nums[i] == v {
      assert v in s;
      var j :| 0 <= j < |s| && s[j] == v;
      assert nums[left + j] == v;
    }
  }

  // The test of the inner loop: the ends of the multiset decide whether the window is narrow.
  lemma Spread(w: multiset<int>, nums: seq<int>, k: int, left: int, r: int, hi: int, lo: int)
    requires Window(w, nums, left, r) && left < r && IsMax(w, hi) && lo in w && forall v :: v in w ==> lo <= v
    ensures Narrow(nums, k, left, r) <==> hi - lo <= k
    ensures 0 <= hi - lo
    ensures left + 1 == r ==> hi == lo
    ensures exists i, j :: left <= i < r && left <= j < r && hi == nums[i] && lo == nums[j]
  {
    WindowHas(w, nums, left, r);
    var i :| left <= i < r && nums[i] == hi;
    var j :| left <= j < r && nums[j] == lo;
    if hi - lo <= k {
      forall i', j' | left <= i' < r && left <= j' < r ensures nums[i'] - nums[j'] <= k {
        assert nums[i'] in w && nums[j'] in w;
      }
    }
  }

  lemma Grow(w: multiset<int>, nums: seq<int>, left: int, r: int)
    requires Window(w, nums, left, r) && r < |nums|
    ensures Window(w + multiset{nums[r]}, nums, left, r + 1)
  {
    assert nums[left..r + 1] == nums[left..r] + [nums[r]];
  }

  lemma Shrink(w: multiset<int>, nums: seq<int>, left: int, r: int)
    requires Window(w, nums, left, r) && left < r
    ensures Window(w - multiset{nums[left]}, nums, left + 1, r)
  {
    assert nums[left..r] == [nums[left]] + nums[left + 1..r];
  }

  ghost predicate Fits(x: int) { -0x8000_0000 <= x < 0x8000_0000 }

  // The inner loop looks at the elements from l to r - 1: the window narrow before the last of them came,
  // shortened as long as it is too wide.
  ghost predicate Reached(nums: seq<int>, k: int, l: int, r: int) {
    0 <= l < r <= |nums| && Narrow(nums, k, l, r - 1) && (l == 0 || !Narrow(nums, k, l - 1, r))
  }

  ghost predicate WindowFits(nums: seq<int>, l: int, r: int)
    requires 0 <= l < r <= |nums|
  {
    forall i, j :: l <= i < r && l <= j < r ==> Fits(nums[i] - nums[j])
  }

  // The differences the loop computes are 32-bit numbers.
  ghost predicate SafeWindows(nums: seq<int>, k: int) {
    forall l, r {:trigger Reached(nums, k, l, r)} :: Reached(nums, k, l, r) ==> WindowFits(nums, l, r)
  }

  lemma TightenStep(w: multiset<int>, nums: seq<int>, k: int, left: nat, r: nat, hi: int, lo: int)
    requires Window(w, nums, left, r) && left < r && Reached(nums, k, left, r) && SafeWindows(nums, k)
    requires IsMax(w, hi) && lo in w && forall v :: v in w ==> lo <= v
    ensures Fits(hi - lo) && 0 <= hi - lo && (hi - lo <= k <==> Narrow(nums, k, left, r))
    ensures Window(w - multiset{nums[left]}, nums, left + 1, r) && (left + 1 == r ==> hi == lo)
    ensures Narrow(nums, k, left + 1, r - 1)
  {
    assert WindowFits(nums, left, r);
    Spread(w, nums, k, left, r, hi, lo);
    Shrink(w, nums, left, r);
    NarrowShrinks(nums, k, left, left + 1, r - 1);
  }

  lemma WindowNonEmpty(w: multiset<int>, nums: seq<int>, left: nat, r: nat)
    requires Window(w, nums, left, r)
    ensures r <= |nums| && (w == multiset{} <==> left == r)
  {
    WindowHas(w, nums, left, r);
    if left < r { assert nums[left] in w; } else { assert nums[left..r] == []; }
  }

  // The inner loop: leave out elements on the left until the window is narrow.  The window runs empty, and
  // the loop would then ask for the ends of an empty multiset, exactly if k is negative.
  method Tighten(nums: seq<int>, k: int32, w0: multiset<int>, left0: nat, r: nat)
    returns (ranEmpty: bool, w: multiset<int>, left: nat)
    requires left0 < r && Window(w0, nums, left0, r) && Reached(nums, k as int, left0, r) && SafeWindows(nums, k as int)
    ensures ranEmpty <==> k < 0
    ensures !ranEmpty ==> left < r && Window(w, nums, left, r) && FirstNarrow(nums, k as int, left, r)
  {
    ranEmpty, w, left := false, w0, left0;
    hide Narrow, SafeWindows, Window, IsMax, WindowFits;
    while true
      invariant left <= r <= |nums| && Window(w, nums, left, r) && Narrow(nums, k as int, left, r - 1)
      invariant left == 0 || !Narrow(nums, k as int, left - 1, r)
      invariant left == r ==> k < 0
      decreases r - left
    {
      WindowNonEmpty(w, nums, left, r);
      if w == multiset{} {
        ranEmpty := true;
        break;
      }
      var hi := Largest(w);
      var lo := Smallest(w);
      TightenStep(w, nums, k as int, left, r, hi, lo);
      var spread := (hi - lo) as int32;
      if spread <= k { break; }
      w := w - multiset{nums[left]};
      left := left + 1;
    }
  }

  ghost predicate Residue(x: int32, n: int) { 0 <= x < MOD && x as int == n % (MOD as int) }

  method Subtract(a: int32, b: int32, ghost m: int, ghost n: int) returns (c: int32)
    requires Residue(a, m) && Residue(b, n)
    ensures Residue(c, m - n)
  {
    c := (a - b + MOD) % MOD;
  }

  method Add(a: int32, b: int32, ghost m: int, ghost n: int) returns (c: int32)
    requires Residue(a, m) && Residue(b, n)
    ensures Residue(c, m + n)
  {
    c := (a + b) % MOD;
  }

  // dp[r] and pre[0] to pre[r + 1] are final.
  ghost predicate Table(dp: seq<int32>, pre: seq<int32>, nums: seq<int>, k: int, r: nat) {
    && r < |dp| && r + 1 < |pre| && Residue(dp[r], Ways(nums, k, r))
    && forall i {:trigger pre[i]} :: 0 <= i <= r + 1 ==> Residue(pre[i], WaysUpTo(nums, k, i))
  }

  // One cell of dp and one of pre.
  method Fill(dp: array<int32>, pre: array<int32>, left: nat, right: nat, ghost nums: seq<int>, ghost k: int)
    requires dp != pre && right + 1 < dp.Length && right + 2 < pre.Length && left <= right
    requires Table(dp[..], pre[..], nums, k, right)
    requires FirstNarrow(nums, k, left, right + 1)
    modifies dp, pre
    ensures Table(dp[..], pre[..], nums, k, right + 1)
  {
    WaysByWindow(nums, k, left, right + 1);
    hide Narrow, FirstNarrow, Residue, Ways;
    ghost var before := pre[..];
    assert Residue(before[right + 1], WaysUpTo(nums, k, right + 1)) && Residue(before[left], WaysUpTo(nums, k, left));
    var d := Subtract(pre[right + 1], pre[left], WaysUpTo(nums, k, right + 1), WaysUpTo(nums, k, left));
    var p := Add(pre[right + 1], d, WaysUpTo(nums, k, right + 1), Ways(nums, k, right + 1));
    dp[right + 1] := d;
    pre[right + 2] := p;
    TableGrows(before, d, p, dp[..], pre[..], nums, k, right);
  }

  lemma TableGrows(
      before: seq<int32>, d: int32, p: int32, dp: seq<int32>, pre: seq<int32>, nums: seq<int>, k: int, r: nat)
    requires r + 2 < |before| && pre == before[r + 2 := p] && r + 1 < |dp| && dp[r + 1] == d
    requires forall i {:trigger before[i]} :: 0 <= i <= r + 1 ==> Residue(before[i], WaysUpTo(nums, k, i))
    requires Residue(d, Ways(nums, k, r + 1)) && Residue(p, WaysUpTo(nums, k, r + 2))
    ensures Table(dp, pre, nums, k, r + 1)
  {
    hide Residue, Ways, WaysUpTo;
    forall i | 0 <= i <= r + 2 ensures Residue(pre[i], WaysUpTo(nums, k, i)) {
      if i <= r + 1 { assert pre[i] == before[i]; }
    }
  }

  // The two tables, zeroed but for the one way to cut nothing.
  method Tables(n: nat, ghost nums: seq<int>, ghost k: int) returns (dp: array<int32>, pre: array<int32>)
    ensures fresh(dp) && fresh(pre) && dp != pre && dp.Length == n + 1 && pre.Length == n + 2
    ensures Table(dp[..], pre[..], nums, k, 0)
  {
    dp := new int32[n + 1](_ => 0);
    pre := new int32[n + 2](_ => 0);
    dp[0] := 1;
    pre[1] := 1;
    assert WaysUpTo(nums, k, 1) == WaysUpTo(nums, k, 0) + 1;
  }

  lemma EmptyWindow(nums: seq<int>, k: int)
    ensures FirstNarrow(nums, k, 0, 0) && Window(multiset{}, nums, 0, 0)
  {
  }

  method CountPartitions(nums: seq<int>, k: int32) returns (ranEmpty: bool, result: int32)
    requires SafeWindows(nums, k as int)
    ensures AreTheCuts(Cuts(nums, k as int, |nums|), nums, k as int, |nums|)
    ensures ranEmpty <==> k < 0 && nums != []
    ensures !ranEmpty ==> result as int == |Cuts(nums, k as int, |nums|)| % 1_000_000_007
  {
    var n := |nums|;
    ghost var kk := k as int;
    hide *;
    var dp, pre := Tables(n, nums, kk);
    var left, w: multiset<int> := 0, multiset{};
    var right := 0;
    ranEmpty, result := false, 0;
    EmptyWindow(nums, kk);
    CutsAreAll(nums, kk, n);
    while right < n
      invariant 0 <= left <= right <= n && Window(w, nums, left, right) && FirstNarrow(nums, kk, left, right)
      invariant Table(dp[..], pre[..], nums, kk, right)
      invariant 0 < right ==> 0 <= k
    {
      Grow(w, nums, left, right);
      w := w + multiset{nums[right]};
      FirstReached(nums, kk, left, right);
      ranEmpty, w, left := Tighten(nums, k, w, left, right + 1);
      if ranEmpty { return; }
      Fill(dp, pre, left, right, nums, kk);
      right := right + 1;
    }
    result := dp[n];
    AtEnd(dp[..], pre[..], nums, kk, n);
  }

  lemma FirstReached(nums: seq<int>, k: int, left: nat, r: nat)
    requires FirstNarrow(nums, k, left, r) && left <= r < |nums|
    ensures Reached(nums, k, left, r + 1)
  {
    if 0 < left { NarrowLonger(nums, k, left - 1, r); }
  }

  lemma NarrowLonger(nums: seq<int>, k: int, l: int, r: int)
    requires !Narrow(nums, k, l, r)
    ensures !Narrow(nums, k, l, r + 1)
  {
  }

  lemma AtEnd(dp: seq<int32>, pre: seq<int32>, nums: seq<int>, k: int, n: nat)
    requires Table(dp, pre, nums, k, n)
    ensures dp[n] as int == |Cuts(nums, k, n)| % 1_000_000_007
  {
  }

  // With a negative k there is nothing to count: no segment is narrow, so a non-empty array has no cut.
  lemma NegativeBound(nums: seq<int>, k: int, l: nat, r: nat)
    requires k < 0 && l < r && l < |nums|
    ensures !Narrow(nums, k, l, r)
  {
    if Narrow(nums, k, l, r) { NarrowAt(nums, k, l, r, l, l); }
  }

  lemma NegativeHasNoCuts(nums: seq<int>, k: int)
    requires k < 0 && nums != []
    ensures Cuts(nums, k, |nums|) == {}
  {
    forall c ensures c !in Cuts(nums, k, |nums|) {
      CutsAreCuts(nums, k, |nums|, c);
      if IsCut(nums, k, c, |nums|) {
        CutShortens(nums, k, c, |nums|);
        NegativeBound(nums, k, c[|c| - 1], |nums|);
      }
    }
  }

  // The source's own two arrays.
  lemma OwnArrays()
    ensures |Cuts([9, 4, 1, 3, 7], 4, 5)| == 6
    ensures |Cuts([3, 3, 4], 0, 3)| == 2
  {
    var a, b := [9, 4, 1, 3, 7], [3, 3, 4];
    OwnWindows(a, b);
    hide FirstNarrow, Cuts;
    FiveWays(a, 4);
    ThreeWays(b, 0);
  }

  lemma WaysUpToStep(nums: seq<int>, k: int, i: nat)
    ensures WaysUpTo(nums, k, 0) == 0 && Ways(nums, k, 0) == 1
    ensures WaysUpTo(nums, k, i + 1) == WaysUpTo(nums, k, i) + Ways(nums, k, i)
  {
  }

  lemma FiveWays(a: seq<int>, k: int)
    requires FirstNarrow(a, k, 0, 1) && FirstNarrow(a, k, 1, 2) && FirstNarrow(a, k, 1, 3)
    requires FirstNarrow(a, k, 1, 4) && FirstNarrow(a, k, 3, 5)
    ensures Ways(a, k, 5) == 6
  {
    hide FirstNarrow, Ways, WaysUpTo;
    WaysByWindow(a, k, 0, 1);
    WaysByWindow(a, k, 1, 2);
    WaysByWindow(a, k, 1, 3);
    WaysByWindow(a, k, 1, 4);
    WaysByWindow(a, k, 3, 5);
    WaysUpToStep(a, k, 0);
    WaysUpToStep(a, k, 1);
    WaysUpToStep(a, k, 2);
    WaysUpToStep(a, k, 3);
    WaysUpToStep(a, k, 4);
  }

  lemma ThreeWays(b: seq<int>, k: int)
    requires FirstNarrow(b, k, 0, 1) && FirstNarrow(b, k, 0, 2) && FirstNarrow(b, k, 2, 3)
    ensures Ways(b, k, 3) == 2
  {
    hide FirstNarrow, Ways, WaysUpTo;
    WaysByWindow(b, k, 0, 1);
    WaysByWindow(b, k, 0, 2);
    WaysByWindow(b, k, 2, 3);
    WaysUpToStep(b, k, 0);
    WaysUpToStep(b, k, 1);
    WaysUpToStep(b, k, 2);
  }

  lemma OwnWindows(a: seq<int>, b: seq<int>)
    requires a == [9, 4, 1, 3, 7] && b == [3, 3, 4]
    ensures FirstNarrow(a, 4, 0, 1) && FirstNarrow(a, 4, 1, 2) && FirstNarrow(a, 4, 1, 3)
    ensures FirstNarrow(a, 4, 1, 4) && FirstNarrow(a, 4, 3, 5)
    ensures FirstNarrow(b, 0, 0, 1) && FirstNarrow(b, 0, 0, 2) && FirstNarrow(b, 0, 2, 3)
  {
    assert a[0] - a[1] > 4 && a[4] - a[2] > 4 && b[2] - b[1] > 0;
  }

  // Differences between elements that are never in one window do not matter.
  lemma DistantElements()
    ensures SafeWindows([-2_000_000_000, 0, 2_000_000_000], 1_000_000_000)
  {
    var nums, k := [-2_000_000_000, 0, 2_000_000_000], 1_000_000_000;
    assert !Narrow(nums, k, 0, 2) by { assert nums[1] - nums[0] > k; }
    forall l, r | Reached(nums, k, l, r) ensures WindowFits(nums, l, r) {
      assert r <= l + 2;
      hide Narrow, Reached, WindowFits;
      NeighboursFit(nums, l, r);
    }
  }

  lemma NeighboursFit(nums: seq<int>, l: int, r: int)
    requires |nums| == 3 && nums[0] == -2_000_000_000 && nums[1] == 0 && nums[2] == 2_000_000_000
    requires 0 <= l < r <= 3 && r <= l + 2
    ensures WindowFits(nums, l, r)
  {
  }

  lemma NarrowAt(nums: seq<int>, k: int, l: nat, r: nat, i: nat, j: nat)
    requires Narrow(nums, k, l, r) && l <= i < r && l <= j < r && i < |nums| && j < |nums|
    ensures nums[i] - nums[j] <= k
  {
  }
}
