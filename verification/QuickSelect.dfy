/** Quickselect with a Hoare partition, in place, for either order (other/quick_select.hpp). */
module QuickSelect {
  import opened Containers
  import opened Multisets

  // x comes strictly before y in ascending, or in descending, order.
  predicate Before(desc: bool, x: int, y: int) { if desc then x > y else x < y }

  // ---------- the k-th element ----------

  // How many elements come strictly before v.
  ghost function Count(desc: bool, s: seq<int>, v: int): nat {
    if s == [] then 0 else Count(desc, s[..|s| - 1], v) + if Before(desc, s[|s| - 1], v) then 1 else 0
  }

  // At most k elements come before v, and too few after it to push it out of position k.
  ghost predicate Kth(desc: bool, s: seq<int>, v: int, k: int) {
    v in s && Count(desc, s, v) <= k && Count(!desc, s, v) + k < |s|
  }

  ghost predicate Ascending(t: seq<int>) { forall i, j :: 0 <= i < j < |t| ==> t[i] <= t[j] }

  ghost predicate Descending(t: seq<int>) { forall i, j :: 0 <= i < j < |t| ==> t[i] >= t[j] }

  ghost predicate Sorted(desc: bool, t: seq<int>) { if desc then Descending(t) else Ascending(t) }

  lemma {:induction false} CountConcat(desc: bool, s: seq<int>, t: seq<int>, v: int)
    ensures Count(desc, s + t, v) == Count(desc, s, v) + Count(desc, t, v)
  {
    if t == [] {
      assert s + t == s;
    } else {
      var n := |t| - 1;
      CountConcat(desc, s, t[..n], v);
      assert (s + t)[..|s| + n] == s + t[..n];
    }
  }

  lemma {:induction false} CountBounds(desc: bool, s: seq<int>, v: int)
    ensures Count(desc, s, v) <= |s|
    ensures (forall x :: x in s ==> !Before(desc, x, v)) ==> Count(desc, s, v) == 0
    ensures Count(desc, s, v) + Count(!desc, s, v) <= |s|
    ensures v in s ==> Count(desc, s, v) + Count(!desc, s, v) < |s|
  {
    if s != [] { CountBounds(desc, s[..|s| - 1], v); }
  }

  lemma {:induction false} CountAll(desc: bool, s: seq<int>, v: int)
    requires forall x :: x in s ==> Before(desc, x, v)
    ensures Count(desc, s, v) == |s|
  {
    if s != [] { CountAll(desc, s[..|s| - 1], v); }
  }

  lemma WithoutOne(s: seq<int>, i: int)
    requires 0 <= i < |s|
    ensures multiset(s[..i] + s[i + 1..]) == multiset(s) - multiset{s[i]}
  {
    assert s == s[..i] + [s[i]] + s[i + 1..];
  }

  lemma CountWithoutOne(desc: bool, t: seq<int>, i: int, v: int)
    requires 0 <= i < |t|
    ensures Count(desc, t, v) == Count(desc, t[..i] + t[i + 1..], v) + if Before(desc, t[i], v) then 1 else 0
  {
    assert t == t[..i + 1] + t[i + 1..] && t[..i + 1][..i] == t[..i];
    CountConcat(desc, t[..i + 1], t[i + 1..], v);
    CountConcat(desc, t[..i], t[i + 1..], v);
  }

  lemma {:induction false} CountPermuted(desc: bool, s: seq<int>, t: seq<int>, v: int)
    requires multiset(s) == multiset(t)
    ensures Count(desc, s, v) == Count(desc, t, v)
    decreases |s|
  {
    SameLength(s, t);
    if s != [] {
      hide Count;
      assert s[0] in multiset(t);
      var i :| 0 <= i < |t| && t[i] == s[0];
      WithoutOne(s, 0);
      WithoutOne(t, i);
      CountWithoutOne(desc, s, 0, v);
      CountWithoutOne(desc, t, i, v);
      CountPermuted(desc, s[..0] + s[1..], t[..i] + t[i + 1..], v);
    }
  }

  lemma SameLength(s: seq<int>, t: seq<int>)
    requires multiset(s) == multiset(t)
    ensures |s| == |t|
  {
    assert |s| == |multiset(s)| && |t| == |multiset(t)|;
  }

  lemma KthPermuted(desc: bool, s: seq<int>, t: seq<int>, v: int, k: int)
    requires Kth(desc, s, v, k) && multiset(s) == multiset(t)
    ensures Kth(desc, t, v, k)
  {
    hide Count;
    CountPermuted(desc, s, t, v);
    CountPermuted(!desc, s, t, v);
    assert v in multiset(t);
    assert |s| == |multiset(s)| && |t| == |multiset(t)|;
  }

  // In a sorted sequence the element at position k is a k-th element.
  lemma SortedKth(desc: bool, t: seq<int>, k: int)
    requires Sorted(desc, t) && 0 <= k < |t|
    ensures Kth(desc, t, t[k], k)
  {
    hide Count;
    var v := t[k];
    assert t == t[..k] + t[k..] && t == t[..k + 1] + t[k + 1..];
    CountConcat(desc, t[..k], t[k..], v);
    CountConcat(!desc, t[..k + 1], t[k + 1..], v);
    CountBounds(desc, t[..k], v);
    CountBounds(desc, t[k..], v);
    CountBounds(!desc, t[..k + 1], v);
    CountBounds(!desc, t[k + 1..], v);
  }

  // Whatever comes before u also comes before a v that u comes before, and so does u itself.
  lemma {:induction false} CountGrows(desc: bool, s: seq<int>, u: int, v: int)
    requires Before(desc, u, v)
    ensures |s| - Count(!desc, s, u) <= Count(desc, s, v)
  {
    if s != [] { CountGrows(desc, s[..|s| - 1], u, v); }
  }

  lemma KthUnique(desc: bool, s: seq<int>, u: int, v: int, k: int)
    requires Kth(desc, s, u, k) && Kth(desc, s, v, k)
    ensures u == v
  {
    hide Count;
    if Before(desc, u, v) { CountGrows(desc, s, u, v); } else if Before(desc, v, u) { CountGrows(desc, s, v, u); }
  }

  // The k-th element is the one at position k of any sorted arrangement.
  lemma KthIsSorted(desc: bool, s: seq<int>, v: int, k: int, t: seq<int>)
    requires Kth(desc, s, v, k) && 0 <= k && Sorted(desc, t) && multiset(t) == multiset(s)
    ensures k < |t| && t[k] == v
  {
    hide Count;
    KthPermuted(desc, s, t, v, k);
    SortedKth(desc, t, k);
    KthUnique(desc, t, v, t[k], k);
  }

  lemma AtRank(desc: bool, s: seq<int>, v: int, k: int)
    requires Kth(desc, s, v, k) && 0 <= k
    ensures forall t :: multiset(t) == multiset(s) && Sorted(desc, t) ==> k < |t| && t[k] == v
  {
    forall t | multiset(t) == multiset(s) && Sorted(desc, t) ensures k < |t| && t[k] == v {
      KthIsSorted(desc, s, v, k, t);
    }
  }

  lemma LargestAtEnds(up: seq<int>, down: seq<int>, m: int)
    requires Ascending(up) && Descending(down) && multiset(up) == multiset(down)
    requires forall x :: x in multiset(up) ==> x <= m
    ensures Ascending(up + [m]) && Descending([m] + down)
  {
    forall i | 0 <= i < |up| ensures up[i] <= m { assert up[i] in multiset(up); }
    forall i | 0 <= i < |down| ensures down[i] <= m { assert down[i] in multiset(down); }
  }

  // Both arrangements exist for any elements.
  lemma {:induction false} Arrangements(b: multiset<int>) returns (up: seq<int>, down: seq<int>)
    ensures multiset(up) == b && Ascending(up)
    ensures multiset(down) == b && Descending(down)
    decreases |b|
  {
    if b == multiset{} {
      up, down := [], [];
    } else {
      MaxExists(b);
      var m :| IsMax(b, m);
      up, down := Arrangements(b - multiset{m});
      LargestAtEnds(up, down, m);
      up, down := up + [m], [m] + down;
    }
  }

  // If nothing of t comes before anything of s, the k-th of s + t is found in s or in t.
  lemma KthSplits(desc: bool, s: seq<int>, t: seq<int>, v: int, k: int)
    requires forall x, y :: x in s && y in t ==> !Before(desc, y, x)
    requires if k < |s| then Kth(desc, s, v, k) else Kth(desc, t, v, k - |s|)
    ensures Kth(desc, s + t, v, k)
  {
    hide Count;
    CountConcat(desc, s, t, v);
    CountConcat(!desc, s, t, v);
    CountBounds(desc, s, v);
    CountBounds(!desc, s, v);
    CountBounds(desc, t, v);
    CountBounds(!desc, t, v);
  }

  // ---------- in place ----------

  // The same elements, rearranged between lo and hi.
  ghost predicate Rearranged(s: seq<int>, t: seq<int>, lo: int, hi: int) {
    && |s| == |t| && multiset(s) == multiset(t)
    && forall i {:trigger t[i]} :: 0 <= i < |s| && (i < lo || hi < i) ==> t[i] == s[i]
  }

  lemma RangeRearranged(s: seq<int>, t: seq<int>, lo: int, hi: int)
    requires Rearranged(s, t, lo, hi) && 0 <= lo <= hi < |s|
    ensures multiset(s[lo..hi + 1]) == multiset(t[lo..hi + 1])
  {
    assert s == s[..lo] + s[lo..hi + 1] + s[hi + 1..] && t == t[..lo] + t[lo..hi + 1] + t[hi + 1..];
    assert s[..lo] == t[..lo] && s[hi + 1..] == t[hi + 1..];
    Cancel(multiset(s[..lo]), multiset(s[lo..hi + 1]), multiset(t[lo..hi + 1]), multiset(s[hi + 1..]));
  }

  // The Hoare partition has come this far: up to l nothing comes after the pivot, from r on nothing before it.
  ghost predicate Parted(desc: bool, s: seq<int>, left: int, right: int, l: int, r: int, pivot: int) {
    && (forall i {:trigger s[i]} :: 0 <= i < |s| && left <= i <= l ==> !Before(desc, pivot, s[i]))
    && (forall i {:trigger s[i]} :: 0 <= i < |s| && r <= i <= right ==> !Before(desc, s[i], pivot))
  }

  // Moves right at least once, and on past all elements before the pivot.
  method ScanRight(a: array<int>, desc: bool, l0: int, right: int, pivot: int, ghost stop: int) returns (l: int)
    requires -1 <= l0 < stop <= right < a.Length && !Before(desc, a[stop], pivot)
    ensures l0 < l <= stop && !Before(desc, a[l], pivot)
    ensures forall i {:trigger a[i]} :: l0 < i < l ==> Before(desc, a[i], pivot)
  {
    l := l0 + 1;
    while Before(desc, a[l], pivot)
      invariant l0 < l <= stop
      invariant forall i {:trigger a[i]} :: l0 < i < l ==> Before(desc, a[i], pivot)
      decreases stop - l
    {
      l := l + 1;
    }
  }

  // Moves left at least once, and on past all elements after the pivot.
  method ScanLeft(a: array<int>, desc: bool, r0: int, left: int, pivot: int, ghost stop: int) returns (r: int)
    requires 0 <= left <= stop < r0 <= a.Length && !Before(desc, pivot, a[stop])
    ensures stop <= r < r0 && !Before(desc, pivot, a[r])
    ensures forall i {:trigger a[i]} :: r < i < r0 ==> Before(desc, pivot, a[i])
  {
    r := r0 - 1;
    while Before(desc, pivot, a[r])
      invariant stop <= r < r0
      invariant forall i {:trigger a[i]} :: r < i < r0 ==> Before(desc, pivot, a[i])
      decreases r
    {
      r := r - 1;
    }
  }

  lemma SwapRearranges(s: seq<int>, t: seq<int>, u: seq<int>, lo: int, hi: int, i: int, j: int)
    requires Rearranged(s, t, lo, hi) && 0 <= lo <= i < j <= hi < |t| && u == t[i := t[j]][j := t[i]]
    ensures Rearranged(s, u, lo, hi)
  {
    assert t == t[..i] + [t[i]] + t[i + 1..j] + [t[j]] + t[j + 1..];
    assert u == t[..i] + [t[j]] + t[i + 1..j] + [t[i]] + t[j + 1..];
  }

  // Before the first round, or in the middle of a range with the pivot's place on either side.
  predicate Scanning(s: seq<int>, left: int, right: int, l: int, r: int, pivot: int)
    requires 0 <= left < |s|
  {
    (l == left - 1 && r == right + 1 && s[left] == pivot) || (left <= l < r <= right)
  }

  // Where both scans stopped: between the old bounds and the new ones everything is on its side.
  ghost predicate Scanned(desc: bool, s: seq<int>, l0: int, r0: int, l: int, r: int, pivot: int) {
    && l0 < l && r < r0 && 0 <= l < |s| && 0 <= r < |s|
    && !Before(desc, s[l], pivot) && !Before(desc, pivot, s[r])
    && (forall i {:trigger s[i]} :: 0 <= i < |s| && l0 < i < l ==> Before(desc, s[i], pivot))
    && (forall i {:trigger s[i]} :: 0 <= i < |s| && r < i < r0 ==> Before(desc, pivot, s[i]))
  }

  lemma ScansMet(desc: bool, s: seq<int>, left: int, right: int, l0: int, r0: int, l: int, r: int, pivot: int)
    requires Parted(desc, s, left, right, l0, r0, pivot) && Scanned(desc, s, l0, r0, l, r, pivot) && l >= r
    ensures Parted(desc, s, left, right, r, r + 1, pivot)
  {
  }

  lemma ScansSwapped(
      desc: bool, s: seq<int>, u: seq<int>, left: int, right: int, l0: int, r0: int, l: int, r: int, pivot: int)
    requires Parted(desc, s, left, right, l0, r0, pivot) && Scanned(desc, s, l0, r0, l, r, pivot) && l < r
    requires u == s[l := s[r]][r := s[l]]
    ensures Parted(desc, u, left, right, l, r, pivot)
  {
  }

  // Each scan has an element to stop at: the pivot at first, then the elements swapped last.
  method Scan(a: array<int>, desc: bool, left: int, right: int, l0: int, r0: int, pivot: int)
    returns (l: int, r: int)
    requires 0 <= left < right < a.Length && Scanning(a[..], left, right, l0, r0, pivot)
    requires Parted(desc, a[..], left, right, l0, r0, pivot)
    ensures Scanned(desc, a[..], l0, r0, l, r, pivot)
    ensures left <= l <= right && left <= r <= right
    ensures l >= r ==> r < right
  {
    ghost var s := a[..];
    assert l0 < left || !Before(desc, pivot, s[l0]);
    assert r0 > right || !Before(desc, s[r0], pivot);
    l := ScanRight(a, desc, l0, right, pivot, if l0 < left then left else r0);
    r := ScanLeft(a, desc, r0, left, pivot, if l0 < left then left else l0);
  }

  // One round of the loop: both scans, and the swap.
  method Round(a: array<int>, desc: bool, left: int, right: int, l0: int, r0: int, pivot: int, ghost s0: seq<int>)
    returns (l: int, r: int)
    requires 0 <= left < right < a.Length && Scanning(a[..], left, right, l0, r0, pivot)
    requires Parted(desc, a[..], left, right, l0, r0, pivot) && Rearranged(s0, a[..], left, right)
    modifies a
    ensures Rearranged(s0, a[..], left, right)
    ensures l0 < l && r < r0
    ensures l < r ==> left <= l && r <= right && Parted(desc, a[..], left, right, l, r, pivot)
    ensures l >= r ==> left <= r < right && Parted(desc, a[..], left, right, r, r + 1, pivot)
  {
    hide Rearranged, Parted, Scanning;
    ghost var s := a[..];
    l, r := Scan(a, desc, left, right, l0, r0, pivot);
    if l < r {
      ghost var u := s[l := s[r]][r := s[l]];
      ScansSwapped(desc, s, u, left, right, l0, r0, l, r, pivot);
      SwapRearranges(s0, s, u, left, right, l, r);
      a[l], a[r] := a[r], a[l];
      assert a[..] == u;
    } else {
      ScansMet(desc, s, left, right, l0, r0, l, r, pivot);
    }
  }

  // Splits the range: r < right, and nothing after r comes before anything up to r.
  method Partition(a: array<int>, desc: bool, left: int, right: int) returns (r: int)
    requires 0 <= left < right < a.Length
    modifies a
    ensures left <= r < right
    ensures Rearranged(old(a[..]), a[..], left, right)
    ensures forall i, j :: left <= i <= r < j <= right ==> !Before(desc, a[j], a[i])
  {
    var pivot := a[left];
    var l := left - 1;
    r := right + 1;
    while l < r
      invariant Rearranged(old(a[..]), a[..], left, right)
      invariant l < r ==> Scanning(a[..], left, right, l, r, pivot) && Parted(desc, a[..], left, right, l, r, pivot)
      invariant l >= r ==> left <= r < right && Parted(desc, a[..], left, right, r, r + 1, pivot)
      decreases r - l
    {
      hide Rearranged, Parted;
      l, r := Round(a, desc, left, right, l, r, pivot, old(a[..]));
    }
    ghost var s := a[..];
    forall i, j | left <= i <= r < j <= right ensures !Before(desc, a[j], a[i]) {
      assert !Before(desc, pivot, s[i]) && !Before(desc, s[j], pivot);
    }
  }

  lemma RearrangedTwice(s: seq<int>, t: seq<int>, u: seq<int>, lo: int, hi: int, lo': int, hi': int)
    requires Rearranged(s, t, lo, hi) && Rearranged(t, u, lo', hi') && lo <= lo' && hi' <= hi
    ensures Rearranged(s, u, lo, hi)
  {
  }

  // From the k-th element of one side after the partition to that of the whole range before it.
  lemma SideIsWhole(
      desc: bool, s: seq<int>, t: seq<int>, left: int, right: int, r: int, k: int, v: int)
    requires 0 <= left <= r < right < |s| && left <= k <= right && Rearranged(s, t, left, right)
    requires forall i, j :: left <= i <= r < j <= right ==> !Before(desc, t[j], t[i])
    requires k <= r ==> Kth(desc, t[left..r + 1], v, k - left)
    requires k > r ==> Kth(desc, t[r + 1..right + 1], v, k - (r + 1))
    ensures Kth(desc, s[left..right + 1], v, k - left)
  {
    var x, y := t[left..r + 1], t[r + 1..right + 1];
    assert t[left..right + 1] == x + y;
    forall p, q | p in x && q in y ensures !Before(desc, q, p) {
      var i :| 0 <= i < |x| && x[i] == p;
      var j :| 0 <= j < |y| && y[j] == q;
      assert t[left + i] == p && t[r + 1 + j] == q;
    }
    hide Before, Kth;
    KthSplits(desc, x, y, v, k - left);
    RangeRearranged(s, t, left, right);
    KthPermuted(desc, x + y, s[left..right + 1], v, k - left);
  }

  method Select(a: array<int>, desc: bool, left: int, right: int, k: int) returns (v: int)
    requires 0 <= left <= k <= right < a.Length
    modifies a
    ensures Kth(desc, old(a[left..right + 1]), v, k - left)
    ensures Rearranged(old(a[..]), a[..], left, right)
    decreases right - left
  {
    ghost var s := a[..];
    assert a[left..right + 1] == s[left..right + 1];
    if left == right {
      SingleKth(desc, s, left);
      return a[left];
    }
    hide Kth, Rearranged, Before;
    var r := Partition(a, desc, left, right);
    ghost var t := a[..];
    if k <= r {
      assert a[left..r + 1] == t[left..r + 1];
      v := Select(a, desc, left, r, k);
    } else {
      assert a[r + 1..right + 1] == t[r + 1..right + 1];
      v := Select(a, desc, r + 1, right, k);
    }
    SideIsWhole(desc, s, t, left, right, r, k, v);
    RearrangedTwice(s, t, a[..], left, right, if k <= r then left else r + 1, if k <= r then r else right);
  }

  lemma SingleKth(desc: bool, s: seq<int>, i: int)
    requires 0 <= i < |s|
    ensures Kth(desc, s[i..i + 1], s[i], 0)
  {
    assert s[i..i + 1] == [s[i]];
    CountBounds(desc, [s[i]], s[i]);
    CountBounds(!desc, [s[i]], s[i]);
  }

  // The element at position k of the range once it is sorted by <=; only the range is rearranged.
  method QuickSelect(a: array<int>, left: int, right: int, k: int) returns (v: int)
    requires 0 <= left <= k <= right < a.Length
    modifies a
    ensures forall t :: multiset(t) == multiset(old(a[left..right + 1])) && Ascending(t) ==>
      k - left < |t| && t[k - left] == v
    ensures Kth(false, old(a[left..right + 1]), v, k - left)
    ensures Rearranged(old(a[..]), a[..], left, right)
  {
    v := Select(a, false, left, right, k);
    AtRank(false, old(a[left..right + 1]), v, k - left);
  }

  // The same for sorting by >=.
  method QuickSelectDecrease(a: array<int>, left: int, right: int, k: int) returns (v: int)
    requires 0 <= left <= k <= right < a.Length
    modifies a
    ensures forall t :: multiset(t) == multiset(old(a[left..right + 1])) && Descending(t) ==>
      k - left < |t| && t[k - left] == v
    ensures Kth(true, old(a[left..right + 1]), v, k - left)
    ensures Rearranged(old(a[..]), a[..], left, right)
  {
    v := Select(a, true, left, right, k);
    AtRank(true, old(a[left..right + 1]), v, k - left);
  }
}
