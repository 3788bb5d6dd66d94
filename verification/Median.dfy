/** In-place quickselect with an arbitrary pivot, and the median made from its two results. */
module Median {
  import opened Basics

  // ----- Order statistics

  function CountLess(s: seq<int>, v: int): nat
    decreases |s|
  {
    if s == [] then 0 else CountLess(s[..|s| - 1], v) + if s[|s| - 1] < v then 1 else 0
  }

  function CountUpTo(s: seq<int>, v: int): nat
    decreases |s|
  {
    if s == [] then 0 else CountUpTo(s[..|s| - 1], v) + if s[|s| - 1] <= v then 1 else 0
  }

  /** `v` is what stands at position `m` once `s` is sorted. */
  predicate IsStat(s: seq<int>, v: int, m: int) {
    CountLess(s, v) <= m < CountUpTo(s, v)
  }

  predicate Sorted(s: seq<int>) {
    forall i, j :: 0 <= i <= j < |s| ==> s[i] <= s[j]
  }

  /** Nothing before position `m` is above anything from `m` on. */
  predicate Split(s: seq<int>, m: int) {
    forall i, j :: 0 <= i < m <= j < |s| ==> s[i] <= s[j]
  }

  lemma {:induction false} CountCut(s: seq<int>, k: nat, v: int)
    requires k < |s|
    ensures CountLess(s[..k] + s[k + 1..], v) == CountLess(s, v) - (if s[k] < v then 1 else 0)
    ensures CountUpTo(s[..k] + s[k + 1..], v) == CountUpTo(s, v) - (if s[k] <= v then 1 else 0)
    decreases |s|
  {
    var n, cut := |s| - 1, s[..k] + s[k + 1..];
    if k == n {
      assert cut == s[..n];
    } else {
      CountCut(s[..n], k, v);
      assert s[..n][..k] + s[..n][k + 1..] == cut[..n - 1] && cut[n - 1] == s[n];
    }
  }

  /** The counts do not depend on the order. */
  lemma {:induction false} CountShuffled(s: seq<int>, t: seq<int>, v: int)
    requires multiset(s) == multiset(t)
    ensures CountLess(s, v) == CountLess(t, v) && CountUpTo(s, v) == CountUpTo(t, v)
    decreases |t|
  {
    if t == [] {
      assert |multiset(s)| == 0;
    } else {
      var k := TakeLast(s, t);
      CountShuffled(Cut(s, k), t[..|t| - 1], v);
      CountCut(s, k, v);
    }
  }

  lemma {:induction false} CountBounds(s: seq<int>, v: int, p: nat, n: nat)
    requires p < |s| && n <= |s|
    requires forall i :: p <= i < |s| ==> v <= s[i]
    requires forall i :: 0 <= i <= p ==> s[i] <= v
    ensures CountLess(s[..n], v) <= p && (if n <= p then n else p + 1) <= CountUpTo(s[..n], v)
    ensures CountLess(s[..n], v) <= n
    decreases n
  {
    if n > 0 {
      CountBounds(s, v, p, n - 1);
      assert s[..n][..n - 1] == s[..n - 1];
    }
  }

  /** A pivot with nothing above it on its left and nothing below it on its right is the statistic of its position. */
  lemma SplitStat(s: seq<int>, p: nat)
    requires p < |s| && Split(s, p) && Split(s, p + 1)
    ensures IsStat(s, s[p], p)
  {
    CountBounds(s, s[p], p, |s|);
    assert s[..|s|] == s;
  }

  lemma {:induction false} CountMonotone(s: seq<int>, v: int, w: int)
    requires v < w
    ensures CountUpTo(s, v) <= CountLess(s, w)
    decreases |s|
  {
    if s != [] { CountMonotone(s[..|s| - 1], v, w); }
  }

  /** Each position has one statistic, and sorting shows it there. */
  lemma StatUnique(s: seq<int>, v: int, w: int, m: int)
    requires IsStat(s, v, m) && IsStat(s, w, m)
    ensures v == w
  {
    if v < w { CountMonotone(s, v, w); }
    if w < v { CountMonotone(s, w, v); }
  }

  lemma StatSorted(s: seq<int>, t: seq<int>, v: int, m: nat)
    requires multiset(s) == multiset(t) && Sorted(t) && m < |t|
    ensures IsStat(s, v, m) <==> v == t[m]
  {
    SplitStat(t, m);
    CountShuffled(s, t, t[m]);
    if IsStat(s, v, m) { StatUnique(s, v, t[m], m); }
  }

  // ----- The algorithm

  /** Elements may be exchanged on one side of a split. */
  lemma SplitSwap(s: seq<int>, i: nat, j: nat, m: int)
    requires i < |s| && j < |s| && (i < m <==> j < m) && Split(s, m)
    ensures Split(s[i := s[j]][j := s[i]], m)
  {}

  /** swap, inside a stretch of the array. */
  method SwapInside(arr: array<int>, l: nat, r: nat, i: nat, j: nat)
    requires l <= i <= r < arr.Length && l <= j <= r && Split(arr[..], l) && Split(arr[..], r + 1)
    modifies arr
    ensures Split(arr[..], l) && Split(arr[..], r + 1)
    ensures arr[i] == old(arr[j]) && arr[j] == old(arr[i])
    ensures forall m :: 0 <= m < arr.Length && m != i && m != j ==> arr[m] == old(arr[m])
    ensures multiset(arr[..]) == old(multiset(arr[..]))
  {
    hide Split;
    SplitSwap(arr[..], i, j, l);
    SplitSwap(arr[..], i, j, r + 1);
    ghost var was := arr[..];
    arr[i], arr[j] := arr[j], arr[i];
    assert arr[..] == was[i := was[j]][j := was[i]];
  }

  /** What stays while the elements from `l` to `r` are rearranged. */
  predicate Fenced(s: seq<int>, l: int, r: int) {
    Split(s, l) && Split(s, r + 1)
  }

  method Partition(arr: array<int>, l: nat, r: nat) returns (i: nat)
    requires l <= r < arr.Length && Fenced(arr[..], l, r)
    modifies arr
    ensures l <= i <= r && Fenced(arr[..], l, r) && Fenced(arr[..], i, i)
    ensures multiset(arr[..]) == old(multiset(arr[..]))
  {
    hide Split, Fenced;
    var lst := arr[r];
    i := l;
    var j := l;
    FencedParts(arr[..], l, r);
    while j < r
      invariant l <= i <= j <= r && Split(arr[..], l) && Split(arr[..], r + 1) && arr[r] == lst
      invariant forall m :: l <= m < i ==> arr[m] < lst
      invariant forall m :: i <= m < j ==> arr[m] >= lst
      invariant multiset(arr[..]) == old(multiset(arr[..]))
    {
      if arr[j] < lst {
        SwapInside(arr, l, r, i, j);
        i := i + 1;
      }
      j := j + 1;
    }
    SwapInside(arr, l, r, i, r);
    Placed(arr[..], l, r, i);
  }

  lemma FencedParts(s: seq<int>, l: int, r: int)
    ensures Fenced(s, l, r) <==> Split(s, l) && Split(s, r + 1)
  {}

  lemma Placed(s: seq<int>, l: nat, r: nat, i: nat)
    requires l <= i <= r < |s| && Split(s, l) && Split(s, r + 1)
    requires forall m :: l <= m < i ==> s[m] < s[i]
    requires forall m :: i < m <= r ==> s[m] >= s[i]
    ensures Fenced(s, l, r) && Fenced(s, i, i)
  {
    forall x, y | 0 <= x < i <= y < |s| ensures s[x] <= s[y] {
      assert x < l ==> s[x] <= s[i] && s[x] <= s[y];
      assert y > r ==> s[i] <= s[y] && s[x] <= s[y];
    }
    forall x, y | 0 <= x < i + 1 <= y < |s| ensures s[x] <= s[y] {
      assert x < l ==> s[x] <= s[y];
      assert y > r ==> s[x] <= s[y];
    }
  }

  /** randomPartition, for whatever rand() yields. */
  method RandomPartition(arr: array<int>, l: nat, r: nat) returns (i: nat)
    requires l <= r < arr.Length && Fenced(arr[..], l, r)
    modifies arr
    ensures l <= i <= r && Fenced(arr[..], l, r) && Fenced(arr[..], i, i)
    ensures multiset(arr[..]) == old(multiset(arr[..]))
  {
    hide Split;
    var pivot: nat :| pivot < r - l + 1;
    FencedParts(arr[..], l, r);
    SwapInside(arr, l, r, l + pivot, r);
    FencedParts(arr[..], l, r);
    i := Partition(arr, l, r);
  }

  /** Position `m` is still to be found between `l` and `r`, or `v` is its statistic already; -1 says that it was not
      seen. */
  predicate Known(s: seq<int>, v: int, m: int, l: int, r: int) {
    (v != -1 ==> IsStat(s, v, m)) && (l <= m <= r || m < 0 || IsStat(s, v, m))
  }

  /** MedianUtil: both statistics are found, also when a value equals the -1 that stands for "not seen". */
  method MedianUtil(arr: array<int>, l: nat, r: int, k: nat, a: int, b: int) returns (a': int, b': int)
    requires l <= r + 1 <= arr.Length && Fenced(arr[..], l, r)
    requires Known(arr[..], a, k - 1, l, r) && Known(arr[..], b, k, l, r)
    modifies arr
    ensures multiset(arr[..]) == old(multiset(arr[..]))
    ensures IsStat(arr[..], b', k) && (k > 0 ==> IsStat(arr[..], a', k - 1))
    decreases r - l + 1
  {
    hide Fenced, IsStat;
    ghost var was := arr[..];
    a', b' := a, b;
    if l <= r {
      var p := RandomPartition(arr, l, r);
      StillKnown(was, arr[..], a, k - 1, l, r);
      StillKnown(was, arr[..], b, k, l, r);
      PivotFacts(arr[..], l, r, p);
      if p == k {
        b' := arr[p];
        if a' != -1 {
          return;
        }
      } else if p == k - 1 {
        a' := arr[p];
        if b' != -1 {
          return;
        }
      }
      if p >= k {
        a', b' := MedianUtil(arr, l, p - 1, k, a', b');
      } else {
        a', b' := MedianUtil(arr, p + 1, r, k, a', b');
      }
    }
  }

  lemma PivotFacts(s: seq<int>, l: nat, r: int, p: nat)
    requires l <= p <= r < |s| && Fenced(s, l, r) && Fenced(s, p, p)
    ensures Fenced(s, l, p - 1) && Fenced(s, p + 1, r) && IsStat(s, s[p], p)
  {
    hide Split, IsStat;
    SplitStat(s, p);
  }

  lemma StillKnown(s: seq<int>, t: seq<int>, v: int, m: int, l: int, r: int)
    requires multiset(s) == multiset(t) && Known(s, v, m, l, r)
    ensures Known(t, v, m, l, r)
  {
    CountShuffled(s, t, v);
  }

  /** Division by 2 in C. */
  function Half(x: int): int {
    if x >= 0 then x / 2 else -(-x / 2)
  }

  const INT64_MAX: int := 0x7fff_ffff_ffff_ffff

  /** The sum of two 64-bit integers, which wraps around. */
  function Plus64(x: int, y: int): int {
    var m := (x + y) % 0x1_0000_0000_0000_0000;
    if m <= INT64_MAX then m else m - 0x1_0000_0000_0000_0000
  }

  predicate IsInt64(x: int) { 0 - INT64_MAX - 1 <= x <= INT64_MAX }

  /** The mean of two middle values is right if and only if their sum fits. */
  lemma MeanExact(x: int, y: int)
    requires IsInt64(x) && IsInt64(y)
    ensures Half(Plus64(x, y)) == Half(x + y) <==> IsInt64(x + y)
  {}

  /** get_median: the middle value of the sorted data, or half the sum of the two middle ones, rounded towards 0. */
  method GetMedian(arr: array<int>) returns (median: int)
    modifies arr
    ensures multiset(arr[..]) == old(multiset(arr[..]))
    ensures arr.Length == 0 ==> median == -1
    ensures forall t :: Sorted(t) && multiset(t) == old(multiset(arr[..])) && |t| > 0 ==>
      median == if |t| % 2 == 1 then t[|t| / 2] else Half(Plus64(t[|t| / 2 - 1], t[|t| / 2]))
  {
    hide Sorted, IsStat;
    var n := arr.Length;
    var a, b := -1, -1;
    WholeFenced(arr[..]);
    if n == 0 {
      forall t: seq<int> | multiset(t) == multiset(arr[..]) ensures |t| == 0 { assert |multiset(t)| == |arr[..]|; }
      return Half(Plus64(a, b));
    }
    a, b := MedianUtil(arr, 0, n - 1, n / 2, a, b);
    median := if n % 2 == 1 then b else Half(Plus64(a, b));
    ghost var s := arr[..];
    forall t | Sorted(t) && multiset(t) == multiset(s) && |t| > 0
      ensures median == if |t| % 2 == 1 then t[|t| / 2] else Half(Plus64(t[|t| / 2 - 1], t[|t| / 2]))
    {
      assert |t| == |multiset(t)| == |multiset(s)| == n;
      StatSorted(s, t, b, n / 2);
      if n >= 2 { StatSorted(s, t, a, n / 2 - 1); }
    }
  }

  lemma WholeFenced(s: seq<int>)
    ensures Fenced(s, 0, |s| - 1)
  {}
}
