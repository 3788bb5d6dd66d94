/** Hartigan and Wong's k-means (Algorithm AS 136): the transfers of the optimal and the quick stage, over reals. */
module KMeans {
  import opened Basics

  type Vec = seq<real>

  /** A clustering: `cluster` and `cluster2` by point, the other columns by cluster. */
  datatype Fit = Fit(point: seq<Vec>, dim: nat, cluster: seq<nat>, cluster2: seq<nat>,
    center: seq<Vec>, population: seq<nat>, an1: seq<real>, an2: seq<real>)

  /** HUGE_VAL stands for n / (n - 1) when n is 1; no transfer ever reads it. */
  const HUGE_VAL: real := 1.0e300

  // ----- Sums over the members of a cluster

  function Square(x: real): real { x * x }

  /** Squared distance in the first `m` coordinates. */
  function Dist(p: Vec, q: Vec, m: nat): real
    requires m <= |p| && m <= |q|
  {
    if m == 0 then 0.0 else Dist(p, q, m - 1) + Square(p[m - 1] - q[m - 1])
  }

  predicate Points(point: seq<Vec>, dim: nat) {
    forall j :: 0 <= j < |point| ==> |point[j]| == dim
  }

  /** How many of the first `n` points belong to cluster `k`. */
  function Count(cluster: seq<nat>, k: nat, n: nat): nat
    requires n <= |cluster|
  {
    if n == 0 then 0 else Count(cluster, k, n - 1) + if cluster[n - 1] == k then 1 else 0
  }

  /** The sum of coordinate `i` over the members of `k` among the first `n` points, and of its square. */
  function Sum(point: seq<Vec>, dim: nat, cluster: seq<nat>, k: nat, i: nat, n: nat): real
    requires Points(point, dim) && n <= |cluster| == |point| && i < dim
  {
    if n == 0 then 0.0 else Sum(point, dim, cluster, k, i, n - 1) + if cluster[n - 1] == k then point[n - 1][i] else 0.0
  }

  function SumSq(point: seq<Vec>, dim: nat, cluster: seq<nat>, k: nat, i: nat, n: nat): real
    requires Points(point, dim) && n <= |cluster| == |point| && i < dim
  {
    if n == 0 then 0.0
    else SumSq(point, dim, cluster, k, i, n - 1) + if cluster[n - 1] == k then Square(point[n - 1][i]) else 0.0
  }

  /** The squared distances of the members of `k` to `c`, in the first `m` coordinates. */
  function Within(point: seq<Vec>, dim: nat, cluster: seq<nat>, k: nat, c: Vec, n: nat, m: nat): real
    requires Points(point, dim) && n <= |cluster| == |point| && m <= dim == |c|
  {
    if n == 0 then 0.0
    else Within(point, dim, cluster, k, c, n - 1, m) + if cluster[n - 1] == k then Dist(point[n - 1], c, m) else 0.0
  }

  /** The part of one coordinate: sum of (x - c)^2. */
  function Along(point: seq<Vec>, dim: nat, cluster: seq<nat>, k: nat, i: nat, c: real, n: nat): real
    requires Points(point, dim) && n <= |cluster| == |point| && i < dim
  {
    SumSq(point, dim, cluster, k, i, n) - 2.0 * c * Sum(point, dim, cluster, k, i, n)
      + Square(c) * Count(cluster, k, n) as real
  }

  lemma AlongStep(point: seq<Vec>, dim: nat, cluster: seq<nat>, k: nat, i: nat, c: real, n: nat)
    requires Points(point, dim) && n < |cluster| == |point| && i < dim
    ensures Along(point, dim, cluster, k, i, c, n + 1) ==
      Along(point, dim, cluster, k, i, c, n) + if cluster[n] == k then Square(point[n][i] - c) else 0.0
  {
    if cluster[n] == k {
      var count := Count(cluster, k, n);
      OneMore(point[n][i], c, SumSq(point, dim, cluster, k, i, n), Sum(point, dim, cluster, k, i, n), count as real);
    }
  }

  lemma {:induction false} WithinAlong(point: seq<Vec>, dim: nat, cluster: seq<nat>, k: nat, c: Vec, n: nat, m: nat)
    requires Points(point, dim) && n <= |cluster| == |point| && m < dim == |c|
    ensures Within(point, dim, cluster, k, c, n, m + 1) ==
      Within(point, dim, cluster, k, c, n, m) + Along(point, dim, cluster, k, m, c[m], n)
    decreases n
  {
    hide Along, Square;
    if n > 0 {
      WithinAlong(point, dim, cluster, k, c, n - 1, m);
      AlongStep(point, dim, cluster, k, m, c[m], n - 1);
    } else {
      AlongNone(point, dim, cluster, k, m, c[m]);
    }
  }

  lemma AlongNone(point: seq<Vec>, dim: nat, cluster: seq<nat>, k: nat, i: nat, c: real)
    requires Points(point, dim) && |cluster| == |point| && i < dim
    ensures Along(point, dim, cluster, k, i, c, 0) == 0.0
  {}

  lemma {:induction false} WithinNone(point: seq<Vec>, dim: nat, cluster: seq<nat>, k: nat, c: Vec, n: nat)
    requires Points(point, dim) && n <= |cluster| == |point| && dim == |c|
    ensures Within(point, dim, cluster, k, c, n, 0) == 0.0
    decreases n
  {
    if n > 0 { WithinNone(point, dim, cluster, k, c, n - 1); }
  }

  lemma OneMore(x: real, c: real, s2: real, s1: real, n: real)
    ensures (s2 + Square(x)) - 2.0 * c * (s1 + x) + Square(c) * (n + 1.0) ==
      s2 - 2.0 * c * s1 + Square(c) * n + Square(x - c)
  {}

  /** Moving point `j` to cluster `l` changes the sums of the cluster it leaves and of the one it joins. */
  lemma {:induction false} Moves(point: seq<Vec>, dim: nat, cluster: seq<nat>, j: nat, l: nat, k: nat, i: nat, n: nat)
    requires Points(point, dim) && n <= |cluster| == |point| && i < dim && j < |cluster| && l != cluster[j]
    ensures var c', x := cluster[j := l], point[j][i];
      var sign := if j >= n || (k != l && k != cluster[j]) then 0.0 else if k == l then 1.0 else -1.0;
      && Count(c', k, n) as real == Count(cluster, k, n) as real + sign
      && Sum(point, dim, c', k, i, n) == Sum(point, dim, cluster, k, i, n) + sign * x
      && SumSq(point, dim, c', k, i, n) == SumSq(point, dim, cluster, k, i, n) + sign * Square(x)
    decreases n
  {
    if n > 0 { Moves(point, dim, cluster, j, l, k, i, n - 1); }
  }

  lemma {:induction false} MovesCount(cluster: seq<nat>, j: nat, l: nat, k: nat, n: nat)
    requires n <= |cluster| && j < |cluster| && l != cluster[j]
    ensures Count(cluster[j := l], k, n) ==
      Count(cluster, k, n) + (if j >= n || (k != l && k != cluster[j]) then 0 else if k == l then 1 else -1)
    decreases n
  {
    if n > 0 { MovesCount(cluster, j, l, k, n - 1); }
  }

  lemma {:induction false} OtherWithin(point: seq<Vec>, dim: nat, cluster: seq<nat>, j: nat, l: nat, k: nat, c: Vec,
                                       n: nat, m: nat)
    requires Points(point, dim) && n <= |cluster| == |point| && m <= dim == |c| && j < |cluster| && k != l
    requires k != cluster[j]
    ensures Within(point, dim, cluster[j := l], k, c, n, m) == Within(point, dim, cluster, k, c, n, m)
    decreases n
  {
    if n > 0 { OtherWithin(point, dim, cluster, j, l, k, c, n - 1, m); }
  }

  // ----- What one transfer does to a cluster's sum of squares

  /** Joining a cluster of `n` points with mean `c` in one coordinate. */
  lemma JoinAlong(s2: real, s1: real, n: real, c: real, x: real, c': real)
    requires n > 0.0 && c * n == s1 && c' == (c * n + x) / (n + 1.0)
    ensures c' * (n + 1.0) == s1 + x
    ensures (s2 + Square(x)) - 2.0 * c' * (s1 + x) + Square(c') * (n + 1.0)
      == s2 - 2.0 * c * s1 + Square(c) * n + n / (n + 1.0) * Square(x - c)
  {
    assert c' * (n + 1.0) == c * n + x;
    var t := n / (n + 1.0);
    assert t * (n + 1.0) == n;
    // In the scale of n + 1 both sides are polynomials.
    var left := Square(c') * (n + 1.0) - 2.0 * c' * (s1 + x) + Square(x) + 2.0 * c * s1 - Square(c) * n;
    assert left * (n + 1.0) == n * Square(x - c) by { JoinPolynomial(n, c, x, c'); }
    assert (t * Square(x - c)) * (n + 1.0) == n * Square(x - c);
    Cancel(left, t * Square(x - c), n + 1.0);
  }

  lemma JoinPolynomial(n: real, c: real, x: real, c': real)
    requires c' * (n + 1.0) == c * n + x
    ensures
      (Square(c') * (n + 1.0) - 2.0 * c' * (c * n + x) + Square(x) + 2.0 * c * (c * n) - Square(c) * n) * (n + 1.0) ==
      n * Square(x - c)
  {
    var w := c * n + x;
    assert Square(c') * (n + 1.0) * (n + 1.0) == Square(w);
    assert c' * w * (n + 1.0) == Square(w);
  }

  /** Leaving a cluster of `n` points with mean `c` in one coordinate. */
  lemma LeaveAlong(s2: real, s1: real, n: real, c: real, x: real, c': real)
    requires n > 1.0 && c * n == s1 && c' == (c * n - x) / (n - 1.0)
    ensures c' * (n - 1.0) == s1 - x
    ensures (s2 - Square(x)) - 2.0 * c' * (s1 - x) + Square(c') * (n - 1.0)
      == s2 - 2.0 * c * s1 + Square(c) * n - n / (n - 1.0) * Square(x - c)
  {
    hide Square;
    var m := n - 1.0;
    DivMul(c * n - x, m);
    JoinedBack(n, m, x, c, c');
    JoinAlong(s2 - Square(x), s1 - x, m, c', x, c);
    Swap(n, m, x, c, c');
  }

  lemma JoinedBack(n: real, m: real, x: real, c: real, c': real)
    requires m > 0.0 && n == m + 1.0 && c' * m == c * n - x
    ensures c == (c' * m + x) / (m + 1.0)
  {
    DivMul(c' * m + x, n);
    Cancel(c, (c' * m + x) / n, n);
  }

  lemma Swap(n: real, m: real, x: real, c: real, c': real)
    requires m > 0.0 && n == m + 1.0 && c' * m == c * n - x
    ensures m / (m + 1.0) * Square(x - c') == n / m * Square(x - c)
  {
    var t, u := m / n, n / m;
    assert t * n == m && u * m == n;
    assert (x - c') * m == n * (x - c);
    assert Square(x - c') * m * m == n * n * Square(x - c) by {
      assert Square((x - c') * m) == Square(n * (x - c));
    }
    var left, right := t * Square(x - c'), u * Square(x - c);
    assert left * n == m * Square(x - c');
    assert left * n * m == n * n * Square(x - c);
    assert right * m == n * Square(x - c);
    assert right * (n * m) == n * n * Square(x - c);
    assert left * (n * m) == left * n * m;
    assert n * m > 0.0;
    Cancel(left, right, n * m);
  }

  // ----- The invariant of a clustering

  predicate Shaped(f: Fit) {
    && Points(f.point, f.dim) && |f.cluster| == |f.cluster2| == |f.point|
    && |f.population| == |f.an1| == |f.an2| == |f.center|
    && (forall k :: 0 <= k < |f.center| ==> |f.center[k]| == f.dim)
    && (forall j :: 0 <= j < |f.cluster| ==>
        f.cluster[j] < |f.center| && f.cluster2[j] < |f.center| && f.cluster[j] != f.cluster2[j])
  }

  /** Cluster `k` is not empty, its centre is the mean of its members, and an1 and an2 are
      n / (n - 1) and n / (n + 1). */
  predicate ClusterOk(f: Fit, k: nat)
    requires Shaped(f) && k < |f.center|
  {
    var n := f.population[k];
    && n == Count(f.cluster, k, |f.cluster|) > 0
    && (forall i :: 0 <= i < f.dim ==> f.center[k][i] * n as real == Sum(f.point, f.dim, f.cluster, k, i, |f.cluster|))
    && f.an2[k] == n as real / (n as real + 1.0)
    && (n > 1 ==> f.an1[k] == n as real / (n as real - 1.0))
  }

  predicate FitOk(f: Fit) {
    Shaped(f) && forall k :: 0 <= k < |f.center| ==> ClusterOk(f, k)
  }

  /** The within-cluster sum of squares of the first `n` clusters. */
  function SsqUpTo(f: Fit, n: nat): real
    requires Shaped(f) && n <= |f.center|
  {
    if n == 0 then 0.0
    else SsqUpTo(f, n - 1) + Within(f.point, f.dim, f.cluster, n - 1, f.center[n - 1], |f.cluster|, f.dim)
  }

  function Ssq(f: Fit): real
    requires Shaped(f)
  {
    SsqUpTo(f, |f.center|)
  }

  function PopulationUpTo(population: seq<nat>, n: nat): nat
    requires n <= |population|
  {
    if n == 0 then 0 else PopulationUpTo(population, n - 1) + population[n - 1]
  }

  function CountBelow(cluster: seq<nat>, k: nat, n: nat): nat
    requires n <= |cluster|
  {
    if n == 0 then 0 else CountBelow(cluster, k, n - 1) + if cluster[n - 1] < k then 1 else 0
  }

  lemma {:induction false} CountSplit(cluster: seq<nat>, k: nat, n: nat)
    requires n <= |cluster|
    ensures CountBelow(cluster, k + 1, n) == CountBelow(cluster, k, n) + Count(cluster, k, n)
    decreases n
  {
    if n > 0 { CountSplit(cluster, k, n - 1); }
  }

  lemma {:induction false} CountBelowAll(cluster: seq<nat>, k: nat, n: nat)
    requires n <= |cluster|
    ensures (forall j :: 0 <= j < n ==> cluster[j] < k) ==> CountBelow(cluster, k, n) == n
    ensures CountBelow(cluster, 0, n) == 0
    decreases n
  {
    if n > 0 { CountBelowAll(cluster, k, n - 1); }
  }

  lemma {:induction false} PopulationBelow(f: Fit, k: nat)
    requires FitOk(f) && k <= |f.center|
    ensures PopulationUpTo(f.population, k) == CountBelow(f.cluster, k, |f.cluster|)
    decreases k
  {
    if k == 0 {
      CountBelowAll(f.cluster, 0, |f.cluster|);
    } else {
      PopulationBelow(f, k - 1);
      CountSplit(f.cluster, k - 1, |f.cluster|);
      assert ClusterOk(f, k - 1);
    }
  }

  /** The populations add up to the number of points. */
  lemma PopulationTotal(f: Fit)
    requires FitOk(f)
    ensures PopulationUpTo(f.population, |f.population|) == |f.point|
  {
    PopulationBelow(f, |f.center|);
    CountBelowAll(f.cluster, |f.center|, |f.cluster|);
  }

  // ----- A transfer

  function Without(c: Vec, n: real, p: Vec): Vec
    requires |c| == |p| && n > 1.0
  {
    seq(|c|, i requires 0 <= i < |c| => (c[i] * n - p[i]) / (n - 1.0))
  }

  function With(c: Vec, n: real, p: Vec): Vec
    requires |c| == |p| && n > 0.0
  {
    seq(|c|, i requires 0 <= i < |c| => (c[i] * n + p[i]) / (n + 1.0))
  }

  predicate Movable(f: Fit, j: nat, l2: nat) {
    FitOk(f) && j < |f.point| && l2 < |f.center| && l2 != f.cluster[j] && f.population[f.cluster[j]] > 1
  }

  /** The update that both stages make when point `j` moves to cluster `l2`. */
  function Transferred(f: Fit, j: nat, l2: nat): Fit
    requires Movable(f, j, l2)
  {
    var l1, p := f.cluster[j], f.point[j];
    assert ClusterOk(f, l1) && ClusterOk(f, l2);
    var al1, al2 := f.population[l1] as real, f.population[l2] as real;
    var alw, alt := al1 - 1.0, al2 + 1.0;
    f.(center := f.center[l1 := Without(f.center[l1], al1, p)][l2 := With(f.center[l2], al2, p)],
       population := f.population[l1 := f.population[l1] - 1][l2 := f.population[l2] + 1],
       an2 := f.an2[l1 := alw / al1][l2 := alt / (alt + 1.0)],
       an1 := f.an1[l1 := if 1.0 < alw then alw / (alw - 1.0) else HUGE_VAL][l2 := alt / al2],
       cluster := f.cluster[j := l2],
       cluster2 := f.cluster2[j := l1])
  }

  lemma MeanWith(c: real, n: real, x: real, s: real)
    requires c * n == s && n > 0.0
    ensures (c * n + x) / (n + 1.0) * (n + 1.0) == s + x
  {
    DivMul(c * n + x, n + 1.0);
  }

  lemma MeanWithout(c: real, n: real, x: real, s: real)
    requires c * n == s && n > 1.0
    ensures (c * n - x) / (n - 1.0) * (n - 1.0) == s - x
  {
    DivMul(c * n - x, n - 1.0);
  }

  lemma OtherMean(f: Fit, j: nat, l2: nat, k: nat, i: nat)
    requires Movable(f, j, l2) && k < |f.center| && k != l2 && k != f.cluster[j] && i < f.dim
    ensures var f' := Transferred(f, j, l2);
      Shaped(f') && f'.center[k][i] * f'.population[k] as real == Sum(f.point, f.dim, f'.cluster, k, i, |f.cluster|)
  {
    hide Count, Sum, With, Without;
    TransferredShape(f, j, l2);
    assert ClusterOk(f, k);
    Moves(f.point, f.dim, f.cluster, j, l2, k, i, |f.cluster|);
  }

  lemma GainMean(f: Fit, j: nat, l2: nat, i: nat)
    requires Movable(f, j, l2) && i < f.dim
    ensures var f' := Transferred(f, j, l2);
      Shaped(f') && f'.center[l2][i] * f'.population[l2] as real == Sum(f.point, f.dim, f'.cluster, l2, i, |f.cluster|)
  {
    hide Count, Sum, Without;
    TransferredShape(f, j, l2);
    assert ClusterOk(f, l2);
    Moves(f.point, f.dim, f.cluster, j, l2, l2, i, |f.cluster|);
    MeanWith(f.center[l2][i], f.population[l2] as real, f.point[j][i],
      Sum(f.point, f.dim, f.cluster, l2, i, |f.cluster|));
  }

  lemma LossMean(f: Fit, j: nat, l2: nat, i: nat)
    requires Movable(f, j, l2) && i < f.dim
    ensures var f', l1 := Transferred(f, j, l2), f.cluster[j];
      Shaped(f') && f'.center[l1][i] * f'.population[l1] as real == Sum(f.point, f.dim, f'.cluster, l1, i, |f.cluster|)
  {
    hide Count, Sum, With;
    TransferredShape(f, j, l2);
    var l1 := f.cluster[j];
    assert ClusterOk(f, l1);
    Moves(f.point, f.dim, f.cluster, j, l2, l1, i, |f.cluster|);
    MeanWithout(f.center[l1][i], f.population[l1] as real, f.point[j][i],
      Sum(f.point, f.dim, f.cluster, l1, i, |f.cluster|));
  }

  lemma TransferredCounts(f: Fit, j: nat, l2: nat, k: nat)
    requires Movable(f, j, l2) && k < |f.center|
    ensures var f' := Transferred(f, j, l2);
      var n := f'.population[k];
      && n == Count(f'.cluster, k, |f'.cluster|) > 0 && f'.an2[k] == n as real / (n as real + 1.0)
      && (n > 1 ==> f'.an1[k] == n as real / (n as real - 1.0))
  {
    hide Count, Sum, With, Without;
    MovesCount(f.cluster, j, l2, k, |f.cluster|);
    assert ClusterOk(f, f.cluster[j]) && ClusterOk(f, l2) && ClusterOk(f, k);
  }

  lemma TransferredCluster(f: Fit, j: nat, l2: nat, k: nat)
    requires Movable(f, j, l2) && k < |f.center|
    ensures Shaped(Transferred(f, j, l2)) && ClusterOk(Transferred(f, j, l2), k)
  {
    hide Count, Sum, Transferred, Movable;
    TransferredShape(f, j, l2);
    TransferredCounts(f, j, l2, k);
    var f' := Transferred(f, j, l2);
    forall i | 0 <= i < f.dim
      ensures f'.center[k][i] * f'.population[k] as real == Sum(f.point, f.dim, f'.cluster, k, i, |f.cluster|)
    {
      if k == l2 { GainMean(f, j, l2, i); } else if k == f.cluster[j] { LossMean(f, j, l2, i); }
      else { OtherMean(f, j, l2, k, i); }
    }
  }

  lemma DivMul(x: real, d: real)
    requires d != 0.0
    ensures x / d * d == x
  {}

  /** A transfer keeps every centre the mean of its members, no cluster empty, and an1 and an2 exact. */
  lemma TransferredOk(f: Fit, j: nat, l2: nat)
    requires Movable(f, j, l2)
    ensures FitOk(Transferred(f, j, l2))
  {
    hide ClusterOk, Shaped, Transferred;
    TransferredShape(f, j, l2);
    forall k | 0 <= k < |f.center| ensures ClusterOk(Transferred(f, j, l2), k) { TransferredCluster(f, j, l2, k); }
  }

  lemma TransferredShape(f: Fit, j: nat, l2: nat)
    requires Movable(f, j, l2)
    ensures Shaped(f) && j < |f.point| && l2 < |f.center| && f.cluster[j] < |f.center| && f.cluster[j] != l2
    ensures var f' := Transferred(f, j, l2);
      && Shaped(f') && |f'.center| == |f.center| && f'.point == f.point && f'.dim == f.dim
      && f'.cluster == f.cluster[j := l2]
      && forall k :: 0 <= k < |f.center| && k != l2 && k != f.cluster[j] ==> f'.center[k] == f.center[k]
  {}

  lemma DistStep(p: Vec, q: Vec, m: nat)
    requires m <= |p| && m <= |q|
    ensures Dist(p, q, m) == if m == 0 then 0.0 else Dist(p, q, m - 1) + Square(p[m - 1] - q[m - 1])
  {}

  /** The cluster that gains the point. */
  lemma {:induction false} GainWithin(f: Fit, j: nat, l2: nat, m: nat)
    requires Movable(f, j, l2) && m <= f.dim
    ensures var f' := Transferred(f, j, l2);
      Shaped(f') && Within(f.point, f.dim, f'.cluster, l2, f'.center[l2], |f.cluster|, m) ==
        Within(f.point, f.dim, f.cluster, l2, f.center[l2], |f.cluster|, m)
          + f.an2[l2] * Dist(f.point[j], f.center[l2], m)
    decreases m
  {
    hide Transferred, Movable, Along, Within, Dist;
    TransferredShape(f, j, l2);
    DistStep(f.point[j], f.center[l2], m);
    var f', n := Transferred(f, j, l2), |f.cluster|;
    if m == 0 {
      WithinNone(f.point, f.dim, f.cluster, l2, f.center[l2], n);
      WithinNone(f.point, f.dim, f'.cluster, l2, f'.center[l2], n);
    } else {
      GainWithin(f, j, l2, m - 1);
      WithinAlong(f.point, f.dim, f.cluster, l2, f.center[l2], n, m - 1);
      WithinAlong(f.point, f.dim, f'.cluster, l2, f'.center[l2], n, m - 1);
      GainAlong(f, j, l2, m - 1);
    }
  }

  lemma GainFacts(f: Fit, j: nat, l2: nat, i: nat)
    requires Movable(f, j, l2) && i < f.dim
    ensures var f', n := Transferred(f, j, l2), f.population[l2] as real;
      && Shaped(f) && Shaped(f') && f'.center[l2][i] == (f.center[l2][i] * n + f.point[j][i]) / (n + 1.0)
      && f.center[l2][i] * n == Sum(f.point, f.dim, f.cluster, l2, i, |f.cluster|) && f.an2[l2] == n / (n + 1.0)
      && n == Count(f.cluster, l2, |f.cluster|) as real > 0.0
  {
    hide Count, Sum;
    TransferredShape(f, j, l2);
    assert ClusterOk(f, l2) && ClusterOk(f, f.cluster[j]);
  }

  lemma GainAlong(f: Fit, j: nat, l2: nat, i: nat)
    requires Movable(f, j, l2) && i < f.dim
    ensures var f' := Transferred(f, j, l2);
      Shaped(f') && Along(f.point, f.dim, f'.cluster, l2, i, f'.center[l2][i], |f.cluster|) ==
        Along(f.point, f.dim, f.cluster, l2, i, f.center[l2][i], |f.cluster|)
          + f.an2[l2] * Square(f.point[j][i] - f.center[l2][i])
  {
    hide Count, Sum, SumSq, Square, Transferred, Movable;
    TransferredShape(f, j, l2);
    GainFacts(f, j, l2, i);
    var f', n := Transferred(f, j, l2), |f.cluster|;
    Moves(f.point, f.dim, f.cluster, j, l2, l2, i, n);
    JoinAlong(SumSq(f.point, f.dim, f.cluster, l2, i, n), Sum(f.point, f.dim, f.cluster, l2, i, n),
      f.population[l2] as real,
      f.center[l2][i], f.point[j][i], f'.center[l2][i]);
  }

  /** The cluster that loses the point. */
  lemma {:induction false} LossWithin(f: Fit, j: nat, l2: nat, m: nat)
    requires Movable(f, j, l2) && m <= f.dim
    ensures var f', l1 := Transferred(f, j, l2), f.cluster[j];
      Shaped(f') && Within(f.point, f.dim, f'.cluster, l1, f'.center[l1], |f.cluster|, m) ==
        Within(f.point, f.dim, f.cluster, l1, f.center[l1], |f.cluster|, m)
          - f.an1[l1] * Dist(f.point[j], f.center[l1], m)
    decreases m
  {
    hide Transferred, Movable, Along, Within, Dist;
    TransferredShape(f, j, l2);
    DistStep(f.point[j], f.center[f.cluster[j]], m);
    var f', l1, n := Transferred(f, j, l2), f.cluster[j], |f.cluster|;
    if m == 0 {
      WithinNone(f.point, f.dim, f.cluster, l1, f.center[l1], n);
      WithinNone(f.point, f.dim, f'.cluster, l1, f'.center[l1], n);
    } else {
      LossWithin(f, j, l2, m - 1);
      WithinAlong(f.point, f.dim, f.cluster, l1, f.center[l1], n, m - 1);
      WithinAlong(f.point, f.dim, f'.cluster, l1, f'.center[l1], n, m - 1);
      LossAlong(f, j, l2, m - 1);
    }
  }

  lemma LossFacts(f: Fit, j: nat, l2: nat, i: nat)
    requires Movable(f, j, l2) && i < f.dim
    ensures var f', l1 := Transferred(f, j, l2), f.cluster[j];
      l1 < |f.population| && var n := f.population[l1] as real;
      && Shaped(f) && Shaped(f') && n > 1.0 && f'.center[l1][i] == (f.center[l1][i] * n - f.point[j][i]) / (n - 1.0)
      && f.center[l1][i] * n == Sum(f.point, f.dim, f.cluster, l1, i, |f.cluster|) && f.an1[l1] == n / (n - 1.0)
      && n == Count(f.cluster, l1, |f.cluster|) as real
  {
    hide Count, Sum;
    TransferredShape(f, j, l2);
    assert ClusterOk(f, f.cluster[j]) && ClusterOk(f, l2);
  }

  lemma LossAlong(f: Fit, j: nat, l2: nat, i: nat)
    requires Movable(f, j, l2) && i < f.dim
    ensures var f', l1 := Transferred(f, j, l2), f.cluster[j];
      Shaped(f') && Along(f.point, f.dim, f'.cluster, l1, i, f'.center[l1][i], |f.cluster|) ==
        Along(f.point, f.dim, f.cluster, l1, i, f.center[l1][i], |f.cluster|)
          - f.an1[l1] * Square(f.point[j][i] - f.center[l1][i])
  {
    hide Count, Sum, SumSq, Square, Transferred, Movable;
    TransferredShape(f, j, l2);
    LossFacts(f, j, l2, i);
    var f', l1, n := Transferred(f, j, l2), f.cluster[j], |f.cluster|;
    Moves(f.point, f.dim, f.cluster, j, l2, l1, i, n);
    LeaveAlong(SumSq(f.point, f.dim, f.cluster, l1, i, n), Sum(f.point, f.dim, f.cluster, l1, i, n),
      f.population[l1] as real,
      f.center[l1][i], f.point[j][i], f'.center[l1][i]);
  }

  lemma {:induction false} SsqChange(f: Fit, j: nat, l2: nat, k: nat)
    requires Movable(f, j, l2) && k <= |f.center|
    ensures Shaped(Transferred(f, j, l2)) && |Transferred(f, j, l2).center| == |f.center|
    ensures SsqUpTo(Transferred(f, j, l2), k) == SsqUpTo(f, k)
      + (if l2 < k then f.an2[l2] * Dist(f.point[j], f.center[l2], f.dim) else 0.0)
      - (if f.cluster[j] < k then f.an1[f.cluster[j]] * Dist(f.point[j], f.center[f.cluster[j]], f.dim) else 0.0)
    decreases k
  {
    hide Transferred, Movable, Within, Dist, Points;
    TransferredShape(f, j, l2);
    if k > 0 {
      SsqChange(f, j, l2, k - 1);
      if k - 1 == l2 {
        GainWithin(f, j, l2, f.dim);
      } else if k - 1 == f.cluster[j] {
        LossWithin(f, j, l2, f.dim);
      } else {
        OtherWithin(f.point, f.dim, f.cluster, j, l2, k - 1, f.center[k - 1], |f.cluster|, f.dim);
      }
    }
  }

  /** The exact change of the total: n2/(n2+1) D2 - n1/(n1-1) D1. */
  lemma TransferredSsq(f: Fit, j: nat, l2: nat)
    requires Movable(f, j, l2)
    ensures Shaped(Transferred(f, j, l2))
    ensures Ssq(Transferred(f, j, l2)) == Ssq(f) + f.an2[l2] * Dist(f.point[j], f.center[l2], f.dim)
      - f.an1[f.cluster[j]] * Dist(f.point[j], f.center[f.cluster[j]], f.dim)
  {
    SsqChange(f, j, l2, |f.center|);
  }

  /** A transfer whose cost on the new cluster is below its saving on the old one lowers the total, and only such a
      one. */
  lemma TransferLowers(f: Fit, j: nat, l2: nat)
    requires Movable(f, j, l2)
    ensures var l1, f' := f.cluster[j], Transferred(f, j, l2);
      Shaped(f') && (Ssq(f') < Ssq(f) <==>
        f.an2[l2] * Dist(f.point[j], f.center[l2], f.dim) < f.an1[l1] * Dist(f.point[j], f.center[l1], f.dim))
  {
    hide Transferred, Dist, Ssq, Movable;
    TransferredShape(f, j, l2);
    TransferredSsq(f, j, l2);
  }

  lemma RatioPositive(f: Fit, l: nat)
    requires FitOk(f) && l < |f.center|
    ensures f.an2[l] > 0.0
  {
    assert ClusterOk(f, l);
    var n := f.population[l] as real;
    PositiveQuotient(n, n + 1.0);
  }

  lemma PositiveQuotient(x: real, y: real)
    requires x > 0.0 && y > 0.0
    ensures x / y > 0.0
  {
    var q := x / y;
    assert q * y == x;
  }

  /** dc < rr is the comparison of dc * an2 with r2. */
  lemma Scaled(dc: real, r2: real, an: real)
    requires an > 0.0
    ensures dc < r2 / an <==> dc * an < r2
  {
    var rr := r2 / an;
    assert rr * an == r2;
    if dc < rr { assert dc * an < rr * an; }
    if dc >= rr { assert dc * an >= rr * an; }
  }

  /** What cluster `l` would add to the sum of squares if it took point `j`. */
  function Offer(f: Fit, j: nat, l: nat): real
    requires Shaped(f) && j < |f.point| && l < |f.center|
  {
    f.an2[l] * Dist(f.point[j], f.center[l], f.dim)
  }

  /** What its own cluster would save by losing point `j`. */
  function Saving(f: Fit, j: nat): real
    requires Shaped(f) && j < |f.point|
  {
    f.an1[f.cluster[j]] * Dist(f.point[j], f.center[f.cluster[j]], f.dim)
  }

  /** `l2` makes the best offer among the clusters looked at, and the point moves if and only if that is below `d`. */
  ghost predicate Chose(f: Fit, j: nat, live: seq<int>, d: real, moved: bool, l2: nat)
    requires FitOk(f)
  {
    && j < |f.point| && |live| == |f.center| && l2 < |f.center| && l2 != f.cluster[j]
    && (forall l :: 0 <= l < |f.center| && l != f.cluster[j] && (j < live[f.cluster[j]] || j < live[l]) ==>
        Offer(f, j, l2) <= Offer(f, j, l))
    && (moved <==> Offer(f, j, l2) < d)
  }

  /** A transfer of point `j` to cluster `l` changed the sum of squares by exactly the offer less the saving. */
  ghost predicate Gained(f: Fit, f': Fit, j: nat, l: nat) {
    && Shaped(f) && Shaped(f') && j < |f.point| && l < |f.center|
    && Ssq(f') == Ssq(f) + Offer(f, j, l) - Saving(f, j)
  }

  lemma TransferGains(f: Fit, j: nat, l: nat)
    requires Movable(f, j, l)
    ensures Gained(f, Transferred(f, j, l), j, l)
  {
    hide Transferred, Dist, Ssq, Movable;
    TransferredShape(f, j, l);
    TransferredSsq(f, j, l);
  }

  lemma OfferIs(f: Fit, j: nat, l: nat)
    requires Shaped(f) && j < |f.point| && l < |f.center|
    ensures Offer(f, j, l) == f.an2[l] * Dist(f.point[j], f.center[l], f.dim)
  {}

  lemma SavingIs(f: Fit, j: nat)
    requires Shaped(f) && j < |f.point|
    ensures Saving(f, j) == f.an1[f.cluster[j]] * Dist(f.point[j], f.center[f.cluster[j]], f.dim)
  {}

  lemma OfferBelow(f: Fit, j: nat, l: nat, dc: real, r2: real)
    requires Shaped(f) && j < |f.point| && l < |f.center| && f.an2[l] > 0.0
    requires dc == Dist(f.point[j], f.center[l], f.dim)
    ensures dc * f.an2[l] == Offer(f, j, l) && (dc < r2 / f.an2[l] <==> Offer(f, j, l) < r2)
  {
    hide Dist;
    Scaled(dc, r2, f.an2[l]);
  }

  // ----- A run as a sequence of visits

  /** What the visits of the points read and change. */
  datatype State =
    State(fit: Fit, d: seq<real>, ncp: seq<int>, itran: seq<int>, live: seq<int>, indx: nat)

  /** A turn of the loop of a stage, `step` being 0 in the optimal stage and counted from 1 in the quick stage. */
  datatype Event = Visit(step: nat, point: nat, before: State, after: State)

  ghost predicate Good(s: State) {
    && FitOk(s.fit) && |s.d| == |s.fit.point| == |s.fit.cluster| == |s.fit.cluster2|
    && |s.ncp| == |s.itran| == |s.live| == |s.fit.center|
  }

  predicate Recomputed(step: nat, j: nat, f: Fit, ncp: seq<int>)
    requires Shaped(f) && j < |f.point| && |ncp| == |f.center|
  {
    var l1 := f.cluster[j];
    f.population[l1] > 1 && if step == 0 then ncp[l1] != 0 else step <= ncp[l1]
  }

  /** The clusters that are compared in this visit. */
  predicate Looked(step: nat, j: nat, f: Fit, ncp: seq<int>)
    requires Shaped(f) && j < |f.point| && |ncp| == |f.center|
  {
    f.population[f.cluster[j]] > 1 && (step == 0 || step < ncp[f.cluster[j]] || step < ncp[f.cluster2[j]])
  }

  /** The point moves: the best offer is below the distance on record. */
  ghost predicate Departs(step: nat, j: nat, b: State, a: State)
    requires Good(b) && Good(a) && j < |b.fit.point| == |a.fit.point|
  {
    var l1, l2, n := b.fit.cluster[j], a.fit.cluster[j], |b.fit.point|;
    var mark := if step == 0 then j else step + n;
    && Movable(b.fit, j, l2) && a.fit == Transferred(b.fit, j, l2) && Looked(step, j, b.fit, b.ncp)
    && Offer(b.fit, j, l2) < a.d[j] && a.ncp == b.ncp[l1 := mark][l2 := mark] && a.indx == 0
    && if step == 0 then
      && Chose(b.fit, j, b.live, a.d[j], true, l2)
      && a.live == b.live[l1 := n + j][l2 := n + j] && a.itran == b.itran
    else
      && l2 == b.fit.cluster2[j]
      && a.live == b.live && a.itran == b.itran[l1 := 1][l2 := 1]
  }

  /** The point stays: the best offer is not below the distance on record, or none is looked at. */
  ghost predicate Stays(step: nat, j: nat, b: State, a: State)
    requires Good(b) && Good(a) && j < |b.fit.point| == |a.fit.point| && |a.fit.center| == |b.fit.center|
  {
    && a == b.(fit := b.fit.(cluster2 := b.fit.cluster2[j := a.fit.cluster2[j]]), d := a.d,
               indx := if step == 0 then b.indx + 1 else b.indx)
    && (Looked(step, j, b.fit, b.ncp) ==> a.d[j] <= Offer(b.fit, j, a.fit.cluster2[j]))
    && if step == 0 && b.fit.population[b.fit.cluster[j]] > 1 then
      Chose(b.fit, j, b.live, a.d[j], false, a.fit.cluster2[j])
    else a.fit == b.fit
  }

  ghost predicate Visited(step: nat, j: nat, b: State, a: State) {
    && Good(b) && Good(a) && j < |b.fit.point| == |a.fit.point| && |a.fit.center| == |b.fit.center|
    && a.d == (if Recomputed(step, j, b.fit, b.ncp) then b.d[j := Saving(b.fit, j)] else b.d)
    && if a.fit.cluster[j] != b.fit.cluster[j] then Departs(step, j, b, a) else Stays(step, j, b, a)
  }

  ghost predicate Stepped(e: Event) { Visited(e.step, e.point, e.before, e.after) }

  /** The events lead from `s` to `t`. */
  ghost predicate Path(s: State, events: seq<Event>, t: State) {
    if events == [] then s == t
    else
      var last := events[|events| - 1];
      Stepped(last) && last.after == t && Path(s, events[..|events| - 1], last.before)
  }

  ghost predicate Moved(e: Event) {
    Stepped(e) && e.after.fit.cluster[e.point] != e.before.fit.cluster[e.point]
  }

  /** A move on a distance that is not the real one. */
  ghost predicate Wrong(e: Event) {
    Moved(e) && e.after.d[e.point] != Saving(e.before.fit, e.point)
  }

  /** What an event adds to the sum of squares. */
  ghost function Change(e: Event): real {
    if Moved(e) then Offer(e.before.fit, e.point, e.after.fit.cluster[e.point]) - Saving(e.before.fit, e.point) else 0.0
  }

  /** By how much the distance on record is too big. */
  ghost function Excess(e: Event): real {
    if Moved(e) then e.after.d[e.point] - Saving(e.before.fit, e.point) else 0.0
  }

  ghost function Changes(events: seq<Event>): real {
    if events == [] then 0.0 else Changes(events[..|events| - 1]) + Change(events[|events| - 1])
  }

  ghost function Excesses(events: seq<Event>): real {
    if events == [] then 0.0 else Excesses(events[..|events| - 1]) + Excess(events[|events| - 1])
  }

  ghost function MoveCount(events: seq<Event>): nat {
    if events == [] then 0 else MoveCount(events[..|events| - 1]) + if Moved(events[|events| - 1]) then 1 else 0
  }

  ghost function WrongCount(events: seq<Event>): nat {
    if events == [] then 0 else WrongCount(events[..|events| - 1]) + if Wrong(events[|events| - 1]) then 1 else 0
  }

  lemma EventTotal(e: Event)
    requires Stepped(e)
    ensures Good(e.before) && Good(e.after) && Shaped(e.before.fit) && Shaped(e.after.fit)
    ensures |e.after.fit.center| == |e.before.fit.center| && |e.after.fit.point| == |e.before.fit.point|
    ensures Ssq(e.after.fit) == Ssq(e.before.fit) + Change(e)
    ensures if Moved(e) then Change(e) < Excess(e) else Change(e) == 0.0 == Excess(e)
    ensures Moved(e) && !Wrong(e) ==> Excess(e) == 0.0
  {
    hide Ssq, Offer, Saving, Transferred, ClusterOk, Movable, Chose;
    if Moved(e) {
      TransferGains(e.before.fit, e.point, e.after.fit.cluster[e.point]);
    } else {
      SameTotal(e.before.fit, e.after.fit);
    }
  }

  /** The sum of squares changes by exactly what the moves add, which is less than by how much their distances on
      record are too big: without wrong ones it does not grow, and it falls if anything moved. */
  lemma {:induction false} PathTotal(s: State, events: seq<Event>, t: State)
    requires Path(s, events, t) && Good(s)
    ensures Good(t) && Shaped(s.fit) && Shaped(t.fit) && |t.fit.center| == |s.fit.center|
    ensures |t.fit.point| == |s.fit.point| && Ssq(t.fit) == Ssq(s.fit) + Changes(events)
    ensures if MoveCount(events) == 0 then Changes(events) == 0.0 else Changes(events) < Excesses(events)
    ensures WrongCount(events) == 0 ==> Excesses(events) == 0.0
    ensures MoveCount(events) == 0 ==> Excesses(events) == 0.0
    decreases |events|
  {
    hide Stepped, Ssq, Change, Excess, Shaped, Moved, Wrong;
    if events == [] {
      FitShape(s.fit);
    } else {
      var last := events[|events| - 1];
      PathTotal(s, events[..|events| - 1], last.before);
      EventTotal(last);
      WrongIsMove(last);
    }
  }

  lemma WrongIsMove(e: Event)
    ensures Wrong(e) ==> Moved(e)
  {}

  lemma PathMore(s: State, events: seq<Event>, t: State, e: Event)
    requires Path(s, events, t) && Stepped(e) && e.before == t
    ensures Path(s, events + [e], e.after)
    ensures MoveCount(events + [e]) == MoveCount(events) + if Moved(e) then 1 else 0
    ensures WrongCount(events + [e]) == WrongCount(events) + if Wrong(e) then 1 else 0
  {
    hide Stepped, Moved, Wrong;
    assert (events + [e])[..|events|] == events;
  }

  lemma {:induction false} CountsJoined(events: seq<Event>, more: seq<Event>)
    ensures Changes(events + more) == Changes(events) + Changes(more)
    ensures Excesses(events + more) == Excesses(events) + Excesses(more)
    ensures MoveCount(events + more) == MoveCount(events) + MoveCount(more)
    ensures WrongCount(events + more) == WrongCount(events) + WrongCount(more)
    decreases |more|
  {
    hide Change, Excess, Moved, Wrong;
    if more == [] {
      assert events + more == events;
    } else {
      var n := |more| - 1;
      CountsJoined(events, more[..n]);
      assert (events + more)[..|events| + n] == events + more[..n];
    }
  }

  /** One pass of the optimal stage visits the points in order, at most once each. */
  ghost predicate OptimalOrder(events: seq<Event>) {
    forall i :: 0 <= i < |events| ==> events[i].step == 0 && events[i].point == i
  }

  /** A point leaves or joins cluster `k`. */
  ghost predicate Touches(e: Event, k: nat) {
    Moved(e) && (k == e.before.fit.cluster[e.point] || k == e.after.fit.cluster[e.point])
  }

  /** The number of the last event that touches cluster `k`, or -1. */
  ghost function LastTouch(events: seq<Event>, k: nat): int {
    if events == [] then -1
    else if Touches(events[|events| - 1], k) then |events| - 1
    else LastTouch(events[..|events| - 1], k)
  }

  /** In the optimal stage ncp is 0 for a cluster exactly if the last point that touched it is point 0, or none did
      and it was 0 before; and the points not visited yet have the distances from before. */
  lemma {:induction false} OptimalState(s: State, events: seq<Event>, t: State)
    requires Path(s, events, t) && Good(s) && OptimalOrder(events)
    ensures Good(t) && |t.fit.center| == |s.fit.center| && |t.fit.point| == |s.fit.point|
    ensures forall k :: 0 <= k < |s.fit.center| ==>
      t.ncp[k] == if LastTouch(events, k) < 0 then s.ncp[k] else LastTouch(events, k)
    ensures forall j :: |events| <= j < |s.fit.point| ==> t.d[j] == s.d[j]
    decreases |events|
  {
    hide Stepped, Touches, Good;
    if events != [] {
      var last := events[|events| - 1];
      OptimalState(s, events[..|events| - 1], last.before);
      VisitTouches(last);
      SizesGood(last.before, t);
    }
    SizesGood(s, t);
  }

  lemma SizesGood(s: State, t: State)
    ensures Good(s) ==> |s.d| == |s.fit.point| && |s.ncp| == |s.fit.center|
    ensures Good(t) ==> |t.d| == |t.fit.point| && |t.ncp| == |t.fit.center|
  {}

  lemma VisitTouches(e: Event)
    requires Stepped(e)
    ensures Good(e.before) && Good(e.after)
    ensures |e.after.fit.center| == |e.before.fit.center| && |e.after.fit.point| == |e.before.fit.point|
    ensures var mark := if e.step == 0 then e.point else e.step + |e.before.fit.point|;
      forall k :: 0 <= k < |e.before.fit.center| ==>
        e.after.ncp[k] == if Touches(e, k) then mark else e.before.ncp[k]
    ensures forall j :: 0 <= j < |e.before.fit.point| && j != e.point ==> e.after.d[j] == e.before.d[j]
  {
    hide ClusterOk, Transferred, Offer, Saving;
    if Moved(e) { TransferredShape(e.before.fit, e.point, e.after.fit.cluster[e.point]); }
  }

  /** When a pass of the optimal stage moves a point on a wrong distance: exactly if the distance is not recomputed,
      because the cluster was last touched by the move of point 0, or by none in this pass with its ncp being 0, and
      what the array held before the pass is not the real distance. */
  lemma OptimalWrong(s: State, events: seq<Event>, t: State, j: nat)
    requires Path(s, events, t) && Good(s) && OptimalOrder(events) && j < |events| && Moved(events[j])
    ensures Good(events[j].before) && j < |events[j].before.fit.point| == |s.d|
    ensures |s.ncp| == |events[j].before.fit.center|
    ensures
      var f := events[j].before.fit;
      var k := f.cluster[j];
      var last := LastTouch(events[..j], k);
      Wrong(events[j]) <==> last <= 0 && (last < 0 ==> s.ncp[k] == 0) && s.d[j] != Saving(f, j)
  {
    hide Saving, Offer, ClusterOk;
    PathPrefix(s, events, t, j);
    var e := events[j];
    OptimalState(s, events[..j], e.before);
  }

  lemma {:induction false} PathPrefix(s: State, events: seq<Event>, t: State, j: nat)
    requires Path(s, events, t) && j < |events|
    ensures Path(s, events[..j], events[j].before) && Stepped(events[j])
    decreases |events|
  {
    hide Stepped;
    if j < |events| - 1 {
      var front := events[..|events| - 1];
      PathPrefix(s, front, events[|events| - 1].before, j);
      assert front[..j] == events[..j];
    }
  }

  /** The point that visit number `i` of a stage comes to, round and round. */
  function Turn(i: nat, n: nat): (r: nat)
    requires n > 0
    ensures r < n && (i < n ==> r == i)
  {
    if i == 0 then 0 else if Turn(i - 1, n) == n - 1 then 0 else Turn(i - 1, n) + 1
  }

  ghost predicate QuickOrder(events: seq<Event>, n: nat)
    requires n > 0
  {
    forall i :: 0 <= i < |events| ==> events[i].step == i + 1 && events[i].point == Turn(i, n)
  }

  /** The clusters that points left or joined. */
  ghost function Touched(events: seq<Event>): set<nat> {
    if events == [] then {} else Touched(events[..|events| - 1]) + Ends(events[|events| - 1])
  }

  predicate Below(s: set<nat>, n: nat) {
    forall k :: k in s ==> k < n
  }

  ghost function Ends(e: Event): set<nat> {
    if Moved(e) then {e.before.fit.cluster[e.point], e.after.fit.cluster[e.point]} else {}
  }

  /** In a cluster not touched yet every point still has the distance from before the stage, or the real one if the
      cluster's ncp asked for it at its first visit. */
  ghost predicate Pristine(s: State, t: State, touched: set<nat>, visits: nat)
    requires Good(s) && Good(t) && |t.fit.center| == |s.fit.center| && |t.fit.point| == |s.fit.point|
  {
    forall p :: 0 <= p < |s.fit.point| && t.fit.cluster[p] !in touched ==>
      var k := t.fit.cluster[p];
      && s.fit.cluster[p] == k && t.ncp[k] == s.ncp[k] && t.fit.population[k] == s.fit.population[k]
      && Saving(t.fit, p) == Saving(s.fit, p)
      && t.d[p] == if p < visits && s.fit.population[k] > 1 && p < s.ncp[k] then Saving(s.fit, p) else s.d[p]
  }

  lemma PristineStep(s: State, e: Event, touched: set<nat>, visits: nat)
    requires Stepped(e) && Good(s) && Good(e.before) && Good(e.after)
    requires |e.before.fit.center| == |e.after.fit.center| == |s.fit.center|
    requires |e.before.fit.point| == |e.after.fit.point| == |s.fit.point|
    requires Pristine(s, e.before, touched, visits) && e.step == visits + 1
    requires e.point == visits || e.point < |s.fit.point| <= visits
    ensures Pristine(s, e.after, touched + Ends(e), visits + 1)
  {
    hide FitOk, Transferred, Offer, Saving, Stepped;
    FitShape(e.before.fit);
    FitShape(e.after.fit);
    forall p | 0 <= p < |s.fit.point| && e.after.fit.cluster[p] !in touched + Ends(e)
      ensures e.before.fit.cluster[p] == e.after.fit.cluster[p] < |s.fit.center|
      ensures SameMember(e.before, e.after, p, e.point, e.step)
    {
      StepApart(e, p);
    }
  }

  /** Point `p` is in the same cluster, and the cluster is as it was. */
  ghost predicate SameMember(b: State, a: State, p: nat, visited: nat, step: nat)
    requires Good(b) && Good(a) && p < |b.fit.point| == |a.fit.point| && |a.fit.center| == |b.fit.center|
  {
    var k := b.fit.cluster[p];
    && Saving(a.fit, p) == Saving(b.fit, p) && a.fit.population[k] == b.fit.population[k] && a.ncp[k] == b.ncp[k]
    && a.d[p] == if p == visited && Recomputed(step, p, b.fit, b.ncp) then Saving(b.fit, p) else b.d[p]
  }

  /** An event does not change the clusters it does not touch. */
  lemma StepApart(e: Event, p: nat)
    requires Stepped(e) && Good(e.before) && Good(e.after) && p < |e.before.fit.point|
    requires |e.before.fit.center| == |e.after.fit.center| && |e.before.fit.point| == |e.after.fit.point|
    requires e.after.fit.cluster[p] !in Ends(e)
    ensures e.before.fit.cluster[p] == e.after.fit.cluster[p] < |e.before.fit.center|
    ensures SameMember(e.before, e.after, p, e.point, e.step)
  {
    hide ClusterOk, Transferred, Offer, Dist;
    if Moved(e) {
      TransferredShape(e.before.fit, e.point, e.after.fit.cluster[e.point]);
      SavingKept(e.before.fit, e.point, e.after.fit.cluster[e.point], p);
    }
  }

  /** Both facts that decide which moves of the quick stage are on wrong distances. */
  lemma {:induction false} QuickState(s: State, events: seq<Event>, t: State)
    requires Path(s, events, t) && Good(s) && |s.fit.point| > 0 && QuickOrder(events, |s.fit.point|)
    ensures Good(t) && |t.fit.center| == |s.fit.center| && |t.fit.point| == |s.fit.point|
    ensures Tracked(t.fit, t.d, t.ncp, Touched(events), |events|, Turn(|events|, |s.fit.point|))
    ensures Pristine(s, t, Touched(events), |events|)
    decreases |events|
  {
    hide Stepped, Tracked, Pristine, Ends;
    var n := |s.fit.point|;
    if events == [] {
      FitShape(s.fit);
      NoneTracked(s.fit, s.d, s.ncp);
      PristineStart(s);
    } else {
      var i := |events| - 1;
      var e := events[i];
      QuickState(s, events[..i], e.before);
      VisitTouches(e);
      PristineStep(s, e, Touched(events[..i]), i);
      TrackedStep(e, Touched(events[..i]), i);
    }
  }

  lemma PristineStart(s: State)
    requires Good(s)
    ensures Pristine(s, s, {}, 0)
  {
    hide Saving;
  }

  lemma TrackedStep(e: Event, touched: set<nat>, visits: nat)
    requires Stepped(e) && Good(e.before) && Good(e.after) && e.step == visits + 1
    requires |e.after.fit.point| == |e.before.fit.point| > 0 && e.point < |e.before.fit.point|
    requires Tracked(e.before.fit, e.before.d, e.before.ncp, touched, visits, e.point)
    ensures Moved(e) && e.before.fit.cluster[e.point] in touched ==> !Wrong(e)
    ensures Tracked(e.after.fit, e.after.d, e.after.ncp, touched + Ends(e), visits + 1,
      if e.point == |e.before.fit.point| - 1 then 0 else e.point + 1)
  {
    hide ClusterOk, Transferred, Offer, Saving, Tracked, FitOk;
    var b, a, j := e.before, e.after, e.point;
    FitShape(b.fit);
    if Moved(e) {
      TransferredShape(b.fit, j, a.fit.cluster[j]);
      MoveTracked(b.fit, a.fit.cluster[j], b.d, a.d, b.ncp, a.ncp, touched, visits + 1, j);
      assert touched + Ends(e) == touched + {b.fit.cluster[j], a.fit.cluster[j]};
    } else {
      assert touched + Ends(e) == touched;
      StayTracked(b.fit, b.d, a.d, b.ncp, touched, visits + 1, j);
    }
    if j == |b.fit.point| - 1 { Wraps(a.fit, a.d, a.ncp, touched + Ends(e), visits + 1); }
  }

  lemma PristineWrong(s: State, e: Event, touched: set<nat>, visits: nat)
    requires Good(s) && Moved(e) && e.step == visits + 1 && (e.point == visits || e.point < |s.fit.point| <= visits)
    requires Good(e.before) && |e.before.fit.center| == |s.fit.center| && |e.before.fit.point| == |s.fit.point|
    requires Pristine(s, e.before, touched, visits)
    ensures e.point < |s.fit.point| && e.before.fit.cluster[e.point] < |s.fit.center|
    ensures
      var f, j := e.before.fit, e.point;
      var k := f.cluster[j];
      k !in touched ==> (Wrong(e) <==> s.ncp[k] <= j && s.d[j] != Saving(f, j))
  {
    hide Saving, Offer, ClusterOk, Transferred;
  }

  /** When the quick stage moves a point on a wrong distance: exactly if nothing has left or joined its cluster in this
      stage, the cluster's ncp does not ask for the distance at the first visit, and what the array held before the
      stage is not the real distance. */
  lemma QuickWrong(s: State, events: seq<Event>, t: State, i: nat)
    requires Path(s, events, t) && Good(s) && |s.fit.point| > 0 && QuickOrder(events, |s.fit.point|)
    requires i < |events| && Moved(events[i])
    ensures Good(events[i].before) && events[i].point < |s.fit.point| == |events[i].before.fit.point| == |s.d|
    ensures |s.ncp| == |events[i].before.fit.center| && events[i].before.fit.cluster[events[i].point] < |s.ncp|
    ensures
      var f, j := events[i].before.fit, events[i].point;
      var k := f.cluster[j];
      Wrong(events[i]) <==> k !in Touched(events[..i]) && s.ncp[k] <= j && s.d[j] != Saving(f, j)
  {
    hide Saving, Offer, ClusterOk, Tracked, Transferred, Path, Pristine, Wrong, FitOk, Visited;
    PathPrefix(s, events, t, i);
    var e := events[i];
    QuickState(s, events[..i], e.before);
    VisitTouches(e);
    FitShape(e.before.fit);
    PristineWrong(s, e, Touched(events[..i]), i);
    TrackedStep(e, Touched(events[..i]), i);
  }

  /** Of the moves of the quick stage at most one for each cluster is on a wrong distance. */
  lemma {:induction false} QuickWrongs(s: State, events: seq<Event>, t: State)
    requires Path(s, events, t) && Good(s) && |s.fit.point| > 0 && QuickOrder(events, |s.fit.point|)
    ensures |t.fit.center| == |s.fit.center| && Below(Touched(events), |s.fit.center|)
    ensures WrongCount(events) <= |Touched(events)| <= |s.fit.center|
    decreases |events|
  {
    hide Stepped, Wrong, Good, Moved;
    if events != [] {
      var i := |events| - 1;
      QuickWrongs(s, events[..i], events[i].before);
      assert Good(t) && |t.fit.center| == |s.fit.center| by { QuickState(s, events, t); }
      QuickAdds(s, events, t);
    }
  }

  lemma QuickAdds(s: State, events: seq<Event>, t: State)
    requires Path(s, events, t) && Good(s) && |s.fit.point| > 0 && QuickOrder(events, |s.fit.point|) && events != []
    requires Below(Touched(events[..|events| - 1]), |s.fit.center|)
    ensures Below(Touched(events), |s.fit.center|)
    ensures |Touched(events[..|events| - 1])| <= |Touched(events)| <= |s.fit.center|
    ensures Wrong(events[|events| - 1]) ==> |Touched(events[..|events| - 1])| < |Touched(events)|
  {
    hide Path, Pristine, Tracked, Wrong, FitOk, Visited;
    var i := |events| - 1;
    var e, had := events[i], Touched(events[..i]);
    PathPrefix(s, events, t, i);
    QuickState(s, events[..i], e.before);
    WrongIsMove(e);
    if Moved(e) {
      QuickWrong(s, events, t, i);
      MovedEnds(e);
      Grows(had, e.before.fit.cluster[e.point], e.after.fit.cluster[e.point], |s.fit.center|);
    } else {
      FirstNumbers(|s.fit.center|);
      Sizes(had, Numbers(|s.fit.center|));
    }
  }

  lemma MovedEnds(e: Event)
    requires Moved(e)
    ensures Good(e.before) && Good(e.after) && e.point < |e.before.fit.point| == |e.after.fit.point|
    ensures e.before.fit.cluster[e.point] < |e.before.fit.center| == |e.after.fit.center|
    ensures e.after.fit.cluster[e.point] < |e.after.fit.center|
  {
    hide ClusterOk, Transferred, Offer, Saving;
  }

  lemma GoodState(s: State)
    requires FitOk(s.fit) && |s.d| == |s.fit.point| && |s.ncp| == |s.itran| == |s.live| == |s.fit.center|
    ensures Good(s)
  {}

  /** A step of the optimal stage as an event. */
  lemma OptimalVisit(b: State, a: State, j: nat, moved: bool, l2: nat)
    requires Good(b) && Good(a) && j < |b.fit.point| && |b.fit.center| == |a.fit.center|
    requires j < |a.fit.cluster| == |a.fit.cluster2| && l2 == if moved then a.fit.cluster[j] else a.fit.cluster2[j]
    requires b.fit.cluster[j] < |b.fit.center| && (moved ==> l2 < |b.fit.center|)
    requires moved ==> Movable(b.fit, j, l2) && a.fit == Transferred(b.fit, j, l2)
    requires !moved ==> a.fit == b.fit.(cluster2 := b.fit.cluster2[j := l2])
    requires b.fit.population[b.fit.cluster[j]] > 1 ==> Chose(b.fit, j, b.live, a.d[j], moved, l2)
    requires b.fit.population[b.fit.cluster[j]] <= 1 ==> !moved && a.fit == b.fit
    requires a.d == if Recomputed(0, j, b.fit, b.ncp) then b.d[j := Saving(b.fit, j)] else b.d
    requires a.itran == b.itran
    requires var l1, mark := b.fit.cluster[j], |b.fit.point| + j;
      if moved then a.indx == 0 && a.live == b.live[l1 := mark][l2 := mark] && a.ncp == b.ncp[l1 := j][l2 := j]
      else a.indx == b.indx + 1 && a.live == b.live && a.ncp == b.ncp
    ensures Stepped(Visit(0, j, b, a)) && (Moved(Visit(0, j, b, a)) <==> moved)
  {
    hide Offer, Saving, ClusterOk;
    if moved { TransferredShape(b.fit, j, l2); }
  }

  /** A step of the quick stage as an event. */
  lemma QuickVisit(b: State, a: State, step: nat, j: nat, moved: bool)
    requires Good(b) && Good(a) && j < |b.fit.point| && step > 0 && |a.fit.center| == |b.fit.center|
    requires var l1, l2, mark := b.fit.cluster[j], b.fit.cluster2[j], step + |b.fit.point|;
      && l1 < |b.fit.center| && l2 < |b.fit.center|
      && (moved ==> Movable(b.fit, j, l2) && a.fit == Transferred(b.fit, j, l2)) && (!moved ==> a.fit == b.fit)
      && (moved <==> Looked(step, j, b.fit, b.ncp) && Offer(b.fit, j, l2) < a.d[j])
      && a.d == (if Recomputed(step, j, b.fit, b.ncp) then b.d[j := Saving(b.fit, j)] else b.d) && a.live == b.live
      && if moved then
        a.indx == 0 && a.itran == b.itran[l1 := 1][l2 := 1] && a.ncp == b.ncp[l1 := mark][l2 := mark]
      else a.indx == b.indx && a.itran == b.itran && a.ncp == b.ncp
    ensures Stepped(Visit(step, j, b, a)) && (Moved(Visit(step, j, b, a)) <==> moved)
  {
    hide Offer, Saving, ClusterOk;
    if moved { TransferredShape(b.fit, j, b.fit.cluster2[j]); }
  }

  // ----- The stages of a run

  /** What the optimal stage does before its loop and, unless it ends early, behind it. */
  function Begun(s: State): State {
    s.(live := seq(|s.live|, k requires 0 <= k < |s.live| =>
      if k < |s.itran| && s.itran[k] == 1 then |s.fit.point| + 1 else s.live[k]))
  }

  function Ended(s: State): State {
    s.(itran := seq(|s.itran|, _ => 0),
       live := seq(|s.live|, k requires 0 <= k < |s.live| => s.live[k] - |s.fit.point|))
  }

  /** What the main loop does behind the quick stage. */
  function Zeroed(s: State): State { s.(ncp := seq(|s.ncp|, _ => 0)) }

  /** The optimal stage: one visit of each point in order, up to the first that makes as many without a move as there
      are points. */
  ghost predicate OptimalStage(s: State, visits: seq<Event>, last: State, n: nat) {
    && Path(Begun(s), visits, last) && OptimalOrder(visits) && |visits| <= n
    && ((visits != [] && last.indx == n) || |visits| == n)
    && forall i :: 0 <= i < |visits| - 1 ==> visits[i].after.indx != n
  }

  /** The quick stage: the points round and round, until as many visits as there are points have moved nothing. */
  ghost predicate QuickStage(s: State, visits: seq<Event>, t: State, n: nat)
    requires n > 0
  {
    && Path(s, visits, t) && QuickOrder(visits, n) && |visits| >= n
    && Quiet(visits, |visits|, n) && forall m :: n <= m < |visits| ==> !Quiet(visits, m, n)
  }

  /** None of the `n` visits before number `m` moved a point. */
  ghost predicate Quiet(visits: seq<Event>, m: nat, n: nat)
    requires n <= m <= |visits|
  {
    forall i :: m - n <= i < m ==> !Moved(visits[i])
  }

  /** One turn of the main loop. */
  datatype Round = Round(begin: State, optimal: seq<Event>, last: State, quick: seq<Event>, end: State)

  ghost predicate RoundOk(r: Round, n: nat)
    requires n > 0
  {
    && OptimalStage(r.begin, r.optimal, r.last, n)
    && if r.last.indx == n then r.quick == [] && r.end == r.last else QuickStage(Ended(r.last), r.quick, r.end, n)
  }

  predicate Stops(r: Round, n: nat) { r.last.indx == n || |r.end.fit.center| == 2 }

  /** The main loop takes these turns from `s` to `t`. */
  ghost predicate Staged(s: State, rounds: seq<Round>, n: nat, t: State)
    requires n > 0
  {
    if rounds == [] then s == t
    else
      var r, front := rounds[|rounds| - 1], rounds[..|rounds| - 1];
      && RoundOk(r, n) && t == (if Stops(r, n) then r.end else Zeroed(r.end)) && Staged(s, front, n, r.begin)
      && (front != [] ==> !Stops(front[|front| - 1], n))
  }

  /** All visits of a run. */
  function AllVisits(rounds: seq<Round>): seq<Event> {
    if rounds == [] then []
    else
      var r := rounds[|rounds| - 1];
      AllVisits(rounds[..|rounds| - 1]) + (r.optimal + r.quick)
  }

  lemma StageEnds(s: State)
    requires Good(s)
    ensures Good(Begun(s)) && Good(Ended(s)) && Good(Zeroed(s))
  {
    hide FitOk;
  }

  lemma RoundTotal(r: Round, n: nat)
    requires n > 0 && RoundOk(r, n) && Good(r.begin)
    ensures Good(r.last) && Good(r.end) && Shaped(r.begin.fit) && Shaped(r.end.fit)
    ensures |r.last.fit.center| == |r.end.fit.center| == |r.begin.fit.center|
    ensures |r.last.fit.point| == |r.end.fit.point| == |r.begin.fit.point|
    ensures var visits := r.optimal + r.quick;
      && Ssq(r.end.fit) == Ssq(r.begin.fit) + Changes(visits)
      && (if MoveCount(visits) == 0 then Changes(visits) == 0.0 else Changes(visits) < Excesses(visits))
      && (WrongCount(visits) == 0 || MoveCount(visits) == 0 ==> Excesses(visits) == 0.0)
  {
    hide Path, Ssq, Good, Shaped, OptimalOrder, QuickOrder, Changes, Excesses, MoveCount, WrongCount, Quiet;
    StageEnds(r.begin);
    PathTotal(Begun(r.begin), r.optimal, r.last);
    StageEnds(r.last);
    if r.last.indx != n { PathTotal(Ended(r.last), r.quick, r.end); }
    CountsJoined(r.optimal, r.quick);
    NoVisits();
  }

  lemma NoVisits()
    ensures Changes([]) == Excesses([]) == 0.0 && MoveCount([]) == WrongCount([]) == 0
  {}

  /** Over a whole run the sum of squares changes by exactly what the moves of all stages add. */
  lemma {:induction false} StagedTotal(s: State, rounds: seq<Round>, n: nat, t: State)
    requires n > 0 && Staged(s, rounds, n, t) && Good(s)
    ensures Good(t) && Shaped(s.fit) && Shaped(t.fit) && |t.fit.center| == |s.fit.center|
    ensures |t.fit.point| == |s.fit.point|
    ensures var visits := AllVisits(rounds);
      && Ssq(t.fit) == Ssq(s.fit) + Changes(visits)
      && (if MoveCount(visits) == 0 then Changes(visits) == 0.0 else Changes(visits) < Excesses(visits))
      && (WrongCount(visits) == 0 || MoveCount(visits) == 0 ==> Excesses(visits) == 0.0)
    decreases |rounds|
  {
    hide RoundOk, Ssq, Good, Shaped, Changes, Excesses, MoveCount, WrongCount;
    NoVisits();
    if rounds == [] {
      assert Shaped(s.fit) by { GoodShape(s); }
    } else {
      var r, front := rounds[|rounds| - 1], rounds[..|rounds| - 1];
      StagedTotal(s, front, n, r.begin);
      RoundTotal(r, n);
      StageEnds(r.end);
      CountsJoined(AllVisits(front), r.optimal + r.quick);
    }
  }

  lemma GoodShape(s: State)
    requires Good(s)
    ensures Shaped(s.fit)
  {}

  /** Turn number `i` of a run: where it begins, and what its stages do. */
  lemma {:induction false} RoundAt(s: State, rounds: seq<Round>, n: nat, t: State, i: nat)
    requires n > 0 && Staged(s, rounds, n, t) && Good(s) && i < |rounds|
    ensures var r := rounds[i];
      && RoundOk(r, n) && Good(r.begin) && Good(r.last)
      && |r.begin.fit.center| == |r.last.fit.center| == |r.end.fit.center| == |s.fit.center|
      && |r.begin.fit.point| == |r.last.fit.point| == |s.fit.point|
      && r.begin == if i == 0 then s else Zeroed(rounds[i - 1].end)
    decreases |rounds|
  {
    hide RoundOk, Good, Zeroed;
    var last, front := rounds[|rounds| - 1], rounds[..|rounds| - 1];
    if i < |front| {
      RoundAt(s, front, n, last.begin, i);
    } else {
      StagedTotal(s, front, n, last.begin);
      RoundTotal(last, n);
    }
  }

  /** Which moves of the optimal stages of a run are on wrong distances: exactly those out of a cluster that point 0 was
      the last to touch in this stage, and from the second turn on those out of a cluster that none has touched, if the
      array held another distance before the stage. In the first turn that is what malloc left there. */
  lemma RunOptimalWrong(s: State, rounds: seq<Round>, n: nat, t: State, i: nat, j: nat)
    requires n > 0 && Staged(s, rounds, n, t) && Good(s) && |s.fit.point| == n
    requires forall k :: 0 <= k < |s.ncp| ==> s.ncp[k] == -1
    requires i < |rounds| && j < |rounds[i].optimal| && Moved(rounds[i].optimal[j])
    ensures Good(rounds[i].optimal[j].before) && j < |rounds[i].optimal[j].before.fit.point| == |rounds[i].begin.d|
    ensures
      var r := rounds[i];
      var f := r.optimal[j].before.fit;
      var last := LastTouch(r.optimal[..j], f.cluster[j]);
      Wrong(r.optimal[j]) <==> (last == 0 || (last < 0 && i > 0)) && r.begin.d[j] != Saving(f, j)
  {
    hide Saving, Good, Staged, Moved, Wrong, Path, LastTouch, QuickOrder, Quiet, FitOk;
    RoundAt(s, rounds, n, t, i);
    var r := rounds[i];
    StageEnds(r.begin);
    OptimalWrong(Begun(r.begin), r.optimal, r.last, j);
    OwnClusterOf(r.optimal[j]);
  }

  lemma OwnClusterOf(e: Event)
    requires Good(e.before) && e.point < |e.before.fit.point|
    ensures e.point < |e.before.fit.cluster| && e.before.fit.cluster[e.point] < |e.before.fit.center|
  {}

  /** And of the moves of its quick stages: in each at most one for each cluster. */
  lemma RunQuickWrongs(s: State, rounds: seq<Round>, n: nat, t: State, i: nat)
    requires n > 0 && Staged(s, rounds, n, t) && Good(s) && |s.fit.point| == n && i < |rounds|
    ensures WrongCount(rounds[i].quick) <= |s.fit.center|
  {
    hide Good, Staged, Moved, Wrong, Path, OptimalOrder, QuickOrder, Quiet;
    RoundAt(s, rounds, n, t, i);
    var r := rounds[i];
    if r.last.indx != n {
      StageEnds(r.last);
      QuickWrongs(Ended(r.last), r.quick, r.end);
    }
  }

  class Clusterer {
    const point: seq<Vec>
    const dim: nat
    var cluster: seq<nat>
    var cluster2: seq<nat>
    var center: seq<Vec>
    var population: seq<nat>
    var an1: seq<real>
    var an2: seq<real>
    var ncp: seq<int>
    var d: seq<real>
    var itran: seq<int>
    var live: seq<int>
    var indx: nat

    function Abs(): Fit
      reads this
    {
      Fit(point, dim, cluster, cluster2, center, population, an1, an2)
    }

    function Now(): State
      reads this
    {
      State(Abs(), d, ncp, itran, live, indx)
    }

    predicate Valid()
      reads this
    {
      FitOk(Abs()) && |d| == |point| && |ncp| == |itran| == |live| == |center|
    }

    constructor (point: seq<Vec>, dim: nat)
      ensures this.point == point && this.dim == dim
    {
      this.point := point;
      this.dim := dim;
    }

    /** The two closest of the given centres, in this order. */
    method ClosestTwo(p: Vec, start: seq<Vec>) returns (first: nat, second: nat)
      requires |p| == dim && |start| >= 2 && Points(start, dim)
      ensures first < |start| && second < |start| && first != second
      ensures forall k :: 0 <= k < |start| ==> Dist(p, start[first], dim) <= Dist(p, start[k], dim)
      ensures forall k :: 0 <= k < |start| && k != first ==> Dist(p, start[second], dim) <= Dist(p, start[k], dim)
    {
      hide Dist;
      first, second := 0, 1;
      var dt0 := Distance(p, start[0]);
      var dt1 := Distance(p, start[1]);
      if dt1 < dt0 {
        first, second := 1, 0;
        dt0, dt1 := dt1, dt0;
      }
      for k := 2 to |start|
        invariant first < k && second < k && first != second
        invariant dt0 == Dist(p, start[first], dim) && dt1 == Dist(p, start[second], dim)
        invariant forall m :: 0 <= m < k ==>
          dt0 <= Dist(p, start[m], dim) && (m != first ==> dt1 <= Dist(p, start[m], dim))
      {
        var db := Distance(p, start[k]);
        if db < dt0 {
          dt1, second := dt0, first;
          dt0, first := db, k;
        } else if db < dt1 {
          dt1, second := db, k;
        }
      }
    }

    /** The sums and counts of the clusters, before the division. */
    method Accumulate(clusters: nat)
      requires Points(point, dim) && |cluster| == |point| && forall j :: 0 <= j < |cluster| ==> cluster[j] < clusters
      modifies this`population, this`center
      ensures |population| == |center| == clusters && Points(center, dim)
      ensures forall k :: 0 <= k < clusters ==> IsTotal(point, dim, cluster, k, |point|, population[k], center[k])
    {
      hide IsTotal;
      var empty: Vec := seq(dim, _ => 0.0);
      population := seq(clusters, _ => 0);
      center := seq(clusters, _ => empty);
      for k := 0 to clusters
        invariant forall m :: 0 <= m < k ==> IsTotal(point, dim, cluster, m, 0, population[m], center[m])
      {
        NoTotal(point, dim, cluster, k);
      }
      for j := 0 to |point|
        invariant |population| == |center| == clusters && Points(center, dim)
        invariant forall k :: 0 <= k < clusters ==> IsTotal(point, dim, cluster, k, j, population[k], center[k])
      {
        var k := cluster[j];
        var sum := AddPoint(center[k], point[j]);
        forall m | 0 <= m < clusters
          ensures IsTotal(point, dim, cluster, m, j + 1, if m == k then population[m] + 1 else population[m],
            if m == k then sum else center[m])
        {
          MoreTotal(point, dim, cluster, m, j, population[m], center[m]);
        }
        population := population[k := population[k] + 1];
        center := center[k := sum];
      }
    }

    method AddPoint(c: Vec, p: Vec) returns (sum: Vec)
      requires |c| == |p| == dim
      ensures sum == Plus(c, p)
    {
      sum := c;
      for i := 0 to dim
        invariant |sum| == dim && forall m :: 0 <= m < dim ==> sum[m] == if m < i then c[m] + p[m] else c[m]
      {
        sum := sum[i := sum[i] + p[i]];
      }
    }

    /** The beginning of kmeans_02: every point goes to its closest centre, and the centres become means. It fails
        exactly if a centre is closest to no point. `garbage` is what malloc left in the array of distances. */
    method Start(start: seq<Vec>, garbage: seq<real>) returns (ok: bool)
      requires Points(point, dim) && |start| >= 2 && Points(start, dim) && |garbage| == |point|
      modifies this
      ensures |cluster| == |point| && forall j :: 0 <= j < |point| ==> Closest(point[j], start, dim, cluster[j])
      ensures ok <==> forall k :: 0 <= k < |start| ==> Count(cluster, k, |point|) > 0
      ensures ok ==> Valid() && |center| == |start| && d == garbage && indx == 0
      ensures ok ==> forall k :: 0 <= k < |start| ==> ncp[k] == -1 && itran[k] == 1
    {
      hide Dist, Count, IsTotal;
      cluster, cluster2 := [], [];
      for j := 0 to |point|
        invariant |cluster| == |cluster2| == j
        invariant forall i :: 0 <= i < j ==> cluster[i] < |start| && cluster2[i] < |start| && cluster[i] != cluster2[i]
        invariant forall i :: 0 <= i < j ==> Closest(point[i], start, dim, cluster[i])
      {
        var first, second := ClosestTwo(point[j], start);
        cluster, cluster2 := cluster + [first], cluster2 + [second];
      }
      Accumulate(|start|);
      ok := Divide(garbage);
    }

    /** The division, and the start values of an1, an2, itran and ncp. */
    method Divide(garbage: seq<real>) returns (ok: bool)
      requires |garbage| == |point|
      requires Points(point, dim) && |cluster| == |cluster2| == |point| && |population| == |center|
      requires Points(center, dim)
      requires forall j :: 0 <= j < |cluster| ==>
        cluster[j] < |center| && cluster2[j] < |center| && cluster[j] != cluster2[j]
      requires forall k :: 0 <= k < |center| ==> IsTotal(point, dim, cluster, k, |point|, population[k], center[k])
      modifies this`center, this`an1, this`an2, this`itran, this`ncp, this`d, this`live, this`indx
      ensures |center| == old(|center|)
      ensures ok <==> forall k :: 0 <= k < |center| ==> Count(cluster, k, |point|) > 0
      ensures ok ==>
        Valid() && d == garbage && indx == 0 && forall k :: 0 <= k < |center| ==> ncp[k] == -1 && itran[k] == 1
    {
      hide IsTotal, Count, Started, FitOk;
      an1, an2 := seq(|center|, _ => 0.0), seq(|center|, _ => 0.0);
      itran, ncp := seq(|center|, _ => 0), seq(|center|, _ => 0);
      ok := DivideAll();
      if !ok {
        return;
      }
      indx := 0;
      d := garbage;
      live := seq(|center|, _ => 0);
      AllStarted(Abs());
    }

    method DivideAll() returns (ok: bool)
      requires Points(point, dim) && |cluster| == |point| && |population| == |center| && Points(center, dim)
      requires |an1| == |an2| == |itran| == |ncp| == |center|
      requires forall k :: 0 <= k < |center| ==> IsTotal(point, dim, cluster, k, |point|, population[k], center[k])
      modifies this`center, this`an1, this`an2, this`itran, this`ncp
      ensures |center| == old(|center|) && Points(center, dim)
      ensures |an1| == |an2| == |itran| == |ncp| == |center|
      ensures ok ==>
        forall k :: 0 <= k < |center| ==> Started(point, dim, cluster, k, population[k], center[k], an1[k], an2[k])
      ensures ok ==> forall k :: 0 <= k < |center| ==> ncp[k] == -1 && itran[k] == 1
      ensures !ok ==> exists k :: 0 <= k < |center| && Count(cluster, k, |point|) == 0
    {
      hide IsTotal, Count, Started;
      ghost var sums := center;
      for k := 0 to |center|
        invariant |center| == |sums| == |an1| == |an2| == |itran| == |ncp| && Points(center, dim)
        invariant forall m :: k <= m < |center| ==> center[m] == sums[m]
        invariant forall m :: 0 <= m < k ==> Started(point, dim, cluster, m, population[m], center[m], an1[m], an2[m])
        invariant forall m :: 0 <= m < k ==> ncp[m] == -1 && itran[m] == 1
      {
        TotalCount(point, dim, cluster, k, population[k], center[k]);
        if population[k] == 0 {
          return false;
        }
        DivideOne(k);
      }
      ok := true;
    }

    /** The mean of cluster `k`, and its an1, an2, itran and ncp. */
    method DivideOne(k: nat)
      requires Points(point, dim) && |cluster| == |point| && k < |population| == |center| && population[k] > 0
      requires |an1| == |an2| == |itran| == |ncp| == |center|
      requires IsTotal(point, dim, cluster, k, |point|, population[k], center[k])
      modifies this`center, this`an1, this`an2, this`itran, this`ncp
      ensures |center| == old(|center|) && center == old(center)[k := center[k]] && |center[k]| == dim
      ensures |an1| == |an2| == |center| && an1 == old(an1)[k := an1[k]] && an2 == old(an2)[k := an2[k]]
      ensures itran == old(itran)[k := 1] && ncp == old(ncp)[k := -1]
      ensures Started(point, dim, cluster, k, population[k], center[k], an1[k], an2[k])
    {
      hide IsTotal, Count, Started;
      var n := population[k] as real;
      TotalCount(point, dim, cluster, k, population[k], center[k]);
      ghost var sum := center[k];
      var mean := Scale(center[k], n);
      center := center[k := mean];
      an2 := an2[k := n / (n + 1.0)];
      an1 := an1[k := if 1 < population[k] then n / (n - 1.0) else HUGE_VAL];
      itran := itran[k := 1];
      ncp := ncp[k := -1];
      MeanStarted(point, dim, cluster, k, population[k], sum, mean);
    }

    method Scale(c: Vec, n: real) returns (mean: Vec)
      requires |c| == dim && n > 0.0
      ensures |mean| == dim && forall i :: 0 <= i < dim ==> mean[i] == c[i] / n
    {
      mean := c;
      for i := 0 to dim
        invariant |mean| == dim && forall m :: 0 <= m < dim ==> mean[m] == if m < i then c[m] / n else c[m]
      {
        mean := mean[i := mean[i] / n];
      }
    }

    /** The squared distance of a point to a centre. */
    method Distance(p: Vec, c: Vec) returns (dist: real)
      requires |p| == dim == |c|
      ensures dist == Dist(p, c, dim)
    {
      dist := 0.0;
      for i := 0 to dim
        invariant dist == Dist(p, c, i)
      {
        dist := dist + (p[i] - c[i]) * (p[i] - c[i]);
      }
    }

    /** The two centres after point `p` has moved from the first cluster to the second. */
    method MoveCenters(c1: Vec, c2: Vec, al1: real, al2: real, p: Vec) returns (d1: Vec, d2: Vec)
      requires |c1| == |c2| == |p| == dim && al1 > 1.0 && al2 > 0.0
      ensures d1 == Without(c1, al1, p) && d2 == With(c2, al2, p)
    {
      var alw, alt := al1 - 1.0, al2 + 1.0;
      d1, d2 := c1, c2;
      for i := 0 to dim
        invariant |d1| == dim == |d2|
        invariant forall m :: 0 <= m < dim ==> d1[m] == if m < i then Without(c1, al1, p)[m] else c1[m]
        invariant forall m :: 0 <= m < dim ==> d2[m] == if m < i then With(c2, al2, p)[m] else c2[m]
      {
        d1 := d1[i := (d1[i] * al1 - p[i]) / alw];
        d2 := d2[i := (d2[i] * al2 + p[i]) / alt];
      }
    }

    /** The update that both stages make in place. */
    method Transfer(j: nat, l2: nat)
      requires Movable(Abs(), j, l2)
      modifies this`cluster, this`cluster2, this`center, this`population, this`an1, this`an2
      ensures Abs() == Transferred(old(Abs()), j, l2) && FitOk(Abs())
    {
      hide Dist, Count, Sum, With, Without;
      TransferredOk(Abs(), j, l2);
      ghost var f := Abs();
      var l1 := cluster[j];
      assert ClusterOk(f, l1) && ClusterOk(f, l2);
      var al1, al2 := population[l1] as real, population[l2] as real;
      var alw, alt := al1 - 1.0, al2 + 1.0;
      var c1, c2 := MoveCenters(center[l1], center[l2], al1, al2, point[j]);
      center := center[l1 := c1][l2 := c2];
      population := population[l1 := population[l1] - 1];
      population := population[l2 := population[l2] + 1];
      an2 := an2[l1 := alw / al1];
      an1 := an1[l1 := if 1.0 < alw then alw / (alw - 1.0) else HUGE_VAL];
      an1 := an1[l2 := alt / al2];
      an2 := an2[l2 := alt / (alt + 1.0)];
      cluster := cluster[j := l2];
      cluster2 := cluster2[j := l1];
    }

    /** The cluster that would lose least by taking the point, among those that are looked at. */
    method Nearest(j: nat) returns (l2: nat, r2: real)
      requires Valid() && j < |point|
      ensures l2 < |center| && l2 != cluster[j] && r2 == Offer(Abs(), j, l2)
      ensures forall l :: 0 <= l < |center| && l != cluster[j] && (j < live[cluster[j]] || j < live[l]) ==>
        r2 <= Offer(Abs(), j, l)
    {
      hide Dist, ClusterOk, Offer;
      ghost var f := Abs();
      var l1 := cluster[j];
      l2 := cluster2[j];
      var ll := l2;
      var dist := Distance(point[j], center[l2]);
      OfferIs(f, j, l2);
      r2 := an2[l2] * dist;
      ghost var first := r2;
      for l := 0 to |center|
        invariant l2 < |center| && l2 != l1 && r2 == Offer(f, j, l2) && r2 <= first == Offer(f, j, ll)
        invariant forall m :: 0 <= m < l && m != l1 && m != ll && (j < live[l1] || j < live[m]) ==> r2 <= Offer(f, j, m)
      {
        if (j < live[l1] || j < live[l]) && l != l1 && l != ll {
          RatioPositive(f, l);
          var rr := r2 / an2[l];
          var dc := Distance(point[j], center[l]);
          OfferBelow(f, j, l, dc, r2);
          if dc < rr {
            r2 := dc * an2[l];
            l2 := l;
          }
        }
      }
    }

    /** One turn of the loop of kmeans_02_optra. The point moves if the best offer is below the distance on record,
        which lowers the sum of squares exactly if the offer is below the real saving. If the distance is recomputed,
        all clusters are looked at and the point stays, no transfer of it would lower the sum. */
    method OptimalStep(j: nat) returns (moved: bool, recomputed: bool)
      requires Valid() && j < |point|
      modifies this
      ensures Valid() && |center| == old(|center|)
      ensures moved ==> Movable(old(Abs()), j, cluster[j]) && Abs() == Transferred(old(Abs()), j, cluster[j])
      ensures !moved ==> Abs() == old(Abs()).(cluster2 := cluster2) && cluster2 == old(cluster2)[j := cluster2[j]]
      ensures recomputed == old(population[cluster[j]] > 1 && ncp[cluster[j]] != 0)
      ensures moved ==> Gained(old(Abs()), Abs(), j, cluster[j])
      ensures recomputed && !moved && old(j < live[cluster[j]]) ==>
        forall l :: 0 <= l < |center| && l != old(cluster)[j] ==> NoGain(old(Abs()), j, l)
      ensures itran == old(itran)
      ensures old(population[cluster[j]] > 1) ==>
        Chose(old(Abs()), j, old(live), d[j], moved, if moved then cluster[j] else cluster2[j])
      ensures old(population[cluster[j]] <= 1) ==> !moved && Abs() == old(Abs())
      ensures d == if recomputed then old(d)[j := Saving(old(Abs()), j)] else old(d)
      ensures if moved then indx == 0 && live == old(live[cluster[j] := |point| + j])[cluster[j] := |point| + j]
          && ncp == old(ncp[cluster[j] := j])[cluster[j] := j]
        else indx == old(indx) + 1 && live == old(live) && ncp == old(ncp)
    {
      hide Dist, FitOk, Ssq, Transferred, Movable, NoGain, Shaped, Chose, Saving, Gained;
      FitShape(Abs());
      indx := indx + 1;
      if 1 < population[cluster[j]] {
        moved, recomputed := Reconsider(j);
      } else {
        moved, recomputed := false, false;
      }
    }

    /** The case of a point that is not the only member of its cluster. */
    method Reconsider(j: nat) returns (moved: bool, recomputed: bool)
      requires Valid() && j < |point| && population[cluster[j]] > 1
      modifies this`cluster, this`cluster2, this`center, this`population, this`an1, this`an2, this`d, this`live
      modifies this`ncp, this`indx
      ensures Valid() && |center| == old(|center|)
      ensures moved ==> Movable(old(Abs()), j, cluster[j]) && Abs() == Transferred(old(Abs()), j, cluster[j])
      ensures !moved ==> Abs() == old(Abs()).(cluster2 := cluster2) && cluster2 == old(cluster2)[j := cluster2[j]]
      ensures recomputed == (old(ncp)[old(cluster)[j]] != 0)
      ensures moved ==> Gained(old(Abs()), Abs(), j, cluster[j])
      ensures recomputed && !moved && old(j < live[cluster[j]]) ==>
        forall l :: 0 <= l < |center| && l != old(cluster)[j] ==> NoGain(old(Abs()), j, l)
      ensures Chose(old(Abs()), j, old(live), d[j], moved, if moved then cluster[j] else cluster2[j])
      ensures d == if recomputed then old(d)[j := Saving(old(Abs()), j)] else old(d)
      ensures if moved then indx == 0 && live == old(live[cluster[j] := |point| + j])[cluster[j] := |point| + j]
          && ncp == old(ncp[cluster[j] := j])[cluster[j] := j]
        else indx == old(indx) && live == old(live) && ncp == old(ncp)
    {
      hide Dist, FitOk, Ssq, Transferred, Movable, NoGain, Dear, Offer, Saving, Gained;
      ghost var f, alive := Abs(), live;
      FitShape(f);
      var l1 := cluster[j];
      recomputed := ncp[l1] != 0;
      if recomputed {
        var dist := Distance(point[j], center[l1]);
        SavingIs(f, j);
        assert an1[l1] * dist == Saving(f, j);
        d := d[j := an1[l1] * dist];
      }
      var l2, r2 := Nearest(j);
      Decision(f, j, l2, r2, alive);
      if d[j] <= r2 {
        moved := false;
        cluster2 := cluster2[j := l2];
        OnlySecond(f, Abs());
      } else {
        moved := true;
        TransferGains(f, j, l2);
        OptimalMove(j, l2);
      }
    }

    /** The update of the optimal stage. */
    method OptimalMove(j: nat, l2: nat)
      requires Valid() && j < |point| && Movable(Abs(), j, l2)
      modifies this`cluster, this`cluster2, this`center, this`population, this`an1, this`an2, this`live, this`ncp
      modifies this`indx
      ensures Valid() && |center| == old(|center|) && cluster[j] == l2
      ensures Abs() == Transferred(old(Abs()), j, l2)
      ensures indx == 0 && live == old(live[cluster[j] := |point| + j])[l2 := |point| + j]
      ensures ncp == old(ncp[cluster[j] := j])[l2 := j]
    {
      hide FitOk, Transferred, Movable;
      FitShape(Abs());
      TransferredShape(Abs(), j, l2);
      var l1 := cluster[j];
      indx := 0;
      live := live[l1 := |point| + j][l2 := |point| + j];
      ncp := ncp[l1 := j][l2 := j];
      Transfer(j, l2);
    }

    /** The start of kmeans_02_optra: clusters updated in the last quick stage are live throughout. */
    method Enliven()
      requires Valid()
      modifies this`live
      ensures Valid() && Now() == Begun(old(Now()))
    {
      hide FitOk;
      ghost var was := live;
      for k := 0 to |center|
        invariant |live| == |was| && forall m :: 0 <= m < |was| ==>
          live[m] == if m < k && itran[m] == 1 then |point| + 1 else was[m]
      {
        if itran[k] == 1 {
          live := live[k := |point| + 1];
        }
      }
      assert live == Begun(old(Now())).live;
    }

    /** kmeans_02_optra: one pass of optimal transfers, as the visits of the points. */
    method OptimalTransfers() returns (moved: bool, ghost visits: seq<Event>, ghost last: State)
      requires Valid()
      modifies this
      ensures Valid() && |center| == old(|center|)
      ensures OptimalStage(old(Now()), visits, last, |point|)
      ensures Now() == if visits != [] && indx == |point| then last else Ended(last)
      ensures indx == last.indx && (moved <==> MoveCount(visits) > 0)
    {
      hide FitOk, Ssq, Transferred, NoGain, Shaped, Movable, Saving, Gained, Chose, Path, MoveCount, WrongCount, Moved;
      hide Begun;
      FitShape(Abs());
      Enliven();
      ghost var s := Now();
      moved, visits := false, [];
      PathStart(s);
      for j := 0 to |point|
        invariant Valid() && |center| == old(|center|) && Shaped(Abs()) && (j > 0 ==> indx != |point|)
        invariant Path(s, visits, Now()) && OptimalOrder(visits) && |visits| == j
        invariant (moved <==> MoveCount(visits) > 0) && forall i :: 0 <= i < j ==> visits[i].after.indx != |point|
      {
        var m, e := OptimalVisits(j);
        PathMore(s, visits, e.before, e);
        visits := visits + [e];
        moved := moved || m;
        if indx == |point| {
          last := Now();
          return;
        }
      }
      last := Now();
      itran := seq(|itran|, _ => 0);
      live := seq(|live|, k requires 0 <= k < |live| reads this => live[k] - |point|);
      assert Now() == Ended(last);
    }

    /** One turn of the loop of kmeans_02_optra, as an event. */
    method OptimalVisits(j: nat) returns (moved: bool, ghost e: Event)
      requires Valid() && j < |point|
      modifies this
      ensures Valid() && |center| == old(|center|) && Shaped(Abs())
      ensures e == Visit(0, j, old(Now()), Now()) && Stepped(e) && (moved <==> Moved(e))
    {
      hide Ssq, Transferred, NoGain, Movable, Saving, Gained, ClusterOk, Offer, Moved, Stepped, Chose;
      ghost var before := Now();
      OwnCluster(before.fit, j);
      GoodState(before);
      var recomputed;
      moved, recomputed := OptimalStep(j);
      OwnCluster(Abs(), j);
      GoodState(Now());
      OptimalVisit(before, Now(), j, moved, if moved then cluster[j] else cluster2[j]);
      e := Visit(0, j, before, Now());
    }

    /** One turn of the loop of kmeans_02_qtran, as an event. */
    method QuickVisits(j: nat, step: nat) returns (moved: bool, ghost e: Event)
      requires Valid() && j < |point| && step > 0
      modifies this`cluster, this`cluster2, this`center, this`population, this`an1, this`an2, this`d, this`itran
      modifies this`ncp, this`indx
      ensures Valid() && |center| == old(|center|) && Shaped(Abs())
      ensures e == Visit(step, j, old(Now()), Now()) && Stepped(e) && (moved <==> Moved(e))
      ensures !moved ==> Abs() == old(Abs())
    {
      hide Ssq, Transferred, NoGain, Movable, Saving, Gained, ClusterOk, Offer, Moved, Stepped;
      ghost var before := Now();
      OwnCluster(before.fit, j);
      GoodState(before);
      var recomputed;
      moved, recomputed := QuickStep(j, step);
      GoodState(Now());
      QuickVisit(before, Now(), step, j, moved);
      e := Visit(step, j, before, Now());
    }

    /** One turn of the loop of kmeans_02_qtran. */
    method QuickStep(j: nat, step: nat) returns (moved: bool, recomputed: bool)
      requires Valid() && j < |point|
      modifies this`cluster, this`cluster2, this`center, this`population, this`an1, this`an2, this`d, this`itran
      modifies this`ncp, this`indx
      ensures Valid() && |center| == old(|center|)
      ensures moved ==>
        && Movable(old(Abs()), j, cluster[j]) && Abs() == Transferred(old(Abs()), j, cluster[j])
        && cluster[j] == old(cluster2[j])
      ensures !moved ==> Abs() == old(Abs())
      ensures recomputed == old(population[cluster[j]] > 1 && step <= ncp[cluster[j]])
      ensures moved ==> Gained(old(Abs()), Abs(), j, cluster[j])
      ensures old(population[cluster[j]] > 1 && step < ncp[cluster[j]]) && !moved ==> NoGain(old(Abs()), j, cluster2[j])
      ensures moved <==>
        && old(population[cluster[j]] > 1 && (step < ncp[cluster[j]] || step < ncp[cluster2[j]]))
        && Offer(old(Abs()), j, old(cluster2[j])) < d[j]
      ensures d == if recomputed then old(d)[j := Saving(old(Abs()), j)] else old(d)
      ensures if moved then indx == 0 && itran == old(itran[cluster[j] := 1][cluster2[j] := 1])
          && ncp == old(ncp[cluster[j] := step + |point|][cluster2[j] := step + |point|])
        else indx == old(indx) && itran == old(itran) && ncp == old(ncp)
    {
      hide Dist, FitOk, Ssq, Transferred, Movable, NoGain, Offer, Saving, Gained;
      ghost var f := Abs();
      FitShape(f);
      moved, recomputed := false, false;
      var l1, l2 := cluster[j], cluster2[j];
      if 1 < population[l1] {
        recomputed := step <= ncp[l1];
        if recomputed {
          var dist := Distance(point[j], center[l1]);
          SavingIs(f, j);
          assert an1[l1] * dist == Saving(f, j);
          d := d[j := an1[l1] * dist];
        }
        if step < ncp[l1] || step < ncp[l2] {
          RatioPositive(f, l2);
          var r2 := d[j] / an2[l2];
          var dd := Distance(point[j], center[l2]);
          QuickDecision(f, j, l2, dd, d[j]);
          if dd < r2 {
            moved := true;
            TransferGains(f, j, l2);
            QuickMove(j, step);
          }
        }
      }
    }

    /** The update of the quick stage. */
    method QuickMove(j: nat, step: nat)
      requires Valid() && j < |point| && Movable(Abs(), j, cluster2[j])
      modifies this`cluster, this`cluster2, this`center, this`population, this`an1, this`an2, this`itran, this`ncp
      modifies this`indx
      ensures Valid() && |center| == old(|center|) && cluster[j] == old(cluster2[j])
      ensures Abs() == Transferred(old(Abs()), j, old(cluster2[j]))
      ensures indx == 0 && itran == old(itran[cluster[j] := 1][cluster2[j] := 1])
      ensures ncp == old(ncp[cluster[j] := step + |point|][cluster2[j] := step + |point|])
    {
      hide FitOk, Transferred, Movable;
      FitShape(Abs());
      TransferredShape(Abs(), j, cluster2[j]);
      var l1, l2 := cluster[j], cluster2[j];
      indx := 0;
      itran := itran[l1 := 1][l2 := 1];
      ncp := ncp[l1 := step + |point|][l2 := step + |point|];
      Transfer(j, l2);
    }

    /** kmeans_02_qtran, as the visits of the points. It always ends: a move on a wrong distance touches a new cluster,
        and every other one lowers the sum of squares. */
    method QuickTransfers() returns (moved: bool, ghost visits: seq<Event>)
      requires Valid() && |point| > 0
      modifies this
      ensures Valid() && |center| == old(|center|)
      ensures QuickStage(old(Now()), visits, Now(), |point|)
      ensures moved <==> MoveCount(visits) > 0
    {
      hide FitOk, Shaped, Path, Rank, Moved, Stepped, MoveCount, Touched, QuickOrder, WrongCount, Going, Quiet;
      ghost var s := Now();
      FitShape(s.fit);
      GoodState(s);
      var count, step := 0, 0;
      moved, visits := false, [];
      PathStart(s);
      OrderStart(|point|);
      GoingStart(|point|);
      while true
        invariant Valid() && |center| == |s.fit.center| && Shaped(Abs()) && step == |visits|
        invariant Path(s, visits, Now()) && QuickOrder(visits, |point|) && Turn(step, |point|) == 0
        invariant Going(visits, count, |point|) && count < |point| && (moved <==> MoveCount(visits) > 0)
        invariant |Touched(visits)| <= |center|
        decreases |s.fit.center| - |Touched(visits)|, Rank(Abs())
      {
        ghost var start, had, from, quiet := Abs(), Touched(visits), count, true;
        for j := 0 to |point|
          invariant Valid() && |center| == |s.fit.center| && Shaped(Abs()) && step == |visits|
          invariant Path(s, visits, Now()) && QuickOrder(visits, |point|)
          invariant Turn(step, |point|) == if j == |point| then 0 else j
          invariant Going(visits, count, |point|) && count < |point| && (moved <==> MoveCount(visits) > 0)
          invariant quiet ==> count == from + j
          invariant |had| <= |Touched(visits)| <= |center|
          invariant if quiet then Abs() == start && |Touched(visits)| == |had|
            else |had| < |Touched(visits)| || Rank(Abs()) < Rank(start)
        {
          count, step := count + 1, step + 1;
          ghost var before := Now();
          var m, e := QuickVisits(j, step);
          QuickProgress(s, visits, before, e);
          GoingMore(visits, e, count - 1, |point|);
          visits := visits + [e];
          if m {
            count, quiet := 0, false;
          }
          moved := moved || m;
          if count == |point| {
            return;
          }
        }
      }
    }

    /** Steps 0 to `j` of the first pass. If point 0 moves, and no other before point `j`, then ncp is 0 for the two
        clusters involved, and a point of either is judged by what was in the array of distances before the pass. */
    method FirstMove(j: nat)
      returns (first: bool, quiet: bool, to: nat, moved: bool, recomputed: bool, ghost before: Fit)
      requires Valid() && 0 < j < |point|
      modifies this
      ensures Valid() && |center| == old(|center|) && FitOk(before) && Shaped(before)
      ensures first && quiet && (old(cluster[j]) == old(cluster[0]) || old(cluster[j]) == to) ==>
        && !recomputed && d[j] == old(d[j])
        && (moved ==> Gained(before, Abs(), j, cluster[j]) && Offer(before, j, cluster[j]) < old(d[j]))
    {
      hide FitOk, Ssq, Transferred, NoGain, Movable, Saving, Gained, Offer;
      OwnCluster(Abs(), 0);
      OwnCluster(Abs(), j);
      ghost var f := Abs();
      first, recomputed := OptimalStep(0);
      OwnCluster(Abs(), j);
      if first { TransferredShape(f, 0, cluster[0]); }
      quiet, to := true, cluster[0];
      ghost var dj, counted, own := d[j], ncp, cluster;
      for i := 1 to j
        invariant Valid() && |center| == old(|center|) && d[j] == dj && (quiet ==> ncp == counted && cluster == own)
      {
        var m, r := OptimalStep(i);
        quiet := quiet && !m;
      }
      before := Abs();
      FitShape(before);
      moved, recomputed := OptimalStep(j);
    }

    /** The centres recomputed from the final clusters. */
    method Recenter()
      requires Valid()
      modifies this`center
      ensures Valid() && Abs() == old(Abs())
    {
      hide IsTotal, ClusterOk, Count, Sum;
      ghost var f := Abs();
      FitShape(f);
      var empty: Vec := seq(dim, _ => 0.0);
      center := seq(|center|, _ => empty);
      for k := 0 to |center|
        invariant |center| == |f.center| && Points(center, dim)
        invariant forall m :: 0 <= m < k ==> IsTotal(point, dim, cluster, m, 0, Count(cluster, m, 0), center[m])
      {
        NoSums(point, dim, cluster, k);
      }
      for j := 0 to |point|
        invariant |center| == |f.center| && Points(center, dim)
        invariant forall k :: 0 <= k < |center| ==> IsTotal(point, dim, cluster, k, j, Count(cluster, k, j), center[k])
      {
        var k := cluster[j];
        var sum := AddPoint(center[k], point[j]);
        forall m | 0 <= m < |center|
          ensures IsTotal(point, dim, cluster, m, j + 1, Count(cluster, m, j + 1), if m == k then sum else center[m])
        {
          MoreSums(point, dim, cluster, m, j, center[m]);
        }
        center := center[k := sum];
      }
      for k := 0 to |center|
        invariant |center| == |f.center| && Points(center, dim)
        invariant forall m :: 0 <= m < |center| ==>
          if m < k then center[m] == f.center[m]
          else IsTotal(point, dim, cluster, m, |point|, Count(cluster, m, |point|), center[m])
      {
        PopulationPositive(f, k);
        var mean := Scale(center[k], population[k] as real);
        MeanIsCenter(f, k, center[k], mean);
        center := center[k := mean];
      }
      assert center == f.center;
    }

    /** The energies: what every cluster contributes to the sum of squares. */
    method Energies() returns (energy: seq<real>)
      requires Valid()
      ensures |energy| == |center|
      ensures forall k :: 0 <= k < |center| ==> energy[k] == Within(point, dim, cluster, k, center[k], |point|, dim)
      ensures Total(energy, |energy|) == Ssq(Abs())
    {
      hide Dist, ClusterOk;
      FitShape(Abs());
      energy := seq(|center|, _ => 0.0);
      for j := 0 to |point|
        invariant |energy| == |center|
        invariant forall k :: 0 <= k < |center| ==> energy[k] == Within(point, dim, cluster, k, center[k], j, dim)
      {
        var k := cluster[j];
        var dist := Distance(point[j], center[k]);
        energy := energy[k := energy[k] + dist];
      }
      EnergyTotal(Abs(), energy, |center|);
    }

    /** One turn of the main loop. */
    method MainTurn(ghost begun: State, ghost rounds: seq<Round>) returns (more: bool, ghost round: Round)
      requires Valid() && |point| > 0 && Staged(begun, rounds, |point|, Now())
      requires rounds == [] || !Stops(rounds[|rounds| - 1], |point|)
      modifies this
      ensures Valid() && |center| == old(|center|) && (more <==> !Stops(round, |point|))
      ensures Staged(begun, rounds + [round], |point|, Now())
    {
      hide FitOk, Staged, QuickStage, Path, OptimalOrder, Ended, Zeroed;
      ghost var s, n := Now(), |point|;
      var moved, optimal, last := OptimalTransfers();
      ghost var quick: seq<Event> := [];
      more := indx != |point|;
      if more {
        assert Now() == Ended(last);
        moved, quick := QuickTransfers();
        more := |center| != 2;
      }
      round := Round(s, optimal, last, quick, Now());
      assert RoundOk(round, n);
      StagedMore(begun, rounds, n, round);
      if more {
        ghost var t := Now();
        ncp := seq(|ncp|, _ => 0);
        assert Now() == Zeroed(t) by { ZeroedIs(t); }
      }
    }

    /** kmeans_02 for other than one cluster: the exact failures, the turns of the main loop from the start to the
        result and why they end, and what they do to the sum of squares. */
    method Run(start: seq<Vec>, itMax: nat, garbage: seq<real>)
      returns (ok: bool, itNum: nat, energy: seq<real>, ghost begun: State, ghost rounds: seq<Round>)
      requires Points(point, dim) && Points(start, dim) && |start| != 1 && |garbage| == |point|
      modifies this
      ensures ok <==> CanStart(point, dim, start, begun.fit.cluster)
      ensures ok ==> Valid() && |center| == |start| && |begun.fit.point| == |point| > 0
      ensures ok ==> Good(begun) && Shaped(begun.fit)
      ensures ok ==> begun.d == garbage && begun.ncp == seq(|start|, _ => -1) && begun.itran == seq(|start|, _ => 1)
      ensures ok ==> Staged(begun, rounds, |point|, Now()) && |rounds| == itNum <= itMax
      ensures ok && itNum < itMax ==> itNum > 0 && Stops(rounds[itNum - 1], |point|)
      ensures ok ==>
        var visits := AllVisits(rounds);
        && Ssq(Abs()) == Ssq(begun.fit) + Changes(visits)
        && (WrongCount(visits) == 0 ==>
            if MoveCount(visits) > 0 then Ssq(Abs()) < Ssq(begun.fit) else Ssq(Abs()) == Ssq(begun.fit))
      ensures ok ==> Total(energy, |energy|) == Ssq(Abs())
    {
      hide FitOk, Ssq, Count, Closest, Total, WrongCount, MoveCount, Changes, Staged, AllVisits, RoundOk;
      hide Ended, Zeroed;
      itNum, energy, begun, rounds := 0, [], Now(), [];
      ok := false;
      if |start| < 1 || |point| <= |start| || dim < 1 {
        return;
      }
      ok := Start(start, garbage);
      begun := Now();
      if !ok {
        return;
      }
      FitShape(begun.fit);
      GoodState(begun);
      assert forall k :: 0 <= k < |start| ==> Count(begun.fit.cluster, k, |point|) > 0;
      assert CanStart(point, dim, start, begun.fit.cluster);
      assert begun.ncp == seq(|start|, _ => -1) && begun.itran == seq(|start|, _ => 1);
      StagedNone(begun, |point|);
      while itNum < itMax
        invariant Valid() && |center| == |start| && |rounds| == itNum <= itMax
        invariant Staged(begun, rounds, |point|, Now())
        invariant rounds == [] || !Stops(rounds[itNum - 1], |point|)
      {
        var more, round := MainTurn(begun, rounds);
        itNum := itNum + 1;
        rounds := rounds + [round];
        if !more {
          break;
        }
      }
      StagedTotal(begun, rounds, |point|, Now());
      Recenter();
      energy := Energies();
    }
  }

  lemma ZeroedIs(s: State)
    ensures Zeroed(s) == s.(ncp := seq(|s.ncp|, _ => 0))
  {}

  lemma StagedNone(s: State, n: nat)
    requires n > 0
    ensures Staged(s, [], n, s)
  {}

  lemma StagedMore(s: State, rounds: seq<Round>, n: nat, r: Round)
    requires n > 0 && Staged(s, rounds, n, r.begin) && RoundOk(r, n)
    requires rounds == [] || !Stops(rounds[|rounds| - 1], n)
    ensures Staged(s, rounds + [r], n, if Stops(r, n) then r.end else Zeroed(r.end))
  {
    hide RoundOk;
    assert (rounds + [r])[..|rounds|] == rounds;
  }

  /** The last `count` visits, and not the one before them, moved nothing. */
  ghost predicate Trailing(visits: seq<Event>, count: nat) {
    && count <= |visits| && (forall i :: |visits| - count <= i < |visits| ==> !Moved(visits[i]))
    && (count < |visits| ==> Moved(visits[|visits| - count - 1]))
  }

  /** The quick stage has not ended yet. */
  ghost predicate Going(visits: seq<Event>, count: nat, n: nat)
    requires n > 0
  {
    Trailing(visits, count) && count < n && forall m :: n <= m <= |visits| ==> !Quiet(visits, m, n)
  }

  lemma GoingStart(n: nat)
    requires n > 0
    ensures Going([], 0, n)
  {}

  lemma GoingMore(visits: seq<Event>, e: Event, count: nat, n: nat)
    requires n > 0 && Going(visits, count, n)
    ensures
      var now, c := visits + [e], if Moved(e) then 0 else count + 1;
      && (c < n ==> Going(now, c, n))
      && (c == n ==> n <= |now| && Quiet(now, |now|, n) && forall m :: n <= m < |now| ==> !Quiet(now, m, n))
  {
    hide Moved;
    var now, c := visits + [e], if Moved(e) then 0 else count + 1;
    assert forall i :: 0 <= i < |visits| ==> now[i] == visits[i];
    forall m | n <= m <= |visits| ensures !Quiet(now, m, n) {
      assert !Quiet(visits, m, n);
      var i :| m - n <= i < m && Moved(visits[i]);
      assert Moved(now[i]);
    }
    assert Trailing(now, c);
    if c < n <= |now| { assert Moved(now[|now| - c - 1]); }
  }

  lemma PathStart(s: State)
    ensures Path(s, [], s) && MoveCount([]) == 0 && WrongCount([]) == 0 && Touched([]) == {}
  {}

  lemma OrderStart(n: nat)
    requires n > 0
    ensures QuickOrder([], n)
  {}

  lemma OrderMore(events: seq<Event>, e: Event, n: nat)
    requires n > 0 && QuickOrder(events, n) && e.step == |events| + 1 && e.point == Turn(|events|, n)
    ensures QuickOrder(events + [e], n)
  {}

  lemma StepRank(e: Event)
    requires Stepped(e)
    ensures Good(e.before) && Shaped(e.before.fit) && Good(e.after) && Shaped(e.after.fit)
    ensures Moved(e) && !Wrong(e) ==> Rank(e.after.fit) < Rank(e.before.fit)
  {
    hide Rank, Ssq, ClusterOk, Offer, Saving;
    EventTotal(e);
    if Moved(e) && !Wrong(e) {
      TransferredShape(e.before.fit, e.point, e.after.fit.cluster[e.point]);
      RankFalls(e.before.fit, e.after.fit);
    }
  }

  /** A visit touches a new cluster, or lowers the sum of squares, or changes neither clusters nor points. */
  lemma QuickProgress(s: State, events: seq<Event>, t: State, e: Event)
    requires Path(s, events, t) && Good(s) && |s.fit.point| > 0 && QuickOrder(events, |s.fit.point|)
    requires Stepped(e) && e.before == t
    requires e.step == |events| + 1 && e.point == Turn(|events|, |s.fit.point|)
    ensures Path(s, events + [e], e.after) && QuickOrder(events + [e], |s.fit.point|)
    ensures MoveCount(events + [e]) == MoveCount(events) + if Moved(e) then 1 else 0
    ensures Good(t) && Shaped(t.fit) && Good(e.after) && Shaped(e.after.fit)
    ensures |Touched(events)| <= |Touched(events + [e])| <= |s.fit.center|
    ensures if !Moved(e) then Touched(events + [e]) == Touched(events)
      else |Touched(events)| < |Touched(events + [e])| || Rank(e.after.fit) < Rank(t.fit)
  {
    hide Path, QuickOrder, Tracked, Pristine, Wrong, FitOk, Visited, Moved, Rank, WrongCount, MoveCount;
    PathMore(s, events, t, e);
    OrderMore(events, e, |s.fit.point|);
    QuickWrongs(s, events, t);
    assert (events + [e])[..|events|] == events;
    QuickAdds(s, events + [e], e.after);
    StepRank(e);
  }

  /** What kmeans_02 demands: more points than clusters, at least one dimension, and no centre that is closest to no
      point. */
  ghost predicate CanStart(point: seq<Vec>, dim: nat, start: seq<Vec>, initial: seq<nat>)
    requires Points(point, dim) && Points(start, dim)
  {
    && 1 <= |start| < |point| && dim >= 1 && |initial| == |point|
    && (forall j :: 0 <= j < |point| ==> Closest(point[j], start, dim, initial[j]))
    && (forall k :: 0 <= k < |start| ==> Count(initial, k, |point|) > 0)
  }

  function Total(xs: seq<real>, n: nat): real
    requires n <= |xs|
  {
    if n == 0 then 0.0 else Total(xs, n - 1) + xs[n - 1]
  }

  lemma {:induction false} EnergyTotal(f: Fit, energy: seq<real>, n: nat)
    requires Shaped(f) && n <= |energy| == |f.center|
    requires forall k :: 0 <= k < |f.center| ==>
      energy[k] == Within(f.point, f.dim, f.cluster, k, f.center[k], |f.point|, f.dim)
    ensures Total(energy, n) == SsqUpTo(f, n)
    decreases n
  {
    if n > 0 { EnergyTotal(f, energy, n - 1); }
  }

  lemma NoSums(point: seq<Vec>, dim: nat, cluster: seq<nat>, k: nat)
    requires Points(point, dim) && |cluster| == |point|
    ensures IsTotal(point, dim, cluster, k, 0, Count(cluster, k, 0), seq(dim, _ => 0.0))
  {}

  lemma MoreSums(point: seq<Vec>, dim: nat, cluster: seq<nat>, k: nat, j: nat, sum: Vec)
    requires Points(point, dim) && j < |cluster| == |point|
    requires IsTotal(point, dim, cluster, k, j, Count(cluster, k, j), sum)
    ensures |sum| == dim
    ensures IsTotal(point, dim, cluster, k, j + 1, Count(cluster, k, j + 1),
      if cluster[j] == k then Plus(sum, point[j]) else sum)
  {
    MoreTotal(point, dim, cluster, k, j, Count(cluster, k, j), sum);
  }

  lemma PopulationPositive(f: Fit, k: nat)
    requires FitOk(f) && k < |f.center|
    ensures f.population[k] == Count(f.cluster, k, |f.cluster|) > 0
  {
    assert ClusterOk(f, k);
  }

  lemma MeanIsCenter(f: Fit, k: nat, sum: Vec, mean: Vec)
    requires FitOk(f) && k < |f.center|
    requires IsTotal(f.point, f.dim, f.cluster, k, |f.point|, Count(f.cluster, k, |f.point|), sum)
    requires f.population[k] > 0 && |mean| == f.dim
    requires forall i :: 0 <= i < f.dim ==> mean[i] == sum[i] / f.population[k] as real
    ensures mean == f.center[k]
  {
    hide Sum, Count;
    assert ClusterOk(f, k);
    var n := f.population[k] as real;
    forall i | 0 <= i < f.dim ensures mean[i] == f.center[k][i] {
      DivMul(sum[i], n);
      Cancel(mean[i], f.center[k][i], n);
    }
  }

  // ----- A transfer that raises the sum of squares

  const LINE: seq<Vec> := [[4.0], [-10.0], [6.0], [5.0]]

  /** A clustering of these points into two clusters is determined by who is where. */
  predicate OnLine(f: Fit, cluster: seq<nat>) {
    FitOk(f) && f.point == LINE && f.dim == 1 && |f.center| == 2 && f.cluster == cluster
  }

  lemma LineStart(cluster: seq<nat>)
    requires |cluster| == 4 && Points(LINE, 1)
    requires forall j :: 0 <= j < 4 ==> Closest(LINE[j], [[3.0], [6.0]], 1, cluster[j])
    ensures cluster == [0, 0, 1, 1]
  {
    forall j | 0 <= j < 4 ensures cluster[j] == [0, 0, 1, 1][j] {
      var start: seq<Vec> := [[3.0], [6.0]];
      assert Closest(LINE[j], start, 1, cluster[j]);
      assert Dist(LINE[j], start[cluster[j]], 1) <= Dist(LINE[j], start[1 - cluster[j]], 1);
      LineDist(j, start[0]);
      LineDist(j, start[1]);
    }
  }

  lemma LineDist(j: nat, c: Vec)
    requires j < 4 && |c| == 1 && |LINE[j]| == 1
    ensures Dist(LINE[j], c, 1) == Square(LINE[j][0] - c[0])
  {
    DistStep(LINE[j], c, 1);
    DistStep(LINE[j], c, 0);
  }

  lemma LineSums(cluster: seq<nat>, k: nat)
    requires |cluster| == 4 && Points(LINE, 1)
    ensures Count(cluster, k, 4) ==
      (if cluster[0] == k then 1 else 0) + (if cluster[1] == k then 1 else 0) + (if cluster[2] == k then 1 else 0)
        + (if cluster[3] == k then 1 else 0)
    ensures Sum(LINE, 1, cluster, k, 0, 4) ==
      (if cluster[0] == k then 4.0 else 0.0) + (if cluster[1] == k then -10.0 else 0.0)
        + (if cluster[2] == k then 6.0 else 0.0)
        + (if cluster[3] == k then 5.0 else 0.0)
  {
    assert Count(cluster, k, 0) == 0 && Sum(LINE, 1, cluster, k, 0, 0) == 0.0;
    assert Count(cluster, k, 1) == Count(cluster, k, 0) + if cluster[0] == k then 1 else 0;
    assert Count(cluster, k, 2) == Count(cluster, k, 1) + if cluster[1] == k then 1 else 0;
    assert Count(cluster, k, 3) == Count(cluster, k, 2) + if cluster[2] == k then 1 else 0;
    assert Sum(LINE, 1, cluster, k, 0, 1) == if cluster[0] == k then 4.0 else 0.0;
    assert Sum(LINE, 1, cluster, k, 0, 2) == Sum(LINE, 1, cluster, k, 0, 1) + if cluster[1] == k then -10.0 else 0.0;
    assert Sum(LINE, 1, cluster, k, 0, 3) == Sum(LINE, 1, cluster, k, 0, 2) + if cluster[2] == k then 6.0 else 0.0;
  }

  lemma LineFirst(f: Fit)
    requires OnLine(f, [0, 0, 1, 1])
    ensures f.population == [2, 2] && Offer(f, 0, 1) == 1.5 && Saving(f, 0) == 98.0
  {
    LineSums(f.cluster, 0);
    LineSums(f.cluster, 1);
    assert ClusterOk(f, 0) && ClusterOk(f, 1);
    DistStep(f.point[0], f.center[0], 1);
    DistStep(f.point[0], f.center[1], 1);
  }

  lemma LineSecond(f: Fit)
    requires OnLine(f, [1, 0, 1, 1])
    ensures f.population == [1, 3] && Offer(f, 2, 0) == 128.0 && Saving(f, 2) == 1.5
  {
    LineSums(f.cluster, 0);
    LineSums(f.cluster, 1);
    assert ClusterOk(f, 0) && ClusterOk(f, 1);
    DistStep(f.point[2], f.center[0], 1);
    DistStep(f.point[2], f.center[1], 1);
  }

  /** The points 4, -10, 6, 5 from the centres 3 and 6. */
  method LineBegin(garbage: real) returns (c: Clusterer)
    ensures fresh(c) && c.Valid() && OnLine(c.Abs(), [0, 0, 1, 1])
    ensures c.ncp == [-1, -1] && c.d == [garbage, garbage, garbage, garbage]
  {
    hide Ssq, Dist, ClusterOk;
    c := new Clusterer(LINE, 1);
    var ok := c.Start([[3.0], [6.0]], [garbage, garbage, garbage, garbage]);
    LineStart(c.cluster);
    LineSums(c.cluster, 0);
    LineSums(c.cluster, 1);
  }

  /** The first two steps of the first pass: the first point moves, the second is alone in its cluster. */
  method LineMove(c: Clusterer)
    requires c.Valid() && OnLine(c.Abs(), [0, 0, 1, 1]) && c.ncp == [-1, -1]
    modifies c
    ensures c.Valid() && OnLine(c.Abs(), [1, 0, 1, 1])
    ensures c.ncp == [0, 0] && c.d[2] == old(c.d[2])
  {
    hide Ssq, Dist, ClusterOk, Offer, Saving, Gained, Transferred;
    ghost var f := c.Abs();
    LineFirst(f);
    var m0, r0 := c.OptimalStep(0);
    TransferredShape(f, 0, c.cluster[0]);
    LineSecond(c.Abs());
    var m1, r1 := c.OptimalStep(1);
  }

  /** In the same pass, the third point is judged by what malloc left in the array, moves if that is above 128, and
      adds 126.5 to the sum of squares. */
  method StaleTransfer(garbage: real) returns (moved: bool, ghost before: Fit, ghost after: Fit)
    ensures OnLine(before, [1, 0, 1, 1]) && Shaped(after)
    ensures moved <==> garbage > 128.0
    ensures moved ==> Ssq(after) == Ssq(before) + 126.5
  {
    hide Ssq, Dist, ClusterOk, Offer, Saving, Transferred;
    var c := LineBegin(garbage);
    LineMove(c);
    before := c.Abs();
    LineSecond(before);
    var recomputed;
    moved, recomputed := c.OptimalStep(2);
    after := c.Abs();
  }

  // ----- Why the quick stage ends

  /** How many steps after the next one point `i` is visited, when the next one visits point `at` of `n`. */
  function Ahead(i: nat, at: nat, n: nat): int {
    if i >= at then i - at else i - at + n
  }

  /** Every point of a cluster that changed in this stage has its real distance on record, or is visited in time to
      have it recomputed. */
  ghost predicate Tracked(f: Fit, d: seq<real>, ncp: seq<int>, changed: set<nat>, step: nat, at: nat) {
    && Shaped(f) && |d| == |f.point| && |ncp| == |f.center|
    && forall i :: 0 <= i < |f.point| && f.cluster[i] in changed && f.population[f.cluster[i]] > 1 ==>
      d[i] == Saving(f, i) || step + 1 + Ahead(i, at, |f.point|) <= ncp[f.cluster[i]]
  }

  lemma NoneTracked(f: Fit, d: seq<real>, ncp: seq<int>)
    requires Shaped(f) && |d| == |f.point| && |ncp| == |f.center|
    ensures Tracked(f, d, ncp, {}, 0, 0)
  {}

  lemma Wraps(f: Fit, d: seq<real>, ncp: seq<int>, changed: set<nat>, step: nat)
    requires Tracked(f, d, ncp, changed, step, |f.point|)
    ensures Tracked(f, d, ncp, changed, step, 0)
  {
    hide Saving;
  }

  lemma StayTracked(f: Fit, d: seq<real>, d': seq<real>, ncp: seq<int>, changed: set<nat>, step: nat, j: nat)
    requires step > 0 && Tracked(f, d, ncp, changed, step - 1, j) && j < |f.point|
    requires d' == if f.population[f.cluster[j]] > 1 && step <= ncp[f.cluster[j]] then d[j := Saving(f, j)] else d
    ensures Tracked(f, d', ncp, changed, step, j + 1)
  {
    hide Saving;
  }

  lemma SavingKept(f: Fit, j: nat, l2: nat, i: nat)
    requires Movable(f, j, l2) && i < |f.point| && f.cluster[i] != l2 && f.cluster[i] != f.cluster[j]
    ensures var f' := Transferred(f, j, l2);
      && Shaped(f') && f'.cluster[i] == f.cluster[i] && f'.population[f.cluster[i]] == f.population[f.cluster[i]]
      && Saving(f', i) == Saving(f, i)
  {
    hide Dist;
    TransferredShape(f, j, l2);
  }

  /** A point that leaves a cluster changed in this stage does so on its real distance. */
  lemma MoveTracked(f: Fit, l2: nat,
                    d: seq<real>, d': seq<real>, ncp: seq<int>, ncp': seq<int>, changed: set<nat>, step: nat, j: nat)
    requires step > 0 && Shaped(f) && Movable(f, j, l2) && |f.cluster| == |f.point|
    requires f.cluster[j] < |f.center| && l2 < |f.center| && Tracked(f, d, ncp, changed, step - 1, j)
    requires d' == if step <= ncp[f.cluster[j]] then d[j := Saving(f, j)] else d
    requires ncp' == ncp[f.cluster[j] := step + |f.point|][l2 := step + |f.point|]
    ensures f.cluster[j] in changed ==> d'[j] == Saving(f, j)
    ensures Tracked(Transferred(f, j, l2), d', ncp', changed + {f.cluster[j], l2}, step, j + 1)
  {
    hide Saving, Transferred, Shaped, FitOk;
    TransferredShape(f, j, l2);
    var f', n := Transferred(f, j, l2), |f.point|;
    forall i | 0 <= i < n && f'.cluster[i] in changed + {f.cluster[j], l2} && f'.population[f'.cluster[i]] > 1
      ensures d'[i] == Saving(f', i) || step + 1 + Ahead(i, j + 1, n) <= ncp'[f'.cluster[i]]
    {
      if f'.cluster[i] != l2 && f'.cluster[i] != f.cluster[j] {
        SavingKept(f, j, l2, i);
      }
    }
  }

  lemma Grows(s: set<nat>, a: nat, b: nat, n: nat)
    requires a < n && b < n && forall k :: k in s ==> k < n
    ensures |s| <= |s + {a, b}| <= n
    ensures a !in s || b !in s ==> |s| < |s + {a, b}|
    ensures a in s && b in s ==> s + {a, b} == s
  {
    Sizes(s, s + {a, b});
    FirstNumbers(n);
    Sizes(s + {a, b}, Numbers(n));
  }

  lemma {:induction false} Sizes<T>(s: set<T>, t: set<T>)
    requires s <= t
    ensures |s| <= |t| && (s != t ==> |s| < |t|)
    decreases s
  {
    if s != {} {
      var x :| x in s;
      Sizes(s - {x}, t - {x});
    }
  }

  ghost function Numbers(n: nat): set<nat> {
    if n == 0 then {} else Numbers(n - 1) + {n - 1}
  }

  lemma {:induction false} FirstNumbers(n: nat)
    ensures |Numbers(n)| == n && forall k: nat :: k in Numbers(n) <==> k < n
  {
    if n > 0 { FirstNumbers(n - 1); }
  }

  // ----- The sum of squares takes finitely many values

  /** All ways to put `n` points into `k` clusters. */
  ghost function Clusterings(n: nat, k: nat): set<seq<nat>> {
    if n == 0 then {[]} else set c, l: nat | c in Clusterings(n - 1, k) && l < k :: c + [l]
  }

  lemma {:induction false} InClusterings(c: seq<nat>, k: nat)
    requires forall j :: 0 <= j < |c| ==> c[j] < k
    ensures c in Clusterings(|c|, k)
    decreases |c|
  {
    if c != [] {
      var n := |c| - 1;
      InClusterings(c[..n], k);
      assert c == c[..n] + [c[n]];
    }
  }

  /** The mean of the members of cluster `k`. */
  ghost function Mean(point: seq<Vec>, dim: nat, cluster: seq<nat>, k: nat): Vec
    requires Points(point, dim) && |cluster| == |point|
  {
    var n := Count(cluster, k, |cluster|);
    seq(dim, i requires 0 <= i < dim => if n == 0 then 0.0 else Sum(point, dim, cluster, k, i, |cluster|) / n as real)
  }

  /** The sum of squares as a function of who is in which cluster. */
  ghost function Spread(point: seq<Vec>, dim: nat, cluster: seq<nat>, n: nat): real
    requires Points(point, dim) && |cluster| == |point|
  {
    if n == 0 then 0.0
    else
      var last := Within(point, dim, cluster, n - 1, Mean(point, dim, cluster, n - 1), |cluster|, dim);
      Spread(point, dim, cluster, n - 1) + last
  }

  lemma CenterIsMean(f: Fit, k: nat)
    requires FitOk(f) && k < |f.center|
    ensures f.center[k] == Mean(f.point, f.dim, f.cluster, k)
  {
    hide Sum, Count;
    assert ClusterOk(f, k);
    var n, m := f.population[k] as real, Mean(f.point, f.dim, f.cluster, k);
    forall i | 0 <= i < f.dim ensures f.center[k][i] == m[i] {
      DivMul(Sum(f.point, f.dim, f.cluster, k, i, |f.cluster|), n);
      Cancel(f.center[k][i], m[i], n);
    }
  }

  lemma {:induction false} SsqIsSpread(f: Fit, n: nat)
    requires FitOk(f) && n <= |f.center|
    ensures SsqUpTo(f, n) == Spread(f.point, f.dim, f.cluster, n)
    decreases n
  {
    hide ClusterOk, Within, Mean;
    if n > 0 {
      SsqIsSpread(f, n - 1);
      CenterIsMean(f, n - 1);
    }
  }

  /** The clusterings with a smaller sum of squares. */
  ghost function Better(f: Fit): set<seq<nat>>
    requires Shaped(f)
  {
    set c | c in Clusterings(|f.point|, |f.center|) && |c| == |f.point| &&
      Spread(f.point, f.dim, c, |f.center|) < Ssq(f)
  }

  ghost function Rank(f: Fit): nat
    requires Shaped(f)
  {
    |Better(f)|
  }

  lemma RankFalls(f: Fit, f': Fit)
    requires FitOk(f) && FitOk(f') && f'.point == f.point && f'.dim == f.dim && |f'.center| == |f.center|
    requires Ssq(f') < Ssq(f)
    ensures Rank(f') < Rank(f)
  {
    hide ClusterOk, Spread, Clusterings;
    SsqIsSpread(f', |f'.center|);
    InClusterings(f'.cluster, |f.center|);
    assert f'.cluster in Better(f) && f'.cluster !in Better(f');
    Sizes(Better(f'), Better(f));
  }

  predicate Closest(p: Vec, start: seq<Vec>, dim: nat, first: nat)
    requires |p| == dim && Points(start, dim)
  {
    first < |start| && forall k :: 0 <= k < |start| ==> Dist(p, start[first], dim) <= Dist(p, start[k], dim)
  }

  function Plus(c: Vec, p: Vec): Vec
    requires |c| == |p|
  {
    seq(|c|, i requires 0 <= i < |c| => c[i] + p[i])
  }

  /** `n` and `sum` are the population and the coordinate sums of cluster `k` among the first `j` points. */
  predicate IsTotal(point: seq<Vec>, dim: nat, cluster: seq<nat>, k: nat, j: nat, n: nat, sum: Vec)
    requires Points(point, dim) && j <= |cluster| == |point|
  {
    && |sum| == dim && n == Count(cluster, k, j)
    && forall i :: 0 <= i < dim ==> sum[i] == Sum(point, dim, cluster, k, i, j)
  }

  lemma NoTotal(point: seq<Vec>, dim: nat, cluster: seq<nat>, k: nat)
    requires Points(point, dim) && |cluster| == |point|
    ensures IsTotal(point, dim, cluster, k, 0, 0, seq(dim, _ => 0.0))
  {}

  lemma MoreTotal(point: seq<Vec>, dim: nat, cluster: seq<nat>, k: nat, j: nat, n: nat, sum: Vec)
    requires Points(point, dim) && j < |cluster| == |point| && IsTotal(point, dim, cluster, k, j, n, sum)
    ensures |sum| == dim
    ensures if cluster[j] == k then IsTotal(point, dim, cluster, k, j + 1, n + 1, Plus(sum, point[j]))
      else IsTotal(point, dim, cluster, k, j + 1, n, sum)
  {}

  lemma TotalCount(point: seq<Vec>, dim: nat, cluster: seq<nat>, k: nat, n: nat, sum: Vec)
    requires Points(point, dim) && |cluster| == |point| && IsTotal(point, dim, cluster, k, |point|, n, sum)
    ensures n == Count(cluster, k, |point|) && |sum| == dim
  {}

  predicate Started(point: seq<Vec>, dim: nat, cluster: seq<nat>, k: nat, n: nat, c: Vec, a1: real, a2: real)
    requires Points(point, dim) && |cluster| == |point|
  {
    && n == Count(cluster, k, |cluster|) > 0 && |c| == dim
    && (forall i :: 0 <= i < dim ==> c[i] * n as real == Sum(point, dim, cluster, k, i, |cluster|))
    && a2 == n as real / (n as real + 1.0) && (n > 1 ==> a1 == n as real / (n as real - 1.0))
  }

  lemma MeanStarted(point: seq<Vec>, dim: nat, cluster: seq<nat>, k: nat, n: nat, sum: Vec, mean: Vec)
    requires Points(point, dim) && |cluster| == |point| && n > 0 && IsTotal(point, dim, cluster, k, |point|, n, sum)
    requires |mean| == dim && forall i :: 0 <= i < dim ==> mean[i] == sum[i] / n as real
    ensures Started(point, dim, cluster, k, n, mean, if 1 < n then n as real / (n as real - 1.0) else HUGE_VAL,
      n as real / (n as real + 1.0))
  {
    hide Sum, Count;
    forall i | 0 <= i < dim ensures mean[i] * n as real == Sum(point, dim, cluster, k, i, |cluster|) {
      DivMul(sum[i], n as real);
    }
  }

  lemma AllStarted(f: Fit)
    requires Shaped(f)
    requires forall k :: 0 <= k < |f.center| ==>
      Started(f.point, f.dim, f.cluster, k, f.population[k], f.center[k], f.an1[k], f.an2[k])
    ensures FitOk(f)
    ensures forall k :: 0 <= k < |f.center| ==> Count(f.cluster, k, |f.point|) > 0
  {
    hide Sum, Count;
    forall k | 0 <= k < |f.center| ensures ClusterOk(f, k) && Count(f.cluster, k, |f.point|) > 0 {
      assert Started(f.point, f.dim, f.cluster, k, f.population[k], f.center[k], f.an1[k], f.an2[k]);
    }
  }

  lemma SameTotal(f: Fit, f': Fit)
    requires Shaped(f) && Shaped(f')
    ensures f' == f.(cluster2 := f'.cluster2) ==> Ssq(f') == Ssq(f)
  {
    if f' == f.(cluster2 := f'.cluster2) { SameSsq(f, f', |f.center|); }
  }

  /** What dd < d / an2 says when d was just recomputed. */
  lemma QuickDecision(f: Fit, j: nat, l2: nat, dd: real, dj: real)
    requires FitOk(f) && j < |f.point| && f.population[f.cluster[j]] > 1
    requires l2 < |f.center| && l2 != f.cluster[j] && dd == Dist(f.point[j], f.center[l2], f.dim)
    ensures f.an2[l2] > 0.0 && Movable(f, j, l2) && Shaped(Transferred(f, j, l2))
    ensures dd < dj / f.an2[l2] <==> Offer(f, j, l2) < dj
    ensures dj == f.an1[f.cluster[j]] * Dist(f.point[j], f.center[f.cluster[j]], f.dim) ==>
      if dd < dj / f.an2[l2] then Ssq(Transferred(f, j, l2)) < Ssq(f) else NoGain(f, j, l2)
  {
    hide Dist, ClusterOk, Ssq, Transferred;
    RatioPositive(f, l2);
    Scaled(dd, dj, f.an2[l2]);
    TransferLowers(f, j, l2);
  }

  /** What comparing the recomputed distance with the best offer says. */
  lemma Decision(f: Fit, j: nat, l2: nat, r2: real, live: seq<int>)
    requires FitOk(f) && j < |f.point| && f.population[f.cluster[j]] > 1 && |live| == |f.center|
    requires l2 < |f.center| && l2 != f.cluster[j] && r2 == Offer(f, j, l2)
    requires forall l :: 0 <= l < |f.center| && l != f.cluster[j] && (j < live[f.cluster[j]] || j < live[l]) ==>
      r2 <= Offer(f, j, l)
    ensures Movable(f, j, l2) && Shaped(Transferred(f, j, l2))
    ensures Saving(f, j) <= r2 && j < live[f.cluster[j]] ==>
      forall l :: 0 <= l < |f.center| && l != f.cluster[j] ==> NoGain(f, j, l)
  {
    hide Dist, ClusterOk, Ssq, Transferred, NoGain;
    TransferLowers(f, j, l2);
    NoGains(f, j);
    assert forall l :: 0 <= l < |f.center| && Saving(f, j) <= r2 <= Offer(f, j, l) ==> Dear(f, j, l);
  }

  lemma FitShape(f: Fit)
    requires FitOk(f)
    ensures Shaped(f)
  {}

  lemma OwnCluster(f: Fit, j: nat)
    requires FitOk(f) && j < |f.point|
    ensures |f.cluster| == |f.cluster2| == |f.point| && f.cluster[j] < |f.center|
  {}

  /** Moving point `j` to cluster `l` would not lower the sum of squares. */
  predicate NoGain(f: Fit, j: nat, l: nat)
    requires FitOk(f)
  {
    Movable(f, j, l) && Shaped(Transferred(f, j, l)) && Ssq(Transferred(f, j, l)) >= Ssq(f)
  }

  /** Keeping point `j` costs no more than cluster `l` would ask for it. */
  predicate Dear(f: Fit, j: nat, l: nat)
    requires Shaped(f) && j < |f.point| && l < |f.center|
  {
    Saving(f, j) <= Offer(f, j, l)
  }

  lemma NoGains(f: Fit, j: nat)
    requires FitOk(f) && j < |f.point| && f.population[f.cluster[j]] > 1
    ensures forall l :: 0 <= l < |f.center| && l != f.cluster[j] && Dear(f, j, l) ==> NoGain(f, j, l)
  {
    hide Dist, ClusterOk, Ssq, Transferred;
    forall l | 0 <= l < |f.center| && l != f.cluster[j] && Dear(f, j, l) ensures NoGain(f, j, l) {
      TransferLowers(f, j, l);
    }
  }

  /** cluster2 does not matter to the invariant. */
  lemma OnlySecond(f: Fit, f': Fit)
    requires FitOk(f) && f' == f.(cluster2 := f'.cluster2) && Shaped(f')
    ensures FitOk(f') && Ssq(f') == Ssq(f)
  {
    forall k | 0 <= k < |f'.center| ensures ClusterOk(f', k) { assert ClusterOk(f, k); }
    SameSsq(f, f', |f.center|);
  }

  lemma {:induction false} SameSsq(f: Fit, f': Fit, n: nat)
    requires Shaped(f) && Shaped(f') && f' == f.(cluster2 := f'.cluster2) && n <= |f.center|
    ensures SsqUpTo(f', n) == SsqUpTo(f, n)
    decreases n
  {
    if n > 0 { SameSsq(f, f', n - 1); }
  }
}
