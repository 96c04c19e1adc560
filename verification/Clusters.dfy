/** Cluster metrics: averages in 64-bit arithmetic, and a dispersion taken from Newton's integer square root. */
module Clusters {
  import opened Words

  /** `root` is the integer square root of `n`. */
  predicate IsSquareRoot(root: nat, n: nat) {
    root * root <= n < (root + 1) * (root + 1)
  }

  lemma SquareRootIsUnique(a: nat, b: nat, n: nat)
    requires IsSquareRoot(a, n) && IsSquareRoot(b, n)
    ensures a == b
  {
    if a < b {
      SquaresGrow(a + 1, b);
    } else if b < a {
      SquaresGrow(b + 1, a);
    }
  }

  lemma SquaresGrow(a: nat, b: nat)
    requires a <= b
    ensures a * a <= b * b
  {
    ProductGrows(a, b, a);
    ProductGrows(a, b, b);
  }

  /** The next guess of Newton's iteration. */
  function NewtonStep(n: nat, x: nat): nat
    requires x > 0
  {
    (x + Quotient(n, x)) / 2
  }

  /** The arithmetic mean is no smaller than the geometric one. */
  lemma MeansAreOrdered(x: nat, y: nat)
    ensures 4 * (x * y) <= (x + y) * (x + y)
  {
    assert (x + y) * (x + y) - 4 * (x * y) == (x - y) * (x - y);
  }

  /** `x` is not below the root of `n`. */
  predicate IsNotBelow(x: nat, n: nat) {
    n < (x + 1) * (x + 1)
  }

  /** A step never goes below the root. */
  lemma StepIsNotBelow(n: nat, x: nat)
    requires x > 0
    ensures IsNotBelow(NewtonStep(n, x), n)
  {
    var q, y := Quotient(n, x), NewtonStep(n, x) + 1;
    MeansAreOrdered(x, q + 1);
    assert x * (q + 1) == q * x + x;
    SquaresGrow(x + q + 1, 2 * y);
    assert (2 * y) * (2 * y) == 4 * (y * y);
  }

  /** A guess that the next step does not improve is not above the root. */
  lemma FixedGuessIsNotAbove(n: nat, x: nat)
    requires x > 0 && NewtonStep(n, x) >= x
    ensures x * x <= n
  {
    ProductGrows(x, Quotient(n, x), x);
  }

  lemma HalfIsNotBelow(n: nat)
    requires n >= 2
    ensures IsNotBelow(n / 2, n)
  {
    var h := n / 2;
    ProductGrows(1, h, h);
    assert (h + 1) * (h + 1) == h * h + 2 * h + 1;
  }

  lemma SumIsSmall(n: nat, x: nat, q: nat)
    requires 0 < x && 2 * x <= n && IsNotBelow(x, n) && q * x <= n
    ensures x + q <= n || x + q <= 4
  {
    if x >= 2 {
      ProductGrows(2, x, q);
    }
  }

  /** One step; the addition does not wrap. */
  method NextGuess(n: uint64, x: nat) returns (y: nat)
    requires 0 < x && 2 * x <= n && IsNotBelow(x, n)
    ensures y > 0 && IsNotBelow(y, n)
    ensures y >= x ==> x * x <= n
  {
    SumIsSmall(n, x, Quotient(n, x));
    StepIsNotBelow(n, x);
    y := Wrap(x + Quotient(n, x)) / 2;
    if y >= x {
      FixedGuessIsNotAbove(n, x);
    }
  }

  /** The Newton loop. */
  method IntegerSquareRoot(n: uint64) returns (x0: nat)
    requires n / 2 != 0
    ensures IsSquareRoot(x0, n)
  {
    x0 := n / 2;
    HalfIsNotBelow(n);
    var x1 := NextGuess(n, x0);
    while x1 < x0
      invariant 0 < x0 && 2 * x0 <= n && IsNotBelow(x0, n)
      invariant x1 > 0 && IsNotBelow(x1, n)
      invariant x1 >= x0 ==> x0 * x0 <= n
      decreases x0
    {
      x0 := x1;
      x1 := NextGuess(n, x0);
    }
  }

  // ---------- the metrics ----------

  datatype Node = Node(latency: uint64, bandwidth: uint64, computePower: uint64, efficiency: uint64)

  datatype ClusterMetrics = ClusterMetrics(
    avgLatency: nat, totalBandwidth: nat, totalComputePower: nat, energyEfficiency: nat, dispersion: nat)

  function Latency(n: Node): uint64 { n.latency }
  function Bandwidth(n: Node): uint64 { n.bandwidth }
  function ComputePower(n: Node): uint64 { n.computePower }
  function Efficiency(n: Node): uint64 { n.efficiency }

  function Total(cluster: seq<Node>, metric: Node -> uint64): nat {
    if cluster == [] then 0
    else Total(cluster[..|cluster| - 1], metric) + metric(cluster[|cluster| - 1])
  }

  /** The sum as the source takes it: every addition wraps on its own. */
  function WrappedTotal(cluster: seq<Node>, metric: Node -> uint64): uint64 {
    Wrap(Total(cluster, metric))
  }

  lemma WrappedTotalGrows(cluster: seq<Node>, i: nat, metric: Node -> uint64)
    requires i < |cluster|
    ensures WrappedTotal(cluster[..i + 1], metric) == Wrap(WrappedTotal(cluster[..i], metric) + metric(cluster[i]))
  {
    assert cluster[..i + 1][..i] == cluster[..i];
  }

  /** The summing loop of `evaluateCluster`. */
  method Totals(cluster: seq<Node>) returns (sums: ClusterMetrics)
    ensures sums.avgLatency == WrappedTotal(cluster, Latency)
    ensures sums.totalBandwidth == WrappedTotal(cluster, Bandwidth)
    ensures sums.totalComputePower == WrappedTotal(cluster, ComputePower)
    ensures sums.energyEfficiency == WrappedTotal(cluster, Efficiency)
  {
    sums := ClusterMetrics(0, 0, 0, 0, 0);
    for i := 0 to |cluster|
      invariant sums.avgLatency == WrappedTotal(cluster[..i], Latency)
      invariant sums.totalBandwidth == WrappedTotal(cluster[..i], Bandwidth)
      invariant sums.totalComputePower == WrappedTotal(cluster[..i], ComputePower)
      invariant sums.energyEfficiency == WrappedTotal(cluster[..i], Efficiency)
    {
      WrappedTotalGrows(cluster, i, Latency);
      WrappedTotalGrows(cluster, i, Bandwidth);
      WrappedTotalGrows(cluster, i, ComputePower);
      WrappedTotalGrows(cluster, i, Efficiency);
      sums := ClusterMetrics(
        Wrap(sums.avgLatency + cluster[i].latency),
        Wrap(sums.totalBandwidth + cluster[i].bandwidth),
        Wrap(sums.totalComputePower + cluster[i].computePower),
        Wrap(sums.energyEfficiency + cluster[i].efficiency),
        0);
    }
    assert cluster[..|cluster|] == cluster;
  }

  /** `root` of `n`, scaled back as the source does. */
  predicate IsScaledRoot(d: nat, n: nat) {
    d % 100 == 0 && IsSquareRoot(d / 100, n)
  }

  method Dispersion(size: uint64) returns (d: nat)
    ensures size >= 2 ==> IsScaledRoot(d, size)
    ensures size < 2 ==> d == FIXED_POINT_SCALE
  {
    if size / 2 == 0 {
      return FIXED_POINT_SCALE;
    }
    var root := IntegerSquareRoot(size);
    d := root * 100;
  }

  method EvaluateCluster(cluster: seq<Node>) returns (m: ClusterMetrics)
    ensures cluster == [] ==> m == ClusterMetrics(0, 0, 0, 0, 0)
    ensures cluster != [] ==>
              && m.avgLatency == Quotient(WrappedTotal(cluster, Latency), |cluster|)
              && m.energyEfficiency == Quotient(WrappedTotal(cluster, Efficiency), |cluster|)
              && m.totalBandwidth == WrappedTotal(cluster, Bandwidth)
              && m.totalComputePower == WrappedTotal(cluster, ComputePower)
    ensures cluster != [] && Wrap(|cluster| * FIXED_POINT_SCALE) >= 2 ==>
              IsScaledRoot(m.dispersion, Wrap(|cluster| * FIXED_POINT_SCALE))
    ensures cluster != [] && Wrap(|cluster| * FIXED_POINT_SCALE) < 2 ==> m.dispersion == FIXED_POINT_SCALE
  {
    if cluster == [] {
      return ClusterMetrics(0, 0, 0, 0, 0);
    }
    m := Totals(cluster);
    m := m.(avgLatency := Quotient(m.avgLatency, |cluster|),
            energyEfficiency := Quotient(m.energyEfficiency, |cluster|));
    var dispersion := Dispersion(Wrap(|cluster| * FIXED_POINT_SCALE));
    m := m.(dispersion := dispersion);
  }

  /** The dispersion is the square root of the number of nodes, to two decimal places. */
  lemma DispersionIsTheRootOfTheSize(k: nat, d: nat)
    requires 0 < k && k * FIXED_POINT_SCALE < TWO64
    requires IsScaledRoot(d, Wrap(k * FIXED_POINT_SCALE))
    ensures d * d <= k * 100000000 < (d + 100) * (d + 100)
  {
    var root := d / 100;
    WrapIsSmall(k * FIXED_POINT_SCALE);
    assert d == 100 * root;
    assert d * d == 10000 * (root * root);
    assert (d + 100) * (d + 100) == 10000 * ((root + 1) * (root + 1));
  }

  /** The sum before wrapping: nothing for no nodes, a node's own value for one, and additive over parts. */
  lemma {:induction false} TotalsAdd(a: seq<Node>, b: seq<Node>, n: Node, metric: Node -> uint64)
    ensures Total([], metric) == 0 && Total([n], metric) == metric(n)
    ensures Total(a + b, metric) == Total(a, metric) + Total(b, metric)
    decreases |b|
  {
    assert [n][..0] == [];
    if b == [] {
      assert a + b == a;
    } else {
      assert (a + b)[..|a + b| - 1] == a + b[..|b| - 1];
      TotalsAdd(a, b[..|b| - 1], n, metric);
    }
  }

  lemma {:induction false} TotalIsWithin(cluster: seq<Node>, metric: Node -> uint64, lo: nat, hi: nat)
    requires forall n | n in cluster :: lo <= metric(n) <= hi
    ensures lo * |cluster| <= Total(cluster, metric) <= hi * |cluster|
  {
    if cluster != [] {
      TotalIsWithin(cluster[..|cluster| - 1], metric, lo, hi);
      OneMore(|cluster| - 1, lo);
      OneMore(|cluster| - 1, hi);
    }
  }

  /** An average lies between the smallest and the largest value unless the sum can wrap. */
  lemma AverageIsWithin(cluster: seq<Node>, metric: Node -> uint64, lo: nat, hi: nat)
    requires cluster != [] && hi * |cluster| < TWO64
    requires forall n | n in cluster :: lo <= metric(n) <= hi
    ensures lo <= Quotient(WrappedTotal(cluster, metric), |cluster|) <= hi
  {
    TotalIsWithin(cluster, metric, lo, hi);
    WrapIsSmall(Total(cluster, metric));
    QuotientAtLeast(Total(cluster, metric), |cluster|, lo);
    QuotientAtLeast(Total(cluster, metric), |cluster|, hi + 1);
    OneMore(hi, |cluster|);
  }
}
