/** The Epanechnikov kernel and the kernel density estimator that both chart
    scripts define as closures: `kernelEpanechnikov(k)` and
    `kernelDensityEstimator(kernel, grid)`. A closure applied to its argument
    is modelled as a function taking the captured value as an extra
    parameter. */
module Density {
  import opened Wrappers
  import opened Stats

  /** kernelEpanechnikov(k)(d): with u = d / k, 0.75 * (1 - u^2) / k when
      |u| <= 1 and 0 otherwise. Both callers pass a positive constant k. */
  function Kernel(k: real, d: real): real
    requires k > 0.0
  {
    var u := d / k;
    if Abs(u) <= 1.0 then 0.75 * (1.0 - u * u) / k else 0.0
  }

  /** |d / k| <= 1 exactly when |d| <= k. */
  lemma ScaledWithinUnit(k: real, d: real)
    requires k > 0.0
    ensures Abs(d / k) <= 1.0 <==> Abs(d) <= k
  {
    var u := d / k;
    assert d == u * k;
    if Abs(u) <= 1.0 {
      assert Abs(d) == Abs(u) * k;
      MulBound(Abs(u), k);
    } else {
      assert Abs(d) == Abs(u) * k;
      assert (Abs(u) - 1.0) * k > 0.0;
    }
  }

  lemma MulBound(x: real, k: real)
    requires 0.0 <= x <= 1.0 && k > 0.0
    ensures x * k <= k
  {
    assert (1.0 - x) * k >= 0.0;
  }

  lemma KernelNonNegative(k: real, d: real)
    requires k > 0.0
    ensures Kernel(k, d) >= 0.0
  {
    var u := d / k;
    if Abs(u) <= 1.0 {
      UnitSquare(u);
      assert 0.75 * (1.0 - u * u) >= 0.0;
    }
  }

  lemma UnitSquare(u: real)
    requires Abs(u) <= 1.0
    ensures 0.0 <= u * u <= 1.0
  {
    var a := Abs(u);
    assert u * u == a * a;
    MulNonNegative(a, a);
    if a != 0.0 {
      MulBound(a, a);
    }
  }

  /** The kernel has compact support: it vanishes farther than k from 0. */
  lemma KernelCompactSupport(k: real, d: real)
    requires k > 0.0 && Abs(d) > k
    ensures Kernel(k, d) == 0.0
  {
    ScaledWithinUnit(k, d);
  }

  lemma KernelSymmetric(k: real, d: real)
    requires k > 0.0
    ensures Kernel(k, -d) == Kernel(k, d)
  {
    assert (-d) / k == -(d / k);
    assert (-(d / k)) * (-(d / k)) == (d / k) * (d / k);
  }

  /** The kernel's largest value is 0.75 / k, taken at offset 0. */
  lemma KernelPeak(k: real, d: real)
    requires k > 0.0
    ensures Kernel(k, 0.0) == 0.75 / k
    ensures Kernel(k, d) <= Kernel(k, 0.0)
  {
    assert 0.0 / k == 0.0;
    var u := d / k;
    if Abs(u) <= 1.0 {
      var c := 0.75 * (1.0 - u * u);
      assert u * u >= 0.0;
      assert c <= 0.75;
      DivMonotone(c, 0.75, k);
    }
  }

  lemma DivMonotone(a: real, b: real, k: real)
    requires a <= b && k > 0.0
    ensures a / k <= b / k
  {
    assert (b - a) / k >= 0.0;
    assert b / k - a / k == (b - a) / k;
  }

  /** The kernel's values at x - v for every sample value v. */
  function Contributions(k: real, x: real, sample: seq<real>): seq<real>
    requires k > 0.0
  {
    seq(|sample|, j requires 0 <= j < |sample| => Kernel(k, x - sample[j]))
  }

  /** kernelDensityEstimator(kernelEpanechnikov(k), grid)(sample): one pair
      [x, d3.mean of the kernel at x - v] per grid point x. */
  function Kde(k: real, grid: seq<real>, sample: seq<real>): seq<(real, Option<real>)>
    requires k > 0.0
  {
    seq(|grid|, i requires 0 <= i < |grid| => (grid[i], Mean(Contributions(k, grid[i], sample))))
  }

  /** The curve has one point per grid point, in grid order, and the density
      at grid point i is the mean kernel value between grid[i] and the sample. */
  lemma KdePointwise(k: real, grid: seq<real>, sample: seq<real>, i: int)
    requires k > 0.0 && 0 <= i < |grid|
    ensures |Kde(k, grid, sample)| == |grid|
    ensures Kde(k, grid, sample)[i].0 == grid[i]
    ensures Kde(k, grid, sample)[i].1 == Mean(Contributions(k, grid[i], sample))
  {
  }

  /** On a non-empty sample every density is defined and lies in [0, 0.75/k]. */
  lemma KdeBounded(k: real, grid: seq<real>, sample: seq<real>)
    requires k > 0.0 && |sample| > 0
    ensures forall i :: 0 <= i < |grid| ==>
      Kde(k, grid, sample)[i].1.Some? && 0.0 <= Kde(k, grid, sample)[i].1.value <= 0.75 / k
  {
    forall i | 0 <= i < |grid|
      ensures Kde(k, grid, sample)[i].1.Some? && 0.0 <= Kde(k, grid, sample)[i].1.value <= 0.75 / k
    {
      var c := Contributions(k, grid[i], sample);
      forall j | 0 <= j < |c| ensures 0.0 <= c[j] <= 0.75 / k {
        KernelNonNegative(k, grid[i] - sample[j]);
        KernelPeak(k, grid[i] - sample[j]);
      }
      MeanWithin(c, 0.0, 0.75 / k);
    }
  }

  /** d3.mean of no values is undefined, so an empty sample leaves every
      density undefined. */
  lemma KdeEmptySample(k: real, grid: seq<real>)
    requires k > 0.0
    ensures forall i :: 0 <= i < |grid| ==> Kde(k, grid, [])[i] == (grid[i], None)
  {
  }

  /** A grid point farther than k from every sample value has density 0. */
  lemma KdeOutsideSupport(k: real, grid: seq<real>, sample: seq<real>, i: int)
    requires k > 0.0 && |sample| > 0 && 0 <= i < |grid|
    requires forall j :: 0 <= j < |sample| ==> Abs(grid[i] - sample[j]) > k
    ensures Kde(k, grid, sample)[i].1 == Some(0.0)
  {
    var c := Contributions(k, grid[i], sample);
    forall j | 0 <= j < |c| ensures 0.0 <= c[j] <= 0.0 {
      KernelCompactSupport(k, grid[i] - sample[j]);
    }
    MeanWithin(c, 0.0, 0.0);
  }

  /** With a single sample value the curve is the kernel centred on it. */
  lemma KdeSinglePoint(k: real, grid: seq<real>, v: real, i: int)
    requires k > 0.0 && 0 <= i < |grid|
    ensures Kde(k, grid, [v])[i].1 == Some(Kernel(k, grid[i] - v))
  {
    var c := Contributions(k, grid[i], [v]);
    assert c == [Kernel(k, grid[i] - v)];
    assert Sum(c) == Kernel(k, grid[i] - v) + Sum([]);
  }
}
