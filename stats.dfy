/** Descriptive statistics shared by the box plots and the density curves:
    sums and means (as d3.mean computes them), sample minimum and maximum
    (d3.min, d3.max), ascending sort, the linear-interpolation quantile that
    d3.quantile computes on an ascending sample, and the five-number box
    summary with Tukey whiskers. Numbers are exact reals. */
module Stats {
  import opened Wrappers

  function Abs(x: real): real { if x < 0.0 then -x else x }

  function Max2(a: real, b: real): real { if a < b then b else a }

  function Min2(a: real, b: real): real { if a < b then a else b }

  /** Sum of a sample, first element first. */
  function Sum(s: seq<real>): real
  {
    if |s| == 0 then 0.0 else s[0] + Sum(s[1..])
  }

  /** d3.mean: the arithmetic mean, and `undefined` for an empty sample. */
  function Mean(s: seq<real>): (r: Option<real>)
    ensures r.None? <==> |s| == 0
  {
    if |s| == 0 then None else Some(Sum(s) / |s| as real)
  }

  /** Every element of `s` lies in [lo, hi]. */
  predicate Within(s: seq<real>, lo: real, hi: real)
  {
    forall i :: 0 <= i < |s| ==> lo <= s[i] <= hi
  }

  lemma {:induction false} SumWithin(s: seq<real>, lo: real, hi: real)
    requires Within(s, lo, hi)
    ensures lo * |s| as real <= Sum(s) <= hi * |s| as real
  {
    if |s| > 0 {
      assert Within(s[1..], lo, hi) by {
        forall i | 0 <= i < |s[1..]| ensures lo <= s[1..][i] <= hi {
          assert s[1..][i] == s[i + 1];
        }
      }
      SumWithin(s[1..], lo, hi);
      var m := |s[1..]| as real;
      assert |s| as real == m + 1.0;
      assert lo * (m + 1.0) == lo * m + lo;
      assert hi * (m + 1.0) == hi * m + hi;
    }
  }

  /** The mean of a non-empty sample lies between any bounds of its elements. */
  lemma MeanWithin(s: seq<real>, lo: real, hi: real)
    requires |s| > 0 && Within(s, lo, hi)
    ensures Mean(s).Some? && lo <= Mean(s).value <= hi
  {
    SumWithin(s, lo, hi);
    var n := |s| as real;
    var m := Sum(s) / n;
    assert m * n == Sum(s);
    if m < lo {
      assert m * n < lo * n;
    }
    if m > hi {
      assert m * n > hi * n;
    }
  }

  /** d3.min of a non-empty sample: an element no larger than any other. */
  function Min(s: seq<real>): (m: real)
    requires |s| > 0
    ensures m in s
    ensures forall i :: 0 <= i < |s| ==> m <= s[i]
  {
    if |s| == 1 then s[0]
    else
      var t := Min(s[1..]);
      assert forall i :: 1 <= i < |s| ==> s[i] == s[1..][i - 1];
      if s[0] <= t then s[0] else t
  }

  /** d3.max of a non-empty sample: an element no smaller than any other. */
  function Max(s: seq<real>): (m: real)
    requires |s| > 0
    ensures m in s
    ensures forall i :: 0 <= i < |s| ==> s[i] <= m
  {
    if |s| == 1 then s[0]
    else
      var t := Max(s[1..]);
      assert forall i :: 1 <= i < |s| ==> s[i] == s[1..][i - 1];
      if s[0] >= t then s[0] else t
  }

  /** Ascending order, as d3.ascending sorts. */
  predicate Sorted(s: seq<real>)
  {
    forall i, j :: 0 <= i <= j < |s| ==> s[i] <= s[j]
  }

  lemma SortedEnds(s: seq<real>)
    requires |s| > 0 && Sorted(s)
    ensures Min(s) == s[0] && Max(s) == s[|s| - 1]
  {
  }

  /** Reordering a sample does not change its minimum or maximum. */
  lemma ExtremesOfPermutation(a: seq<real>, b: seq<real>)
    requires |a| > 0 && multiset(a) == multiset(b)
    ensures |b| > 0 && Min(a) == Min(b) && Max(a) == Max(b)
  {
    assert |b| == |multiset(b)| == |multiset(a)| == |a|;
    assert Min(a) in multiset(b) && Min(b) in multiset(a);
    assert Max(a) in multiset(b) && Max(b) in multiset(a);
  }

  /** Inserts `x` into an ascending sequence, keeping it ascending. */
  function Insert(x: real, s: seq<real>): (r: seq<real>)
    requires Sorted(s)
    ensures Sorted(r)
    ensures |r| == |s| + 1
    ensures r[0] == if |s| == 0 || x <= s[0] then x else s[0]
    ensures multiset(r) == multiset(s) + multiset{x}
  {
    if |s| == 0 then [x]
    else if x <= s[0] then [x] + s
    else
      var t := Insert(x, s[1..]);
      assert s == [s[0]] + s[1..];
      assert forall j :: 0 <= j < |t| ==> s[0] <= t[0] <= t[j];
      [s[0]] + t
  }

  /** Sorts a sample ascending (the effect of `.sort(d3.ascending)`). */
  function Sort(s: seq<real>): (r: seq<real>)
    ensures Sorted(r)
    ensures multiset(r) == multiset(s)
    ensures |r| == |s|
  {
    assert |multiset(s)| == |s|;
    if |s| == 0 then []
    else
      assert s == [s[0]] + s[1..];
      Insert(s[0], Sort(s[1..]))
  }

  /** Only one ascending arrangement of a multiset exists, so any correct
      sort agrees with Sort, in particular `Array.prototype.sort` with
      `d3.ascending` in main.js and script.js. */
  lemma {:induction false} SortedPermutationUnique(a: seq<real>, b: seq<real>)
    requires Sorted(a) && Sorted(b) && multiset(a) == multiset(b)
    ensures a == b
  {
    assert |b| == |multiset(b)| == |multiset(a)| == |a|;
    if |a| > 0 {
      assert a[0] in multiset(b) && b[0] in multiset(a);
      SortedHeadIsLeast(a, b[0]);
      SortedHeadIsLeast(b, a[0]);
      var x := a[0];
      assert b[0] == x;
      var a', b' := a[1..], b[1..];
      TailMultiset(a);
      TailMultiset(b);
      assert multiset(a') == multiset(b');
      SortedTail(a);
      SortedTail(b);
      SortedPermutationUnique(a', b');
    }
  }

  lemma TailMultiset(a: seq<real>)
    requires |a| > 0
    ensures multiset(a[1..]) == multiset(a) - multiset{a[0]}
  {
    assert a == [a[0]] + a[1..];
  }

  lemma SortedTail(a: seq<real>)
    requires Sorted(a) && |a| > 0
    ensures Sorted(a[1..])
  {
  }

  lemma SortedHeadIsLeast(a: seq<real>, x: real)
    requires Sorted(a) && x in multiset(a)
    ensures a[0] <= x
  {
    var i :| 0 <= i < |a| && a[i] == x;
  }

  lemma SortIsTheSortedPermutation(s: seq<real>, t: seq<real>)
    requires Sorted(t) && multiset(t) == multiset(s)
    ensures t == Sort(s)
  {
    SortedPermutationUnique(t, Sort(s));
  }

  /** d3.quantile(v, p) on an ascending sample `v`: Hyndman and Fan type 7.
      With h = (n-1)*p the result interpolates linearly between v[floor h]
      and v[floor h + 1]; d3 answers v[0] when p <= 0 or n < 2 and v[n-1]
      when p >= 1. */
  function Quantile(v: seq<real>, p: real): real
    requires |v| > 0
  {
    var n := |v|;
    if p <= 0.0 || n < 2 then v[0]
    else if p >= 1.0 then v[n - 1]
    else
      var h := Position(n, p);
      InteriorIndex(n, p);
      var i0 := h.Floor;
      Lerp(v[i0], v[i0 + 1], h - i0 as real)
  }

  /** The fractional index (n-1)*p of the p-quantile among n values. */
  function Position(n: int, p: real): real
  {
    (n - 1) as real * p
  }

  /** Linear interpolation from a towards b at fraction f, as d3 writes it. */
  function Lerp(a: real, b: real, f: real): real
  {
    a + (b - a) * f
  }

  /** For 0 < p < 1 the interpolation interval [floor h, floor h + 1] lies
      inside the sample's indices. */
  lemma InteriorIndex(n: int, p: real)
    requires n >= 2 && 0.0 < p < 1.0
    ensures 0 <= Position(n, p).Floor < n - 1
    ensures 0.0 <= Position(n, p) - Position(n, p).Floor as real < 1.0
  {
    PositionInterior(n, p);
    FloorWithin(Position(n, p), n - 1);
  }

  lemma PositionInterior(n: int, p: real)
    requires n >= 2 && 0.0 < p < 1.0
    ensures 0.0 < Position(n, p) < (n - 1) as real
  {
    var m := (n - 1) as real;
    MulPositive(m, p);
    MulPositive(m, 1.0 - p);
    assert m * (1.0 - p) == m - m * p;
  }

  lemma FloorWithin(h: real, k: int)
    requires 0.0 < h < k as real
    ensures 0 <= h.Floor < k
    ensures 0.0 <= h - h.Floor as real < 1.0
  {
  }

  lemma MulPositive(x: real, y: real)
    requires x > 0.0 && y > 0.0
    ensures x * y > 0.0
  {
  }

  lemma PositionMonotone(n: int, p: real, q: real)
    requires n >= 1 && p <= q
    ensures Position(n, p) <= Position(n, q)
  {
    MulNonNegative((n - 1) as real, q - p);
  }

  lemma Interpolate(a: real, b: real, f: real)
    requires a <= b && 0.0 <= f < 1.0
    ensures a <= Lerp(a, b, f) <= b
  {
    var d, c := b - a, 1.0 - f;
    MulNonNegative(d, f);
    MulNonNegative(d, c);
    assert d * c == d - d * f;
  }

  lemma InterpolateMonotone(a: real, b: real, f: real, g: real)
    requires a <= b && 0.0 <= f <= g
    ensures Lerp(a, b, f) <= Lerp(a, b, g)
  {
    var d, e := b - a, g - f;
    MulNonNegative(d, e);
    assert d * e == d * g - d * f;
  }

  lemma MulNonNegative(x: real, y: real)
    requires x >= 0.0 && y >= 0.0
    ensures x * y >= 0.0
  {
  }

  /** On an ascending sample an interior quantile lies between the two
      order statistics it interpolates. */
  lemma QuantileBracket(v: seq<real>, p: real)
    requires Sorted(v) && |v| >= 2 && 0.0 < p < 1.0
    ensures var i0 := Position(|v|, p).Floor;
      0 <= i0 < |v| - 1 && v[i0] <= Quantile(v, p) <= v[i0 + 1]
  {
    InteriorIndex(|v|, p);
    var h := Position(|v|, p);
    Interpolate(v[h.Floor], v[h.Floor + 1], h - h.Floor as real);
  }

  /** A quantile of an ascending sample lies between its minimum and maximum. */
  lemma QuantileInRange(v: seq<real>, p: real)
    requires Sorted(v) && |v| > 0
    ensures v[0] <= Quantile(v, p) <= v[|v| - 1]
  {
    if !(p <= 0.0 || |v| < 2 || p >= 1.0) {
      QuantileBracket(v, p);
    }
  }

  /** Quantiles of an ascending sample grow with the fraction. */
  lemma QuantileMonotone(v: seq<real>, p: real, q: real)
    requires Sorted(v) && |v| > 0 && p <= q
    ensures Quantile(v, p) <= Quantile(v, q)
  {
    QuantileInRange(v, p);
    QuantileInRange(v, q);
    if !(p <= 0.0 || |v| < 2 || q >= 1.0) {
      InteriorQuantileMonotone(v, p, q);
    }
  }

  lemma InteriorQuantileMonotone(v: seq<real>, p: real, q: real)
    requires Sorted(v) && |v| >= 2 && 0.0 < p <= q < 1.0
    ensures Quantile(v, p) <= Quantile(v, q)
  {
    var hp, hq := Position(|v|, p), Position(|v|, q);
    PositionMonotone(|v|, p, q);
    InteriorIndex(|v|, p);
    InteriorIndex(|v|, q);
    var ip, iq := hp.Floor, hq.Floor;
    assert ip <= iq;
    if ip == iq {
      InterpolateMonotone(v[ip], v[ip + 1], hp - ip as real, hq - iq as real);
    } else {
      QuantileBracket(v, p);
      QuantileBracket(v, q);
      assert v[ip + 1] <= v[iq];
    }
  }

  /** The box-plot statistics of one group. */
  datatype Box = Box(q1: real, median: real, q3: real, lowerWhisker: real, upperWhisker: real)
  {
    function Iqr(): real { q3 - q1 }
  }

  /** Box statistics of an ascending sample: the quartiles by Quantile,
      iqr = q3 - q1, whiskers q1 - 1.5*iqr and q3 + 1.5*iqr clipped to the
      sample's minimum and maximum. With no values main.js and script.js get
      undefined quartiles and NaN iqr and whiskers; the box is None here. */
  function BoxOf(v: seq<real>): (b: Option<Box>)
    ensures b.Some? <==> |v| > 0
  {
    if |v| == 0 then None
    else
      var q1 := Quantile(v, 0.25);
      var median := Quantile(v, 0.5);
      var q3 := Quantile(v, 0.75);
      var iqr := q3 - q1;
      Some(Box(q1, median, q3, Max2(Min(v), q1 - 1.5 * iqr), Min2(Max(v), q3 + 1.5 * iqr)))
  }

  /** The whisker ordering a box plot relies on, framed by the sample's range. */
  predicate Ordered(b: Box, lo: real, hi: real)
  {
    lo <= b.lowerWhisker <= b.q1 <= b.median <= b.q3 <= b.upperWhisker <= hi && b.Iqr() >= 0.0
  }

  lemma BoxOrdered(v: seq<real>)
    requires Sorted(v) && |v| > 0
    ensures BoxOf(v).Some? && Ordered(BoxOf(v).value, Min(v), Max(v))
  {
    SortedEnds(v);
    QuantileMonotone(v, 0.25, 0.5);
    QuantileMonotone(v, 0.5, 0.75);
    QuantileInRange(v, 0.25);
    QuantileInRange(v, 0.75);
  }

  /** A one-value sample gives a degenerate box at that value. */
  lemma BoxOfSingleton(x: real)
    ensures BoxOf([x]) == Some(Box(x, x, x, x, x))
  {
  }

  /** The sample 1..9: quartiles 3, 5, 7, iqr 4, whiskers at 1 and 9. */
  lemma BoxOfOneToNine()
    ensures BoxOf([1.0, 2.0, 3.0, 4.0, 5.0, 6.0, 7.0, 8.0, 9.0]) == Some(Box(3.0, 5.0, 7.0, 1.0, 9.0))
  {
    var v := [1.0, 2.0, 3.0, 4.0, 5.0, 6.0, 7.0, 8.0, 9.0];
    assert Quantile(v, 0.25) == 3.0 by {
      assert Position(9, 0.25) == 2.0;
      FloorOfInteger(2);
    }
    assert Quantile(v, 0.5) == 5.0 by {
      assert Position(9, 0.5) == 4.0;
      FloorOfInteger(4);
    }
    assert Quantile(v, 0.75) == 7.0 by {
      assert Position(9, 0.75) == 6.0;
      FloorOfInteger(6);
    }
    assert Sorted(v);
    SortedEnds(v);
  }

  lemma FloorOfInteger(k: int)
    ensures (k as real).Floor == k
  {
  }
}
