/** The third chart of main.js (`drawRiskCurve`): for each HbA1c threshold,
    the share of diabetic records among those at or above it. */
module Risk {
  import opened Records

  /** `data.filter(d => d.hbA1c >= thr)`: the records at or above the
      threshold, in input order. */
  function AtOrAbove(data: seq<Record>, thr: real): (r: seq<Record>)
    ensures forall x :: x in r <==> x in data && x.hbA1c >= thr
    ensures forall x :: multiset(r)[x] == if x.hbA1c >= thr then multiset(data)[x] else 0
  {
    if |data| == 0 then []
    else
      assert data == [data[0]] + data[1..];
      (if data[0].hbA1c >= thr then [data[0]] else []) + AtOrAbove(data[1..], thr)
  }

  /** `subset.filter(d => d.diabetes === 1).length`. */
  function CountDiabetic(subset: seq<Record>): (c: nat)
    ensures c <= |subset|
    ensures c == |subset| <==> forall i :: 0 <= i < |subset| ==> subset[i].diabetes == 1.0
    ensures c == 0 <==> forall i :: 0 <= i < |subset| ==> subset[i].diabetes != 1.0
  {
    if |subset| == 0 then 0
    else
      assert forall i :: 1 <= i < |subset| ==> subset[i] == subset[1..][i - 1];
      (if subset[0].diabetes == 1.0 then 1 else 0) + CountDiabetic(subset[1..])
  }

  /** The diabetic share of a group of records, 0 for an empty group: 1
      exactly when the group is non-empty and every record is diabetic, 0
      exactly when no record is. */
  function DiabeticShare(subset: seq<Record>): (p: real)
    ensures 0.0 <= p <= 1.0
    ensures p == 1.0 <==> |subset| > 0 && CountDiabetic(subset) == |subset|
    ensures p == 0.0 <==> CountDiabetic(subset) == 0
  {
    if |subset| == 0 then 0.0
    else
      var c, n := CountDiabetic(subset) as real, |subset| as real;
      Share(c, n);
      c / n
  }

  lemma Share(c: real, n: real)
    requires 0.0 <= c <= n && n > 0.0
    ensures 0.0 <= c / n <= 1.0 && c / n * n == c
    ensures c / n == 1.0 <==> c == n
    ensures c / n == 0.0 <==> c == 0.0
  {
    var r := c / n;
    assert r * n == c;
  }

  /** The `prop` of one threshold: the diabetic share of the records at or
      above it, and 0 when no record qualifies. */
  function Proportion(data: seq<Record>, thr: real): (p: real)
    ensures 0.0 <= p <= 1.0
    ensures |AtOrAbove(data, thr)| == 0 ==> p == 0.0
  {
    DiabeticShare(AtOrAbove(data, thr))
  }

  /** `proportionData`: one (threshold, proportion) pair per threshold, in
      threshold order. */
  function ProportionData(data: seq<Record>, thresholds: seq<real>): (r: seq<(real, real)>)
    ensures |r| == |thresholds|
    ensures forall i :: 0 <= i < |r| ==> r[i].0 == thresholds[i] && 0.0 <= r[i].1 <= 1.0
  {
    seq(|thresholds|, i requires 0 <= i < |thresholds| => (thresholds[i], Proportion(data, thresholds[i])))
  }

  /** Raising the threshold can only shrink the qualifying records: the
      records at or above the higher threshold are, with their
      multiplicities, among those at or above the lower one. */
  lemma {:induction false} AtOrAboveShrinks(data: seq<Record>, lower: real, higher: real)
    requires lower <= higher
    ensures multiset(AtOrAbove(data, higher)) <= multiset(AtOrAbove(data, lower))
    ensures |AtOrAbove(data, higher)| <= |AtOrAbove(data, lower)|
  {
    if |data| > 0 {
      AtOrAboveShrinks(data[1..], lower, higher);
      var hi, lo := AtOrAbove(data[1..], higher), AtOrAbove(data[1..], lower);
      if data[0].hbA1c >= higher {
        assert AtOrAbove(data, higher) == [data[0]] + hi;
        assert AtOrAbove(data, lower) == [data[0]] + lo;
      } else if data[0].hbA1c >= lower {
        assert AtOrAbove(data, lower) == [data[0]] + lo;
      }
      assert |multiset(AtOrAbove(data, higher))| <= |multiset(AtOrAbove(data, lower))|;
    }
  }

  /** A threshold at or below every record's HbA1c keeps every record, so
      its proportion is the diabetic share of the whole data. */
  lemma {:induction false} ThresholdBelowAll(data: seq<Record>, thr: real)
    requires forall i :: 0 <= i < |data| ==> data[i].hbA1c >= thr
    ensures AtOrAbove(data, thr) == data
  {
    if |data| > 0 {
      ThresholdBelowAll(data[1..], thr);
    }
  }

  /** A threshold above every record's HbA1c keeps none, and gives 0. */
  lemma {:induction false} ThresholdAboveAll(data: seq<Record>, thr: real)
    requires forall i :: 0 <= i < |data| ==> data[i].hbA1c < thr
    ensures AtOrAbove(data, thr) == [] && Proportion(data, thr) == 0.0
  {
    if |data| > 0 {
      ThresholdAboveAll(data[1..], thr);
    }
  }
}
