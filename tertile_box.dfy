/** The statistics of script.js: each row is put into the Low, Mid or High
    HbA1c tertile at the 1/3 and 2/3 quantiles, and each gender's glucose
    growth values get box-plot statistics, framed by a common y-domain. */
module TertileBox {
  import opened Wrappers
  import opened Stats

  datatype Tertile = Low | Mid | High

  /** One row of project3_w_hba1c.csv: HbA1c, growth in glucose (`delta`),
      gender, and the tertile `group`, undefined until assigned. */
  datatype Row = Row(hba1c: real, delta: real, gender: string, group: Option<Tertile>)

  /** `data.map(d => d.hba1c)`. */
  function HbA1cValues(rows: seq<Row>): (hs: seq<real>)
    ensures |hs| == |rows|
    ensures forall i :: 0 <= i < |rows| ==> hs[i] == rows[i].hba1c
  {
    seq(|rows|, i requires 0 <= i < |rows| => rows[i].hba1c)
  }

  /** t1 and t2: the 1/3 and 2/3 quantiles of the ascending HbA1c values,
      undefined when there are no rows. */
  function Cutoffs(rows: seq<Row>): (c: Option<(real, real)>)
    ensures c.Some? <==> |rows| > 0
    ensures c.Some? ==> c.value.0 <= c.value.1
  {
    var hVals := Sort(HbA1cValues(rows));
    if |hVals| == 0 then None
    else
      QuantileMonotone(hVals, 1.0 / 3.0, 2.0 / 3.0);
      Some((Quantile(hVals, 1.0 / 3.0), Quantile(hVals, 2.0 / 3.0)))
  }

  /** The tertile of one HbA1c value against the cut-offs t1 and t2. */
  function TertileOf(h: real, t1: real, t2: real): (g: Tertile)
    ensures g == Low <==> h <= t1
    ensures g == Mid <==> t1 < h <= t2
    ensures g == High <==> t1 < h && t2 < h
  {
    if h <= t1 then Low else if h <= t2 then Mid else High
  }

  function TertileRank(g: Tertile): nat
  {
    match g
    case Low => 0
    case Mid => 1
    case High => 2
  }

  /** A higher HbA1c never gets a lower tertile. */
  lemma TertileMonotone(h1: real, h2: real, t1: real, t2: real)
    requires h1 <= h2
    ensures TertileRank(TertileOf(h1, t1, t2)) <= TertileRank(TertileOf(h2, t1, t2))
  {
  }

  /** The `data.forEach` loop: every row gets the tertile of its HbA1c
      against the cut-offs of the whole data; nothing else changes. */
  method AssignTertiles(data: array<Row>)
    modifies data
    ensures var c := Cutoffs(old(data[..]));
      c.Some? ==> forall i :: 0 <= i < data.Length ==>
        data[i] == old(data[i]).(group := Some(TertileOf(old(data[i]).hba1c, c.value.0, c.value.1)))
    ensures data.Length == 0 ==> data[..] == old(data[..])
  {
    var hVals := Sort(HbA1cValues(data[..]));
    if |hVals| == 0 {
      return;
    }
    var t1, t2 := Quantile(hVals, 1.0 / 3.0), Quantile(hVals, 2.0 / 3.0);
    var i := 0;
    while i < data.Length
      invariant 0 <= i <= data.Length
      invariant forall j :: 0 <= j < i ==> data[j] == old(data[j]).(group := Some(TertileOf(old(data[j]).hba1c, t1, t2)))
      invariant forall j :: i <= j < data.Length ==> data[j] == old(data[j])
    {
      var d := data[i];
      data[i] := d.(group := Some(if d.hba1c <= t1 then Low else if d.hba1c <= t2 then Mid else High));
      i := i + 1;
    }
  }

  /** A row with the least HbA1c always falls in the Low tertile. */
  lemma LeastIsLow(rows: seq<Row>, k: int)
    requires 0 <= k < |rows|
    requires forall j :: 0 <= j < |rows| ==> rows[k].hba1c <= rows[j].hba1c
    ensures Cutoffs(rows).Some?
    ensures TertileOf(rows[k].hba1c, Cutoffs(rows).value.0, Cutoffs(rows).value.1) == Low
  {
    var hs := HbA1cValues(rows);
    var hVals := Sort(hs);
    ExtremesOfPermutation(hs, hVals);
    SortedEnds(hVals);
    assert Min(hs) == rows[k].hba1c;
    QuantileInRange(hVals, 1.0 / 3.0);
  }

  /** The genders in order of first appearance, each once: the keys of
      `d3.group(data, d => d.gender)`. */
  function Genders(rows: seq<Row>): (ks: seq<string>)
    ensures forall i :: 0 <= i < |rows| ==> rows[i].gender in ks
    ensures forall g :: g in ks ==> exists i :: 0 <= i < |rows| && rows[i].gender == g
    ensures forall i, j :: 0 <= i < j < |ks| ==> ks[i] != ks[j]
  {
    if |rows| == 0 then []
    else
      var init := rows[..|rows| - 1];
      var ks := Genders(init);
      assert forall i :: 0 <= i < |init| ==> init[i] == rows[i];
      if rows[|rows| - 1].gender in ks then ks else ks + [rows[|rows| - 1].gender]
  }

  /** Some row of gender `a` comes before every row of gender `b`. */
  predicate AppearsBefore(rows: seq<Row>, a: string, b: string)
  {
    exists k :: 0 <= k < |rows| && rows[k].gender == a && NoneUpTo(rows, b, k)
  }

  /** No row at index 0..k has gender `b`. */
  predicate NoneUpTo(rows: seq<Row>, b: string, k: int)
  {
    forall m :: 0 <= m <= k && m < |rows| ==> rows[m].gender != b
  }

  /** The keys come in order of first appearance, the order in which
      `d3.group` yields them. */
  lemma {:induction false} GendersInFirstAppearanceOrder(rows: seq<Row>)
    ensures forall i, j :: 0 <= i < j < |Genders(rows)| ==>
      AppearsBefore(rows, Genders(rows)[i], Genders(rows)[j])
  {
    if |rows| > 0 {
      var init := rows[..|rows| - 1];
      var ks0, ks := Genders(init), Genders(rows);
      GendersInFirstAppearanceOrder(init);
      forall i, j | 0 <= i < j < |ks|
        ensures AppearsBefore(rows, ks[i], ks[j])
      {
        assert ks[i] == ks0[i];
        if j < |ks0| {
          assert ks[j] == ks0[j];
          AppearsBeforeExtends(init, rows, ks[i], ks[j]);
        } else {
          assert ks[j] !in ks0;
          FirstOfNewGender(init, rows, ks[i], ks[j]);
        }
      }
    }
  }

  lemma AppearsBeforeExtends(init: seq<Row>, rows: seq<Row>, a: string, b: string)
    requires |init| <= |rows| && init == rows[..|init|] && AppearsBefore(init, a, b)
    ensures AppearsBefore(rows, a, b)
  {
    var k :| 0 <= k < |init| && init[k].gender == a && NoneUpTo(init, b, k);
    assert rows[k] == init[k];
    forall m | 0 <= m <= k && m < |rows| ensures rows[m].gender != b {
      assert rows[m] == init[m];
    }
  }

  lemma FirstOfNewGender(init: seq<Row>, rows: seq<Row>, a: string, b: string)
    requires |init| <= |rows| && init == rows[..|init|] && a in Genders(init) && b !in Genders(init)
    ensures AppearsBefore(rows, a, b)
  {
    var ks := Genders(init);
    var k :| 0 <= k < |init| && init[k].gender == a;
    assert rows[k] == init[k];
    forall m | 0 <= m <= k && m < |rows| ensures rows[m].gender != b {
      assert rows[m] == init[m];
      assert init[m].gender in ks;
    }
  }

  /** The growth values of one gender's rows, in input order. */
  function Deltas(rows: seq<Row>, gender: string): seq<real>
  {
    if |rows| == 0 then []
    else
      var last := rows[|rows| - 1];
      Deltas(rows[..|rows| - 1], gender) + (if last.gender == gender then [last.delta] else [])
  }

  /** A gender that occurs has at least one value. */
  lemma {:induction false} DeltasNonEmpty(rows: seq<Row>, k: int)
    requires 0 <= k < |rows|
    ensures |Deltas(rows, rows[k].gender)| > 0
  {
    if k < |rows| - 1 {
      var init := rows[..|rows| - 1];
      assert init[k] == rows[k];
      DeltasNonEmpty(init, k);
    }
  }

  /** `bGrouped`: per gender, in order of first appearance, its growth
      values sorted ascending. No group is empty. */
  function BGrouped(rows: seq<Row>): (r: seq<(string, seq<real>)>)
    ensures |r| == |Genders(rows)|
    ensures forall i :: 0 <= i < |r| ==>
      r[i].0 == Genders(rows)[i] && Sorted(r[i].1) &&
      multiset(r[i].1) == multiset(Deltas(rows, r[i].0))
  {
    var ks := Genders(rows);
    seq(|ks|, i requires 0 <= i < |ks| =>
      (ks[i], Sort(Deltas(rows, ks[i]))))
  }

  /** Every group of BGrouped(rows) is non-empty, as d3.group makes a key
      only for a value that occurs. */
  lemma GroupsNonEmpty(rows: seq<Row>)
    ensures forall i :: 0 <= i < |BGrouped(rows)| ==> |BGrouped(rows)[i].1| > 0
  {
    var g := BGrouped(rows);
    forall i | 0 <= i < |g| ensures |g[i].1| > 0 {
      KeyHasDeltas(rows, g[i].0);
      assert |g[i].1| == |multiset(g[i].1)| == |multiset(Deltas(rows, g[i].0))| == |Deltas(rows, g[i].0)|;
    }
  }

  lemma KeyHasDeltas(rows: seq<Row>, gender: string)
    requires gender in Genders(rows)
    ensures |Deltas(rows, gender)| > 0
  {
    var k :| 0 <= k < |rows| && rows[k].gender == gender;
    DeltasNonEmpty(rows, k);
  }

  /** `bSumm`: the box statistics of every group. */
  function BSumm(rows: seq<Row>): (s: seq<(string, Box)>)
    ensures |s| == |BGrouped(rows)|
    ensures forall i :: 0 <= i < |s| ==>
      s[i].0 == BGrouped(rows)[i].0 && Some(s[i].1) == BoxOf(BGrouped(rows)[i].1)
  {
    var g := BGrouped(rows);
    GroupsNonEmpty(rows);
    seq(|g|, i requires 0 <= i < |g| => (g[i].0, BoxOf(g[i].1).value))
  }

  /** Every gender's summary is ordered and lies within that gender's own
      minimum and maximum. */
  lemma BSummOrdered(rows: seq<Row>)
    ensures forall i :: 0 <= i < |BSumm(rows)| ==>
      Ordered(BSumm(rows)[i].1, Min(BGrouped(rows)[i].1), Max(BGrouped(rows)[i].1))
  {
    var g := BGrouped(rows);
    GroupsNonEmpty(rows);
    forall i | 0 <= i < |BSumm(rows)|
      ensures Ordered(BSumm(rows)[i].1, Min(g[i].1), Max(g[i].1))
    {
      BoxOrdered(g[i].1);
    }
  }

  /** The lower whisker ends of the summaries, in order. */
  function Los(summ: seq<(string, Box)>): (los: seq<real>)
    ensures |los| == |summ|
    ensures forall i :: 0 <= i < |summ| ==> los[i] == summ[i].1.lowerWhisker
  {
    seq(|summ|, i requires 0 <= i < |summ| => summ[i].1.lowerWhisker)
  }

  /** The upper whisker ends of the summaries, in order. */
  function His(summ: seq<(string, Box)>): (his: seq<real>)
    ensures |his| == |summ|
    ensures forall i :: 0 <= i < |summ| ==> his[i] == summ[i].1.upperWhisker
  {
    seq(|summ|, i requires 0 <= i < |summ| => summ[i].1.upperWhisker)
  }

  /** `[d3.min(bSumm, d => d.lo), d3.max(bSumm, d => d.hi)]`, undefined for
      no summaries: an interval containing every box's whisker span, whose
      ends are whisker ends. */
  function YDomain(summ: seq<(string, Box)>): (d: Option<(real, real)>)
    ensures d.Some? <==> |summ| > 0
    ensures d.Some? ==> forall i :: 0 <= i < |summ| ==>
      d.value.0 <= summ[i].1.lowerWhisker && summ[i].1.upperWhisker <= d.value.1
    ensures d.Some? ==>
      (exists i :: 0 <= i < |summ| && d.value.0 == summ[i].1.lowerWhisker) &&
      (exists i :: 0 <= i < |summ| && d.value.1 == summ[i].1.upperWhisker)
  {
    if |summ| == 0 then None
    else
      var los, his := Los(summ), His(summ);
      var a :| 0 <= a < |los| && los[a] == Min(los);
      var b :| 0 <= b < |his| && his[b] == Max(his);
      Some((Min(los), Max(his)))
  }

  /** For non-empty data the y-domain of the box plot is an interval,
      possibly a single point, that contains every gender's whole box. */
  lemma YDomainCoversBoxes(rows: seq<Row>)
    requires |rows| > 0
    ensures YDomain(BSumm(rows)).Some?
    ensures var d := YDomain(BSumm(rows)).value;
      d.0 <= d.1 &&
      forall i :: 0 <= i < |BSumm(rows)| ==>
        d.0 <= BSumm(rows)[i].1.lowerWhisker <= BSumm(rows)[i].1.q1 &&
        BSumm(rows)[i].1.q3 <= BSumm(rows)[i].1.upperWhisker <= d.1
  {
    var s := BSumm(rows);
    assert rows[0].gender in Genders(rows);
    assert |s| > 0;
    BSummOrdered(rows);
    var d := YDomain(s).value;
    assert Ordered(s[0].1, Min(BGrouped(rows)[0].1), Max(BGrouped(rows)[0].1));
    assert d.0 <= s[0].1.lowerWhisker <= s[0].1.upperWhisker <= d.1;
    forall i | 0 <= i < |s|
      ensures d.0 <= s[i].1.lowerWhisker <= s[i].1.q1 && s[i].1.q3 <= s[i].1.upperWhisker <= d.1
    {
      assert Ordered(s[i].1, Min(BGrouped(rows)[i].1), Max(BGrouped(rows)[i].1));
    }
  }
}
