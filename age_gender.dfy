/** The second chart of main.js (`drawAgeViolinGenderBox`): the records'
    HbA1c values are collected by age group and by gender, each age group
    gets a density curve for the violin plot, and each gender gets box-plot
    statistics. */
module AgeGender {
  import opened Wrappers
  import opened Stats
  import opened Density
  import opened Records

  /** The violin plot's four bins, in drawing order; 'Other' has no bin. */
  const AgeBins: seq<AgeGroup> := [Age0To20, Age20To40, Age40To60, Age60To80]

  /** The box plot's two genders, in drawing order. */
  const GenderBins: seq<string> := ["Male", "Female"]

  /** The violin plot's kernel bandwidth. */
  const AgeBandwidth: real := 0.4

  /** The HbA1c values of the records whose age group is g, in input order. */
  function AgeBin(data: seq<Record>, g: AgeGroup): seq<real>
  {
    if |data| == 0 then []
    else
      var last := data[|data| - 1];
      AgeBin(data[..|data| - 1], g) + (if last.ageGroup == Some(g) then [last.hbA1c] else [])
  }

  /** The HbA1c values of the records of one gender, in input order. */
  function GenderBin(data: seq<Record>, gender: string): seq<real>
  {
    if |data| == 0 then []
    else
      var last := data[|data| - 1];
      GenderBin(data[..|data| - 1], gender) + (if last.gender == gender then [last.hbA1c] else [])
  }

  /** The loop that fills `ageGrouped`: one key per bin, and each bin
      receives, in input order, the HbA1c of exactly the records of its age
      group. */
  method GroupByAge(data: seq<Record>) returns (ageGrouped: map<AgeGroup, seq<real>>)
    ensures ageGrouped.Keys == {Age0To20, Age20To40, Age40To60, Age60To80}
    ensures forall g :: g in ageGrouped ==> ageGrouped[g] == AgeBin(data, g)
  {
    ageGrouped := map[Age0To20 := [], Age20To40 := [], Age40To60 := [], Age60To80 := []];
    var i := 0;
    while i < |data|
      invariant 0 <= i <= |data|
      invariant ageGrouped.Keys == {Age0To20, Age20To40, Age40To60, Age60To80}
      invariant forall g :: g in ageGrouped ==> ageGrouped[g] == AgeBin(data[..i], g)
    {
      var d := data[i];
      assert data[..i + 1][..i] == data[..i];
      if d.ageGroup.Some? && d.ageGroup.value in ageGrouped {
        ageGrouped := ageGrouped[d.ageGroup.value := ageGrouped[d.ageGroup.value] + [d.hbA1c]];
      }
      i := i + 1;
    }
    assert data[..i] == data;
  }

  /** The loop that fills `genderGrouped`: the keys 'Male' and 'Female', each
      receiving, in input order, the HbA1c of exactly the records of that
      gender; records of any other gender are skipped. */
  method GroupByGender(data: seq<Record>) returns (genderGrouped: map<string, seq<real>>)
    ensures genderGrouped.Keys == {"Male", "Female"}
    ensures forall gen :: gen in genderGrouped ==> genderGrouped[gen] == GenderBin(data, gen)
  {
    genderGrouped := map["Male" := [], "Female" := []];
    var i := 0;
    while i < |data|
      invariant 0 <= i <= |data|
      invariant genderGrouped.Keys == {"Male", "Female"}
      invariant forall gen :: gen in genderGrouped ==> genderGrouped[gen] == GenderBin(data[..i], gen)
    {
      var d := data[i];
      assert data[..i + 1][..i] == data[..i];
      if d.gender in genderGrouped {
        genderGrouped := genderGrouped[d.gender := genderGrouped[d.gender] + [d.hbA1c]];
      }
      i := i + 1;
    }
    assert data[..i] == data;
  }

  /** Grouping keeps input order: the bin of a concatenation is the
      concatenation of the bins. */
  lemma {:induction false} AgeBinConcat(a: seq<Record>, b: seq<Record>, g: AgeGroup)
    ensures AgeBin(a + b, g) == AgeBin(a, g) + AgeBin(b, g)
  {
    if |b| > 0 {
      var last := b[|b| - 1];
      assert (a + b)[..|a + b| - 1] == a + b[..|b| - 1];
      AgeBinConcat(a, b[..|b| - 1], g);
    } else {
      assert a + b == a;
    }
  }

  /** A bin holds exactly the HbA1c values of the records of its age group. */
  lemma {:induction false} AgeBinMembers(data: seq<Record>, g: AgeGroup)
    ensures forall x :: x in AgeBin(data, g) <==>
      exists i :: 0 <= i < |data| && data[i].ageGroup == Some(g) && data[i].hbA1c == x
  {
    if |data| > 0 {
      var init := data[..|data| - 1];
      AgeBinMembers(init, g);
      assert forall i :: 0 <= i < |init| ==> init[i] == data[i];
    }
  }

  /** A gender's group holds exactly the HbA1c values of that gender's records. */
  lemma {:induction false} GenderBinMembers(data: seq<Record>, gender: string)
    ensures forall x :: x in GenderBin(data, gender) <==>
      exists i :: 0 <= i < |data| && data[i].gender == gender && data[i].hbA1c == x
  {
    if |data| > 0 {
      var init := data[..|data| - 1];
      GenderBinMembers(init, gender);
      assert forall i :: 0 <= i < |init| ==> init[i] == data[i];
    }
  }

  /** The records a bin of the violin plot receives: those whose age group
      is one of the four bins, i.e. anything but 'Other'. */
  function Binned(data: seq<Record>): nat
  {
    if |data| == 0 then 0
    else
      var last := data[|data| - 1];
      Binned(data[..|data| - 1]) + (if last.ageGroup.Some? && last.ageGroup.value != Other then 1 else 0)
  }

  /** Every binned record lands in exactly one bin: the four bin sizes add
      up to the number of records labelled with one of the four bins. */
  lemma {:induction false} AgeBinsCount(data: seq<Record>)
    ensures |AgeBin(data, Age0To20)| + |AgeBin(data, Age20To40)| + |AgeBin(data, Age40To60)|
            + |AgeBin(data, Age60To80)| == Binned(data)
  {
    if |data| > 0 {
      AgeBinsCount(data[..|data| - 1]);
    }
  }

  /** The density list of one age bin: empty for a bin without values,
      otherwise the KDE over the grid with bandwidth 0.4. */
  function DensityOf(values: seq<real>, grid: seq<real>): seq<(real, Option<real>)>
  {
    if |values| == 0 then [] else Kde(AgeBandwidth, grid, values)
  }

  /** The loop that fills `allDensities`, one entry per bin in bin order.
      Thanks to the empty-bin guard every density it holds is defined and
      non-negative. */
  method BuildDensities(ageGrouped: map<AgeGroup, seq<real>>, grid: seq<real>)
    returns (allDensities: seq<(AgeGroup, seq<(real, Option<real>)>)>)
    requires forall g :: g in AgeBins ==> g in ageGrouped
    ensures |allDensities| == |AgeBins|
    ensures forall i :: 0 <= i < |allDensities| ==>
      allDensities[i].0 == AgeBins[i] && allDensities[i].1 == DensityOf(ageGrouped[AgeBins[i]], grid)
    ensures forall i :: 0 <= i < |allDensities| ==>
      |allDensities[i].1| == (if |ageGrouped[AgeBins[i]]| == 0 then 0 else |grid|)
    ensures forall i, j :: 0 <= i < |allDensities| && 0 <= j < |allDensities[i].1| ==>
      allDensities[i].1[j].1.Some? && allDensities[i].1[j].1.value >= 0.0
  {
    allDensities := [];
    var b := 0;
    while b < |AgeBins|
      invariant 0 <= b <= |AgeBins|
      invariant |allDensities| == b
      invariant forall i :: 0 <= i < b ==>
        allDensities[i].0 == AgeBins[i] && allDensities[i].1 == DensityOf(ageGrouped[AgeBins[i]], grid)
      invariant forall i :: 0 <= i < b ==>
        |allDensities[i].1| == (if |ageGrouped[AgeBins[i]]| == 0 then 0 else |grid|)
      invariant forall i, j :: 0 <= i < b && 0 <= j < |allDensities[i].1| ==>
        allDensities[i].1[j].1.Some? && allDensities[i].1[j].1.value >= 0.0
    {
      var bin := AgeBins[b];
      var values := ageGrouped[bin];
      if |values| == 0 {
        allDensities := allDensities + [(bin, [])];
      } else {
        var density := Kde(AgeBandwidth, grid, values);
        KdeBounded(AgeBandwidth, grid, values);
        allDensities := allDensities + [(bin, density)];
      }
      b := b + 1;
    }
  }

  /** An entry of `boxData` for gender `gen` with its grouped values: the
      box of the values sorted ascending, defined exactly when there are
      values, and then ordered and framed by the values' own minimum and
      maximum. */
  predicate Summarises(entry: (string, Option<Box>), gen: string, values: seq<real>)
  {
    entry == (gen, BoxOf(Sort(values))) &&
    (entry.1.Some? <==> |values| > 0) &&
    (entry.1.Some? ==> Ordered(entry.1.value, Min(values), Max(values)))
  }

  /** The summary of one gender's values after the ascending sort. */
  lemma SortedBox(gen: string, values: seq<real>)
    ensures Summarises((gen, BoxOf(Sort(values))), gen, values)
  {
    var sorted := Sort(values);
    if |values| > 0 {
      BoxOrdered(sorted);
      ExtremesOfPermutation(values, sorted);
    }
  }

  /** The loop that fills `boxData`: one entry per gender, in drawing order,
      each summarising that gender's values. */
  method BoxData(genderGrouped: map<string, seq<real>>) returns (boxData: seq<(string, Option<Box>)>)
    requires forall gen :: gen in GenderBins ==> gen in genderGrouped
    ensures |boxData| == |GenderBins|
    ensures forall i :: 0 <= i < |boxData| ==>
      Summarises(boxData[i], GenderBins[i], genderGrouped[GenderBins[i]])
  {
    boxData := [];
    var b := 0;
    while b < |GenderBins|
      invariant 0 <= b <= |GenderBins|
      invariant |boxData| == b
      invariant forall i :: 0 <= i < b ==>
        Summarises(boxData[i], GenderBins[i], genderGrouped[GenderBins[i]])
    {
      var gen := GenderBins[b];
      var values := genderGrouped[gen];
      var box := BoxOf(Sort(values));
      SortedBox(gen, values);
      boxData := boxData + [(gen, box)];
      b := b + 1;
    }
  }
}
