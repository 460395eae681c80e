/** The survey records of main.js and the two labels its loading step
    attaches to each of them: an HbA1c `status` at the clinical cut-offs
    5.7 and 6.5, and an `ageGroup` from a ladder of 20-year rungs. Then the
    three status filters that split the records for the histogram. */
module Records {
  import opened Wrappers

  datatype Status = Normal | Prediabetes | Diabetes

  /** The labels '0–20', '20–40', '40–60', '60–80' and 'Other'. */
  datatype AgeGroup = Age0To20 | Age20To40 | Age40To60 | Age60To80 | Other

  /** One row of the diabetes prediction dataset, with the columns the core
      reads. `status` and `ageGroup` are undefined (None) until the
      annotating loop has run. */
  datatype Record = Record(
    gender: string,
    age: real,
    hbA1c: real,
    diabetes: real,
    status: Option<Status>,
    ageGroup: Option<AgeGroup>)

  /** The HbA1c status ladder. */
  function StatusOf(hbA1c: real): (s: Status)
    ensures s == Normal <==> hbA1c < 5.7
    ensures s == Prediabetes <==> 5.7 <= hbA1c < 6.5
    ensures s == Diabetes <==> 6.5 <= hbA1c
  {
    if hbA1c < 5.7 then Normal
    else if hbA1c < 6.5 then Prediabetes
    else Diabetes
  }

  /** The age ladder, each rung closed at its upper end. */
  function AgeGroupOf(age: real): (g: AgeGroup)
    ensures g == Age0To20 <==> age <= 20.0
    ensures g == Age20To40 <==> 20.0 < age <= 40.0
    ensures g == Age40To60 <==> 40.0 < age <= 60.0
    ensures g == Age60To80 <==> 60.0 < age <= 80.0
    ensures g == Other <==> 80.0 < age
  {
    if age <= 20.0 then Age0To20
    else if age <= 40.0 then Age20To40
    else if age <= 60.0 then Age40To60
    else if age <= 80.0 then Age60To80
    else Other
  }

  function StatusRank(s: Status): nat
  {
    match s
    case Normal => 0
    case Prediabetes => 1
    case Diabetes => 2
  }

  function AgeRank(g: AgeGroup): nat
  {
    match g
    case Age0To20 => 0
    case Age20To40 => 1
    case Age40To60 => 2
    case Age60To80 => 3
    case Other => 4
  }

  /** A higher HbA1c never gets a milder status. */
  lemma StatusMonotone(h1: real, h2: real)
    requires h1 <= h2
    ensures StatusRank(StatusOf(h1)) <= StatusRank(StatusOf(h2))
  {
  }

  /** An older person never gets an earlier age group. */
  lemma AgeGroupMonotone(a1: real, a2: real)
    requires a1 <= a2
    ensures AgeRank(AgeGroupOf(a1)) <= AgeRank(AgeGroupOf(a2))
  {
  }

  /** One record after the loop body has assigned both labels. */
  function Annotated(r: Record): Record
  {
    r.(status := Some(StatusOf(r.hbA1c)), ageGroup := Some(AgeGroupOf(r.age)))
  }

  /** The `rawData.forEach` loop: labels every record in place and changes
      no other field. */
  method AnnotateAll(records: array<Record>)
    modifies records
    ensures forall i :: 0 <= i < records.Length ==> records[i] == Annotated(old(records[i]))
  {
    var i := 0;
    while i < records.Length
      invariant 0 <= i <= records.Length
      invariant forall j :: 0 <= j < i ==> records[j] == Annotated(old(records[j]))
      invariant forall j :: i <= j < records.Length ==> records[j] == old(records[j])
    {
      var d := records[i];
      var status := if d.hbA1c < 5.7 then Normal else if d.hbA1c < 6.5 then Prediabetes else Diabetes;
      var ageGroup :=
        if d.age <= 20.0 then Age0To20
        else if d.age <= 40.0 then Age20To40
        else if d.age <= 60.0 then Age40To60
        else if d.age <= 80.0 then Age60To80
        else Other;
      records[i] := d.(status := Some(status), ageGroup := Some(ageGroup));
      i := i + 1;
    }
  }

  /** `data.filter(d => d.status === s)`: the records labelled s. */
  function WithStatus(data: seq<Record>, s: Status): (r: seq<Record>)
    ensures forall x :: x in r <==> x in data && x.status == Some(s)
    ensures |r| <= |data|
  {
    if |data| == 0 then []
    else (if data[0].status == Some(s) then [data[0]] else []) + WithStatus(data[1..], s)
  }

  /** Every record carries a status, as after AnnotateAll. */
  predicate AllLabelled(data: seq<Record>)
  {
    forall i :: 0 <= i < |data| ==> data[i].status.Some?
  }

  /** Once every record is labelled, the three filters split the data:
      together they hold each record exactly as often as the data does, and
      their sizes add up to the number of records. */
  lemma StatusFiltersPartition(data: seq<Record>)
    requires AllLabelled(data)
    ensures multiset(WithStatus(data, Normal)) + multiset(WithStatus(data, Prediabetes))
            + multiset(WithStatus(data, Diabetes)) == multiset(data)
    ensures |WithStatus(data, Normal)| + |WithStatus(data, Prediabetes)|
            + |WithStatus(data, Diabetes)| == |data|
  {
    var n, p, d := WithStatus(data, Normal), WithStatus(data, Prediabetes), WithStatus(data, Diabetes);
    FiltersCover(data);
    calc {
      |n| + |p| + |d|;
      |multiset(n)| + |multiset(p)| + |multiset(d)|;
      |multiset(n) + multiset(p) + multiset(d)|;
      |multiset(data)|;
      |data|;
    }
  }

  lemma {:induction false} FiltersCover(data: seq<Record>)
    requires AllLabelled(data)
    ensures multiset(WithStatus(data, Normal)) + multiset(WithStatus(data, Prediabetes))
            + multiset(WithStatus(data, Diabetes)) == multiset(data)
  {
    if |data| > 0 {
      var t := data[1..];
      assert AllLabelled(t) by {
        forall i | 0 <= i < |t| ensures t[i].status.Some? {
          assert t[i] == data[i + 1];
        }
      }
      FiltersCover(t);
      assert data == [data[0]] + t;
      assert multiset(data) == multiset{data[0]} + multiset(t);
      FilterStep(data, Normal);
      FilterStep(data, Prediabetes);
      FilterStep(data, Diabetes);
      assert data[0].status.Some?;
      match data[0].status.value {
        case Normal =>
        case Prediabetes =>
        case Diabetes =>
      }
    }
  }

  /** One step of a filter: the first record joins exactly the filter of its
      own status. */
  lemma FilterStep(data: seq<Record>, s: Status)
    requires |data| > 0
    ensures multiset(WithStatus(data, s)) ==
      (if data[0].status == Some(s) then multiset{data[0]} else multiset{}) + multiset(WithStatus(data[1..], s))
  {
    if data[0].status == Some(s) {
      assert WithStatus(data, s) == [data[0]] + WithStatus(data[1..], s);
    } else {
      assert WithStatus(data, s) == WithStatus(data[1..], s);
    }
  }
}
