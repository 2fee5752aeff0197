/** The six key indicators at the top of the page: prevalence, incidence
    and YLD rates for Lebanon in the latest year, the total health-care
    workforce density, and the outpatient and inpatient facility rates. */
module Indicators {
  import opened Optional
  import opened Records
  import opened Filtering
  import opened Stats

  const Lebanon := "Lebanon"
  const Outpatient := "Outpatient"
  const MentalHospitals := "Mental Hospitals"

  function Years(rows: seq<DisorderRow>): seq<int> {
    Project(rows, (row: DisorderRow) => row.year)
  }

  /** The latest year of the disorder table; none when it is empty (the
      page then fails converting NaN to an int). */
  function MaxYear(rows: seq<DisorderRow>): (r: Option<int>)
    ensures r.None? <==> rows == []
    ensures r.Some? ==> (exists i :: 0 <= i < |rows| && rows[i].year == r.value)
    ensures r.Some? ==> forall i :: 0 <= i < |rows| ==> rows[i].year <= r.value
  {
    var ys := Years(rows);
    var m := MaxInt(ys);
    if m.Some? then
      var i :| 0 <= i < |ys| && ys[i] == m.value;
      assert rows[i].year == m.value;
      assert forall i :: 0 <= i < |rows| ==> rows[i].year == ys[i];
      m
    else m
  }

  /** The earliest year of the disorder table. */
  function MinYear(rows: seq<DisorderRow>): (r: Option<int>)
    ensures r.None? <==> rows == []
    ensures r.Some? ==> (exists i :: 0 <= i < |rows| && rows[i].year == r.value)
    ensures r.Some? ==> forall i :: 0 <= i < |rows| ==> r.value <= rows[i].year
  {
    var ys := Years(rows);
    var m := MinInt(ys);
    if m.Some? then
      var i :| 0 <= i < |ys| && ys[i] == m.value;
      assert rows[i].year == m.value;
      assert forall i :: 0 <= i < |rows| ==> rows[i].year == ys[i];
      m
    else m
  }

  /** The year slider's bounds are ordered. */
  lemma YearBoundsOrdered(rows: seq<DisorderRow>)
    requires rows != []
    ensures MinYear(rows).value <= MaxYear(rows).value
  {
  }

  /** The KPI query: Lebanon, the latest year, and cause, sex and age
      among the selected values. */
  predicate IsLatestMatch(row: DisorderRow, maxYear: int, f: MetricFilters) {
    && row.country == Lebanon
    && row.year == maxYear
    && row.cause in f.causes
    && row.sex in f.sexes
    && row.age in f.ages
  }

  /** The rows of the KPI query, in table order. */
  function LatestRows(rows: seq<DisorderRow>, maxYear: int, f: MetricFilters): (r: seq<DisorderRow>)
    ensures forall i :: 0 <= i < |r| ==> IsLatestMatch(r[i], maxYear, f)
  {
    Select(rows, row => IsLatestMatch(row, maxYear, f))
  }

  /** The KPI query keeps exactly the matching rows, each as often as in
      the table, and in table order. */
  lemma LatestRowsExact(rows: seq<DisorderRow>, maxYear: int, f: MetricFilters, row: DisorderRow)
    ensures row in LatestRows(rows, maxYear, f) <==> row in rows && IsLatestMatch(row, maxYear, f)
    ensures multiset(LatestRows(rows, maxYear, f))[row] == if IsLatestMatch(row, maxYear, f) then multiset(rows)[row] else 0
    ensures IsSubsequence(LatestRows(rows, maxYear, f), rows)
  {
    var keep := (x: DisorderRow) => IsLatestMatch(x, maxYear, f);
    SelectMembers(rows, keep, row);
    SelectCounts(rows, keep, row);
    SelectOrdered(rows, keep);
  }

  function Rates(rows: seq<DisorderRow>, m: Metric): seq<real> {
    Project(rows, (row: DisorderRow) => Rate(row, m))
  }

  /** One KPI card: the matched row's value when the query pins down a
      single row, the mean over the matched rows otherwise, and no value
      when nothing matched (pandas: NaN). */
  function Kpi(latest: seq<DisorderRow>, m: Metric): (r: Option<real>)
    ensures r.None? <==> latest == []
    ensures |latest| == 1 ==> r == Some(Rate(latest[0], m))
    ensures |latest| > 1 ==> r.Some? && r.value * |latest| as real == Sum(Rates(latest, m))
  {
    if |latest| == 1 then Some(Rate(latest[0], m)) else Mean(Rates(latest, m))
  }

  /** The single-row branch and the mean branch agree: the KPI is always
      the mean of the matched rates. */
  lemma KpiIsMean(latest: seq<DisorderRow>, m: Metric)
    ensures Kpi(latest, m) == Mean(Rates(latest, m))
  {
    if |latest| == 1 {
      assert Rates(latest, m) == [Rate(latest[0], m)];
      MeanSingleton(Rate(latest[0], m));
    }
  }

  /** A KPI never leaves the range of the matched rows' rates. */
  lemma KpiWithinMatchedRange(latest: seq<DisorderRow>, m: Metric, lo: real, hi: real)
    requires latest != []
    requires forall i :: 0 <= i < |latest| ==> lo <= Rate(latest[i], m) <= hi
    ensures Kpi(latest, m).Some?
    ensures lo <= Kpi(latest, m).value <= hi
  {
    KpiIsMean(latest, m);
    MeanBetween(Rates(latest, m), lo, hi);
  }

  /** Total workforce density: the sum of `workers_per_100k`, skipping
      empty cells as pandas `sum` does (an all-empty column sums to 0). */
  function TotalWorkers(hr: seq<WorkforceRow>): (r: real)
    ensures (forall i :: 0 <= i < |hr| ==> hr[i].workersPer100k.None?) ==> r == 0.0
    ensures (forall i :: 0 <= i < |hr| ==> hr[i].workersPer100k.GetOr(0.0) >= 0.0) ==> r >= 0.0
  {
    if hr == [] then 0.0 else hr[0].workersPer100k.GetOr(0.0) + TotalWorkers(hr[1..])
  }

  /** The rates present in the workforce column, in table order. */
  function PresentWorkers(hr: seq<WorkforceRow>): (xs: seq<real>)
    ensures |xs| <= |hr|
  {
    if hr == [] then []
    else (match hr[0].workersPer100k case Some(v) => [v] case None => []) + PresentWorkers(hr[1..])
  }

  /** The workforce total is the plain sum of the cells that hold a value. */
  lemma {:induction false} TotalWorkersSumsPresent(hr: seq<WorkforceRow>)
    ensures TotalWorkers(hr) == Sum(PresentWorkers(hr))
    decreases |hr|
  {
    if hr != [] {
      TotalWorkersSumsPresent(hr[1..]);
      match hr[0].workersPer100k
      case Some(v) =>
        assert PresentWorkers(hr) == [v] + PresentWorkers(hr[1..]);
        assert ([v] + PresentWorkers(hr[1..]))[1..] == PresentWorkers(hr[1..]);
      case None =>
        assert PresentWorkers(hr) == PresentWorkers(hr[1..]);
    }
  }

  /** The workforce total adds up over any split of the table. */
  lemma {:induction false} TotalWorkersAppend(a: seq<WorkforceRow>, b: seq<WorkforceRow>)
    ensures TotalWorkers(a + b) == TotalWorkers(a) + TotalWorkers(b)
    decreases |a|
  {
    if a == [] {
      assert a + b == b;
    } else {
      assert (a + b)[0] == a[0];
      assert (a + b)[1..] == a[1..] + b;
      TotalWorkersAppend(a[1..], b);
    }
  }

  /** `query("facility_type == kind")['users_per_100k'].squeeze()`: a
      scalar only when exactly one row carries that kind. */
  function FacilityRate(fac: seq<FacilityRow>, kind: string): (r: Option<real>)
    ensures r.Some? <==> |Select(fac, (x: FacilityRow) => x.facilityType == kind)| == 1
    ensures r.Some? ==> exists i :: 0 <= i < |fac| && fac[i].facilityType == kind && fac[i].usersPer100k == r.value
  {
    var keep := (x: FacilityRow) => x.facilityType == kind;
    var matches := Select(fac, keep);
    if |matches| == 1 then
      SelectMembers(fac, keep, matches[0]);
      Some(matches[0].usersPer100k)
    else None
  }

  /** The six KPI cards. */
  datatype KeyIndicators = KeyIndicators(
    prevalence: Option<real>,
    incidence: Option<real>,
    ylds: Option<real>,
    workers: real,
    outpatients: Option<real>,
    inpatients: Option<real>)

  /** The KPI block of one render; none when the disorder table is empty,
      because its latest year is then undefined. */
  function ComputeIndicators(mh: seq<DisorderRow>, hr: seq<WorkforceRow>, fac: seq<FacilityRow>, f: MetricFilters): (r: Option<KeyIndicators>)
    ensures r.None? <==> mh == []
    ensures r.Some? ==> r.value.workers == Sum(PresentWorkers(hr))
    ensures r.Some? ==> var latest := LatestRows(mh, MaxYear(mh).value, f);
      && r.value.prevalence == Mean(Rates(latest, Prevalence))
      && r.value.incidence == Mean(Rates(latest, Incidence))
      && r.value.ylds == Mean(Rates(latest, Ylds))
    ensures r.Some? ==> r.value.outpatients == FacilityRate(fac, Outpatient)
    ensures r.Some? ==> r.value.inpatients == FacilityRate(fac, MentalHospitals)
  {
    match MaxYear(mh)
    case None => None
    case Some(maxYear) =>
      var latest := LatestRows(mh, maxYear, f);
      KpiIsMean(latest, Prevalence);
      KpiIsMean(latest, Incidence);
      KpiIsMean(latest, Ylds);
      TotalWorkersSumsPresent(hr);
      Some(KeyIndicators(
        Kpi(latest, Prevalence),
        Kpi(latest, Incidence),
        Kpi(latest, Ylds),
        TotalWorkers(hr),
        FacilityRate(fac, Outpatient),
        FacilityRate(fac, MentalHospitals)))
  }

  /** Two sexes selected, one row each, in the latest year: the prevalence
      card shows their mean, (1000 + 600) / 2 = 800. */
  lemma TwoSexesAveraged()
    ensures var female := DisorderRow(Lebanon, "Anxiety disorders", "Female", "All ages", 2021, 1000.0, 50.0, 100.0);
      var male := DisorderRow(Lebanon, "Anxiety disorders", "Male", "All ages", 2021, 600.0, 30.0, 60.0);
      var f := MetricFilters(["Anxiety disorders"], ["Female", "Male"], ["All ages"], 2021, 2021);
      ComputeIndicators([female, male], [], [], f).value.prevalence == Some(800.0)
  {
    var female := DisorderRow(Lebanon, "Anxiety disorders", "Female", "All ages", 2021, 1000.0, 50.0, 100.0);
    var male := DisorderRow(Lebanon, "Anxiety disorders", "Male", "All ages", 2021, 600.0, 30.0, 60.0);
    var f := MetricFilters(["Anxiety disorders"], ["Female", "Male"], ["All ages"], 2021, 2021);
    var mh := [female, male];
    assert MaxYear(mh) == Some(2021);
    var keep := (x: DisorderRow) => IsLatestMatch(x, 2021, f);
    assert keep(female) && keep(male);
    SelectAll(mh, keep);
    assert LatestRows(mh, 2021, f) == mh;
    var xs := Rates(mh, Prevalence);
    assert xs == [1000.0, 600.0];
    assert xs[1..] == [600.0] && xs[1..][1..] == [];
    assert Sum([600.0]) == 600.0 + Sum([]);
    assert Sum(xs) == 1000.0 + Sum([600.0]);
  }
}
