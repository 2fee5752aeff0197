/** The data handed to the charts and the workforce table: the main
    Global-vs-Lebanon bar chart, the suicide-risk interval chart's axis
    bound, the workforce table, and the risk-factor bar chart. Chart
    encodings and rendering belong to the charting library. */
module Charts {
  import opened Optional
  import opened Records
  import opened Filtering
  import opened Stats
  import opened Legends
  import Renames
  import Indicators

  const GlobalCountry := "Global"

  // ---------------------------------------------------------------------
  // Main chart

  /** A row of the main chart's data with its `Legend` column. */
  datatype PlotRow = PlotRow(row: DisorderRow, legend: string)

  /** The main chart's mask: Lebanon or Global, the selected causes, sexes
      and ages, and a year inside the slider range, both ends included. */
  predicate IsMainChartRow(row: DisorderRow, f: MetricFilters) {
    && (row.country == Indicators.Lebanon || row.country == GlobalCountry)
    && row.cause in f.causes
    && row.sex in f.sexes
    && row.age in f.ages
    && f.yearFrom <= row.year <= f.yearTo
  }

  /** `country + " | " + sex + " | " + age`. */
  function DisorderLegend(row: DisorderRow): (s: string)
    ensures s == row.country + " | " + row.sex + " | " + row.age
  {
    JoinTriple(row.country, row.sex, row.age);
    JoinFields([row.country, row.sex, row.age])
  }

  function PlotRowsOf(plot: seq<PlotRow>): seq<DisorderRow> {
    Project(plot, (p: PlotRow) => p.row)
  }

  /** The main chart's data: the masked rows, in table order, each with
      its legend key. */
  function MainChartData(rows: seq<DisorderRow>, f: MetricFilters): (r: seq<PlotRow>)
    ensures forall i :: 0 <= i < |r| ==> IsMainChartRow(r[i].row, f)
    ensures forall i :: 0 <= i < |r| ==> r[i].legend == r[i].row.country + " | " + r[i].row.sex + " | " + r[i].row.age
    ensures PlotRowsOf(r) == Select(rows, (x: DisorderRow) => IsMainChartRow(x, f))
  {
    var sel := Select(rows, (x: DisorderRow) => IsMainChartRow(x, f));
    var r := seq(|sel|, i requires 0 <= i < |sel| => PlotRow(sel[i], DisorderLegend(sel[i])));
    assert PlotRowsOf(r) == sel;
    r
  }

  /** The main chart shows exactly the masked rows, each as often as in
      the table and in table order. */
  lemma MainChartDataExact(rows: seq<DisorderRow>, f: MetricFilters, row: DisorderRow)
    ensures row in PlotRowsOf(MainChartData(rows, f)) <==> row in rows && IsMainChartRow(row, f)
    ensures multiset(PlotRowsOf(MainChartData(rows, f)))[row] == if IsMainChartRow(row, f) then multiset(rows)[row] else 0
    ensures IsSubsequence(PlotRowsOf(MainChartData(rows, f)), rows)
  {
    var keep := (x: DisorderRow) => IsMainChartRow(x, f);
    SelectMembers(rows, keep, row);
    SelectCounts(rows, keep, row);
    SelectOrdered(rows, keep);
  }

  /** When country, sex and age contain no '|', a legend key of the main
      chart names its series unambiguously: it splits back into them. */
  lemma MainChartLegendSplits(rows: seq<DisorderRow>, f: MetricFilters, i: int)
    requires 0 <= i < |MainChartData(rows, f)|
    requires var row := MainChartData(rows, f)[i].row; '|' !in row.country && '|' !in row.sex && '|' !in row.age
    ensures var p := MainChartData(rows, f)[i];
      SplitFields(p.legend) == [p.row.country, p.row.sex, p.row.age]
  {
    var p := MainChartData(rows, f)[i];
    SplitJoin([p.row.country, p.row.sex, p.row.age]);
  }

  // ---------------------------------------------------------------------
  // Suicide-risk interval chart

  /** The ratio between the axis bound and the largest `ci_higher`. */
  const AxisPadding: real := 1.1

  function CiHighers(rows: seq<SuicideRiskRow>): seq<real> {
    Project(rows, (row: SuicideRiskRow) => row.ciHigher)
  }

  /** Upper end of the x-axis: 1.1 times the largest `ci_higher` of the
      whole table; none for an empty table (pandas: NaN). */
  function ErrorBarUpperBound(rows: seq<SuicideRiskRow>): (r: Option<real>)
    ensures r.None? <==> rows == []
    ensures r.Some? ==> exists i :: 0 <= i < |rows| && r.value == AxisPadding * rows[i].ciHigher
    ensures r.Some? ==> forall i :: 0 <= i < |rows| ==> AxisPadding * rows[i].ciHigher <= r.value
  {
    var xs := CiHighers(rows);
    match MaxReal(xs)
    case None => None
    case Some(m) =>
      var j :| 0 <= j < |xs| && xs[j] == m;
      assert rows[j].ciHigher == m;
      assert forall i :: 0 <= i < |rows| ==> rows[i].ciHigher == xs[i] <= m;
      Some(AxisPadding * m)
  }

  /** With non-negative intervals, every interval ends inside `[0, bound]`. */
  lemma IntervalsFitAxis(rows: seq<SuicideRiskRow>)
    requires rows != []
    requires forall i :: 0 <= i < |rows| ==> 0.0 <= rows[i].ciLower <= rows[i].ciHigher
    ensures forall i :: 0 <= i < |rows| ==> 0.0 <= rows[i].ciLower && rows[i].ciHigher <= ErrorBarUpperBound(rows).value
  {
  }

  // ---------------------------------------------------------------------
  // Workforce table

  /** A row of the displayed workforce table. */
  datatype DisplayRow = DisplayRow(profession: string, workers: real)

  const HrDisplayRenames: map<string, string> := map[
    Renames.ProfessionColumn := "Profession",
    Renames.WorkersColumn := "Workers per 100k"]

  /** The displayed table's two headers: the selected columns, relabelled. */
  function HrDisplayHeaders(): (r: seq<string>)
    ensures r == ["Profession", "Workers per 100k"]
  {
    Renames.RenameColumns([Renames.ProfessionColumn, Renames.WorkersColumn], HrDisplayRenames)
  }

  /** `hr_df[['profession', 'workers_per_100k']].dropna()` with a fresh
      index: the rows holding both values, in table order. */
  function HrDisplayRows(hr: seq<WorkforceRow>): (r: seq<DisplayRow>)
    ensures |r| <= |hr|
    ensures forall i :: 0 <= i < |r| ==> exists j :: 0 <= j < |hr| && hr[j] == WorkforceRow(Some(r[i].profession), Some(r[i].workers))
  {
    if hr == [] then []
    else
      var rest := HrDisplayRows(hr[1..]);
      assert forall i :: 0 <= i < |rest| ==> exists j :: 0 <= j < |hr| && hr[j] == WorkforceRow(Some(rest[i].profession), Some(rest[i].workers)) by {
        forall i | 0 <= i < |rest|
          ensures exists j :: 0 <= j < |hr| && hr[j] == WorkforceRow(Some(rest[i].profession), Some(rest[i].workers))
        {
          var j :| 0 <= j < |hr[1..]| && hr[1..][j] == WorkforceRow(Some(rest[i].profession), Some(rest[i].workers));
          assert hr[j + 1] == hr[1..][j];
        }
      }
      match (hr[0].profession, hr[0].workersPer100k)
      case (Some(p), Some(w)) => [DisplayRow(p, w)] + rest
      case _ => rest
  }

  /** Every source row holding both values is displayed. */
  lemma {:induction false} HrDisplayKeepsCompleteRows(hr: seq<WorkforceRow>, j: int)
    requires 0 <= j < |hr|
    requires hr[j].profession.Some? && hr[j].workersPer100k.Some?
    ensures DisplayRow(hr[j].profession.value, hr[j].workersPer100k.value) in HrDisplayRows(hr)
    decreases |hr|
  {
    if j > 0 {
      HrDisplayKeepsCompleteRows(hr[1..], j - 1);
      assert hr[1..][j - 1] == hr[j];
    }
  }

  /** `dropna` keeps a workforce row when both of its cells hold a value. */
  predicate IsComplete(row: WorkforceRow) {
    row.profession.Some? && row.workersPer100k.Some?
  }

  /** The workforce row a displayed row was read from. */
  function SourceRow(d: DisplayRow): WorkforceRow {
    WorkforceRow(Some(d.profession), Some(d.workers))
  }

  function SourcesOf(rows: seq<DisplayRow>): seq<WorkforceRow> {
    Project(rows, SourceRow)
  }

  /** The displayed rows, read back as workforce rows, are exactly the
      `dropna` selection of the table. */
  lemma {:induction false} HrDisplayIsDropna(hr: seq<WorkforceRow>)
    ensures SourcesOf(HrDisplayRows(hr)) == Select(hr, IsComplete)
    decreases |hr|
  {
    if hr != [] {
      HrDisplayIsDropna(hr[1..]);
      var rest := HrDisplayRows(hr[1..]);
      if IsComplete(hr[0]) {
        var d := DisplayRow(hr[0].profession.value, hr[0].workersPer100k.value);
        assert HrDisplayRows(hr) == [d] + rest;
        assert SourceRow(d) == hr[0];
        assert SourcesOf([d] + rest) == [hr[0]] + SourcesOf(rest);
      } else {
        assert HrDisplayRows(hr) == rest;
      }
    }
  }

  /** The displayed table holds each complete row as often as the table
      does, no incomplete row, and keeps table order. */
  lemma HrDisplayRowsExact(hr: seq<WorkforceRow>, row: WorkforceRow)
    ensures row in SourcesOf(HrDisplayRows(hr)) <==> row in hr && IsComplete(row)
    ensures multiset(SourcesOf(HrDisplayRows(hr)))[row] == if IsComplete(row) then multiset(hr)[row] else 0
    ensures IsSubsequence(SourcesOf(HrDisplayRows(hr)), hr)
  {
    HrDisplayIsDropna(hr);
    SelectMembers(hr, IsComplete, row);
    SelectCounts(hr, IsComplete, row);
    SelectOrdered(hr, IsComplete);
  }

  function DisplayedWorkers(rows: seq<DisplayRow>): seq<real> {
    Project(rows, (d: DisplayRow) => d.workers)
  }

  /** When every row names its profession, the displayed column adds up to
      the workforce KPI card. */
  lemma {:induction false} HrDisplayAddsUpToTotal(hr: seq<WorkforceRow>)
    requires forall j :: 0 <= j < |hr| ==> hr[j].profession.Some?
    ensures Sum(DisplayedWorkers(HrDisplayRows(hr))) == Indicators.TotalWorkers(hr)
    decreases |hr|
  {
    if hr != [] {
      HrDisplayAddsUpToTotal(hr[1..]);
      var rest := HrDisplayRows(hr[1..]);
      match hr[0].workersPer100k
      case Some(w) =>
        var d := DisplayRow(hr[0].profession.value, w);
        assert HrDisplayRows(hr) == [d] + rest;
        var xs := DisplayedWorkers([d] + rest);
        assert xs[0] == w && xs[1..] == DisplayedWorkers(rest);
      case None =>
        assert HrDisplayRows(hr) == rest;
    }
  }

  // ---------------------------------------------------------------------
  // Risk-factor chart

  /** A row of the risk-factor chart's data with its `Legend` column. */
  datatype RiskPlotRow = RiskPlotRow(row: RiskFactorRow, legend: string)

  /** The risk-factor chart's mask: cause, risk factor and sex among the
      selected values. */
  predicate IsRiskChartRow(row: RiskFactorRow, f: RiskFilters) {
    && row.cause in f.causes
    && row.riskFactor in f.riskFactors
    && row.sex in f.sexes
  }

  /** `risk_factor + " | " + sex`. */
  function RiskLegend(row: RiskFactorRow): (s: string)
    ensures s == row.riskFactor + " | " + row.sex
  {
    JoinPair(row.riskFactor, row.sex);
    JoinFields([row.riskFactor, row.sex])
  }

  function RiskRowsOf(plot: seq<RiskPlotRow>): seq<RiskFactorRow> {
    Project(plot, (p: RiskPlotRow) => p.row)
  }

  /** The risk-factor chart's data: the masked rows, in table order, each
      with its legend key. */
  function RiskChartData(rows: seq<RiskFactorRow>, f: RiskFilters): (r: seq<RiskPlotRow>)
    ensures forall i :: 0 <= i < |r| ==> IsRiskChartRow(r[i].row, f)
    ensures forall i :: 0 <= i < |r| ==> r[i].legend == r[i].row.riskFactor + " | " + r[i].row.sex
    ensures RiskRowsOf(r) == Select(rows, (x: RiskFactorRow) => IsRiskChartRow(x, f))
  {
    var sel := Select(rows, (x: RiskFactorRow) => IsRiskChartRow(x, f));
    var r := seq(|sel|, i requires 0 <= i < |sel| => RiskPlotRow(sel[i], RiskLegend(sel[i])));
    assert RiskRowsOf(r) == sel;
    r
  }

  /** The risk-factor chart shows exactly the masked rows, each as often
      as in the table and in table order. */
  lemma RiskChartDataExact(rows: seq<RiskFactorRow>, f: RiskFilters, row: RiskFactorRow)
    ensures row in RiskRowsOf(RiskChartData(rows, f)) <==> row in rows && IsRiskChartRow(row, f)
    ensures multiset(RiskRowsOf(RiskChartData(rows, f)))[row] == if IsRiskChartRow(row, f) then multiset(rows)[row] else 0
    ensures IsSubsequence(RiskRowsOf(RiskChartData(rows, f)), rows)
  {
    var keep := (x: RiskFactorRow) => IsRiskChartRow(x, f);
    SelectMembers(rows, keep, row);
    SelectCounts(rows, keep, row);
    SelectOrdered(rows, keep);
  }

  /** When risk factor and sex contain no '|', a risk-factor legend key
      splits back into them. */
  lemma RiskLegendSplits(rows: seq<RiskFactorRow>, f: RiskFilters, i: int)
    requires 0 <= i < |RiskChartData(rows, f)|
    requires var row := RiskChartData(rows, f)[i].row; '|' !in row.riskFactor && '|' !in row.sex
    ensures var p := RiskChartData(rows, f)[i];
      SplitFields(p.legend) == [p.row.riskFactor, p.row.sex]
  {
    var p := RiskChartData(rows, f)[i];
    SplitJoin([p.row.riskFactor, p.row.sex]);
  }
}
