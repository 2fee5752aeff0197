/** The five tables the dashboard loads, one record type per row, with the
    column names they carry after normalisation and renaming; and the
    widget values the page reads back on every render. */
module Records {
  import opened Optional

  /** A row of the disorder table (`dataset_mh_disorders_v2.csv`). */
  datatype DisorderRow = DisorderRow(
    country: string,
    cause: string,
    sex: string,
    age: string,
    year: int,
    prevalenceRate: real,
    incidenceRate: real,
    yldsRate: real)

  /** The three rate columns a KPI card or the main chart can show. */
  datatype Metric = Prevalence | Incidence | Ylds

  function Rate(row: DisorderRow, m: Metric): real {
    match m
    case Prevalence => row.prevalenceRate
    case Incidence => row.incidenceRate
    case Ylds => row.yldsRate
  }

  /** A row of the facility table: `facility_type`, `users_per_100k`. */
  datatype FacilityRow = FacilityRow(facilityType: string, usersPer100k: real)

  /** A row of the workforce table: `profession`, `workers_per_100k`.
      Either cell may be empty in the file (pandas NaN), hence `Option`. */
  datatype WorkforceRow = WorkforceRow(profession: Option<string>, workersPer100k: Option<real>)

  /** A row of the suicide-risk table: `disorder`, odds ratio `or`,
      `ci_lower`, `ci_higher`. */
  datatype SuicideRiskRow = SuicideRiskRow(disorder: string, oddsRatio: real, ciLower: real, ciHigher: real)

  /** A row of the risk-factor table after its rename. */
  datatype RiskFactorRow = RiskFactorRow(
    cause: string,
    riskFactor: string,
    sex: string,
    age: string,
    yldsRatePer100k: real,
    ciLower: real,
    ciUpper: real)

  /** The sidebar selections for the disorder metrics: the disorder, sex
      and age multiselects and the two ends of the year slider. */
  datatype MetricFilters = MetricFilters(
    causes: seq<string>,
    sexes: seq<string>,
    ages: seq<string>,
    yearFrom: int,
    yearTo: int)

  /** The sidebar selections for the risk-factor chart. */
  datatype RiskFilters = RiskFilters(causes: seq<string>, riskFactors: seq<string>, sexes: seq<string>)
}
