/** The header side of the five loaders: every header is normalised, then
    three of the loaders rename a few columns to the names the page uses.
    `DataFrame.rename(columns=m)` relabels every column whose label is a
    key of `m` and ignores keys that are not column labels. */
module Renames {
  import opened Optional
  import opened Headers

  function Relabel(h: string, m: map<string, string>): string {
    if h in m then m[h] else h
  }

  /** `df.rename(columns=m)` on the header row: every header that is a key
      of `m` takes its mapped name, every other header is kept, and keys
      that label no column have no effect. */
  function RenameColumns(cols: seq<string>, m: map<string, string>): (r: seq<string>)
    ensures |r| == |cols|
    ensures forall i :: 0 <= i < |cols| && cols[i] in m ==> r[i] == m[cols[i]]
    ensures forall i :: 0 <= i < |cols| && cols[i] !in m ==> r[i] == cols[i]
  {
    seq(|cols|, i requires 0 <= i < |cols| => Relabel(cols[i], m))
  }

  /** `df.columns` after the normalisation pipeline. */
  function NormalizeHeaders(raw: seq<string>): (r: seq<string>)
    ensures |r| == |raw|
    ensures forall i :: 0 <= i < |r| ==> IsNormalized(r[i])
    ensures forall i :: 0 <= i < |raw| ==> r[i] == Normalize(raw[i])
  {
    seq(|raw|, i requires 0 <= i < |raw| => Normalize(raw[i]))
  }

  /** Header `i` of a loaded table is raw header `i`, stripped and
      lower-cased, with each maximal run of `[ /-]` read as one `_`. */
  lemma NormalizeHeadersMarkRuns(raw: seq<string>)
    ensures forall i :: 0 <= i < |raw| ==> NormalizeHeaders(raw)[i] == MarkRuns(Lower(Strip(raw[i])), false)
  {
    forall i | 0 <= i < |raw|
      ensures NormalizeHeaders(raw)[i] == MarkRuns(Lower(Strip(raw[i])), false)
    {
      NormalizeMarksRuns(raw[i]);
    }
  }

  // ---------------------------------------------------------------------
  // Facilities

  const UsersColumn := "nb_of_users_per_100000"
  const UsersRenamed := "users_per_100k"

  /** Facilities: `nb_of_users_per_100000` becomes `users_per_100k` when
      present; no other header changes. */
  function RenameFacilities(cols: seq<string>): (r: seq<string>)
    ensures |r| == |cols|
    ensures forall i :: 0 <= i < |cols| ==> r[i] == if cols[i] == UsersColumn then UsersRenamed else cols[i]
    ensures UsersColumn !in r
    ensures UsersColumn in cols ==> UsersRenamed in r
  {
    if UsersColumn in cols then
      var r := RenameColumns(cols, map[UsersColumn := UsersRenamed]);
      var i :| 0 <= i < |cols| && cols[i] == UsersColumn;
      assert r[i] == UsersRenamed;
      r
    else cols
  }

  /** The presence test before the facilities rename changes nothing:
      renaming unconditionally gives the same header row. */
  lemma FacilitiesGuardRedundant(cols: seq<string>)
    ensures RenameFacilities(cols) == RenameColumns(cols, map[UsersColumn := UsersRenamed])
  {
  }

  // ---------------------------------------------------------------------
  // Workforce

  const PositionColumn := "position"
  const StaffColumn := "nb_staff_per_100000"
  const ProfessionColumn := "profession"
  const WorkersColumn := "workers_per_100k"

  const HrRenames: map<string, string> := map[PositionColumn := ProfessionColumn, StaffColumn := WorkersColumn]

  /** Workforce: `position` and `nb_staff_per_100000` are renamed to
      `profession` and `workers_per_100k`, but only when both are present;
      with either one missing the header row is left untouched. */
  function RenameWorkforce(cols: seq<string>): (r: seq<string>)
    ensures |r| == |cols|
    ensures PositionColumn in cols && StaffColumn in cols ==>
      && (forall i :: 0 <= i < |cols| ==> r[i] == if cols[i] == PositionColumn then ProfessionColumn
                                                  else if cols[i] == StaffColumn then WorkersColumn
                                                  else cols[i])
      && ProfessionColumn in r && WorkersColumn in r
      && PositionColumn !in r && StaffColumn !in r
    ensures !(PositionColumn in cols && StaffColumn in cols) ==> r == cols
  {
    if PositionColumn in cols && StaffColumn in cols then
      var r := RenameColumns(cols, HrRenames);
      var i :| 0 <= i < |cols| && cols[i] == PositionColumn;
      var j :| 0 <= j < |cols| && cols[j] == StaffColumn;
      assert r[i] == ProfessionColumn && r[j] == WorkersColumn;
      r
    else cols
  }

  /** Unlike the facilities guard, the workforce guard matters: a table
      with `position` but no staff column keeps its `position` header. */
  lemma WorkforceGuardMatters()
    ensures RenameWorkforce([PositionColumn, "x"]) == [PositionColumn, "x"]
    ensures RenameColumns([PositionColumn, "x"], HrRenames) == [ProfessionColumn, "x"]
  {
  }

  // ---------------------------------------------------------------------
  // Suicide risk

  const DisorderColumn := "disorder"
  const OddsRatioColumn := "or"

  /** Suicide risk: `rename(columns={cols[0]: 'disorder', cols[1]: 'or'})`.
      This is a rename by LABEL: every column carrying the first label is
      renamed, and when the first two labels coincide the dictionary keeps
      only its later entry. With fewer than two columns the indexing fails. */
  function RenameSuicide(cols: seq<string>): (r: Option<seq<string>>)
    ensures r.None? <==> |cols| < 2
    ensures r.Some? ==> |r.value| == |cols| && r.value[1] == OddsRatioColumn
    ensures r.Some? && cols[0] != cols[1] ==> r.value[0] == DisorderColumn
    ensures r.Some? ==> forall i :: 0 <= i < |cols| && cols[i] != cols[0] && cols[i] != cols[1] ==> r.value[i] == cols[i]
    ensures r.Some? ==> forall i :: 0 <= i < |cols| && cols[i] == cols[1] ==> r.value[i] == OddsRatioColumn
    ensures r.Some? && cols[0] != cols[1] ==> forall i :: 0 <= i < |cols| && cols[i] == cols[0] ==> r.value[i] == DisorderColumn
  {
    if |cols| < 2 then None
    else Some(RenameColumns(cols, map[cols[0] := DisorderColumn][cols[1] := OddsRatioColumn]))
  }

  /** When the first two labels occur nowhere else, the label rename is the
      positional one: position 0 becomes `disorder`, position 1 becomes
      `or`, and every later header is unchanged. */
  lemma SuicidePositional(cols: seq<string>)
    requires |cols| >= 2
    requires cols[0] != cols[1]
    requires forall i :: 2 <= i < |cols| ==> cols[i] != cols[0] && cols[i] != cols[1]
    ensures RenameSuicide(cols) == Some([DisorderColumn, OddsRatioColumn] + cols[2..])
  {
    var r := RenameSuicide(cols).value;
    var expected := [DisorderColumn, OddsRatioColumn] + cols[2..];
    assert |r| == |expected|;
    assert forall i :: 0 <= i < |r| ==> r[i] == expected[i];
    assert r == expected;
  }

  /** `"A B"` normalises to `a_b`. */
  lemma NormalizeSpacedHeader()
    ensures Normalize("A B") == "a_b"
  {
    var h := "A B";
    StripKeepsTrimmed(h);
    var low := Lower(h);
    assert low == "a b";
    assert low[1..] == " b";
    assert SeparatorRun(" b") == 1;
    assert CollapseSeparators(" b") == "_b";
  }

  /** `"a-b"` normalises to `a_b` too, so the two collide. */
  lemma NormalizeHyphenatedHeader()
    ensures Normalize("a-b") == "a_b"
  {
    var h := "a-b";
    StripKeepsTrimmed(h);
    var low := Lower(h);
    assert low == h;
    assert h[1..] == "-b";
    assert SeparatorRun("-b") == 1;
    assert CollapseSeparators("-b") == "_b";
  }

  /** With the first two labels equal, the dictionary keeps only
      `cols[1] -> 'or'`: every column carrying that label is called `or`,
      none is called `disorder`, and the other headers are kept. */
  lemma SuicideRepeatedLabel(cols: seq<string>)
    requires |cols| >= 2 && cols[0] == cols[1]
    ensures RenameSuicide(cols).Some?
    ensures var r := RenameSuicide(cols).value;
      && r[0] == OddsRatioColumn && r[1] == OddsRatioColumn
      && forall i :: 0 <= i < |cols| ==> r[i] == if cols[i] == cols[0] then OddsRatioColumn else cols[i]
  {
  }

  /** The two headers `"A B"` and `"a-b"` both load as `or`. */
  lemma SuicideMergedHeaders()
    ensures SuicideHeaders(["A B", "a-b"]) == Some([OddsRatioColumn, OddsRatioColumn])
  {
    var raw := ["A B", "a-b"];
    NormalizeSpacedHeader();
    NormalizeHyphenatedHeader();
    SuicideCollidingPair(NormalizeHeaders(raw));
  }

  /** A two-column header row whose labels coincide renames to two `or`s. */
  lemma SuicideCollidingPair(cols: seq<string>)
    requires |cols| == 2 && cols[0] == cols[1]
    ensures RenameSuicide(cols) == Some([OddsRatioColumn, OddsRatioColumn])
  {
    var r := RenameSuicide(cols).value;
    assert r[0] == OddsRatioColumn && r[1] == OddsRatioColumn;
    assert r == [OddsRatioColumn, OddsRatioColumn];
  }

  // ---------------------------------------------------------------------
  // Risk factors

  const RiskFactorRenames: map<string, string> := map[
    "val" := "ylds_rate_per_100k",
    "upper" := "ci_upper",
    "lower" := "ci_lower",
    "risk" := "risk_factor"]

  /** Risk factors: `val`, `upper`, `lower`, `risk` are renamed wherever
      they occur; absent keys are ignored; every other header is kept. */
  function RenameRiskFactors(cols: seq<string>): (r: seq<string>)
    ensures |r| == |cols|
    ensures forall i :: 0 <= i < |cols| && cols[i] !in RiskFactorRenames ==> r[i] == cols[i]
    ensures forall i :: 0 <= i < |cols| && cols[i] in RiskFactorRenames ==> r[i] == RiskFactorRenames[cols[i]]
    ensures forall i :: 0 <= i < |r| ==> r[i] !in RiskFactorRenames
  {
    RenameColumns(cols, RiskFactorRenames)
  }

  /** A header row holding none of the four keys comes back unchanged. */
  lemma RiskFactorsAbsentKeysIgnored(cols: seq<string>)
    requires forall i :: 0 <= i < |cols| ==> cols[i] !in RiskFactorRenames
    ensures RenameRiskFactors(cols) == cols
  {
  }

  // ---------------------------------------------------------------------
  // The loaders' header rows

  /** Disorder loader: normalisation only. */
  function DisorderHeaders(raw: seq<string>): (r: seq<string>)
    ensures |r| == |raw|
    ensures forall i :: 0 <= i < |r| ==> IsNormalized(r[i])
    ensures forall i :: 0 <= i < |raw| ==> r[i] == Normalize(raw[i])
  {
    NormalizeHeaders(raw)
  }

  /** Facilities loader: normalisation, then the users-rate rename. */
  function FacilityHeaders(raw: seq<string>): (r: seq<string>)
    ensures |r| == |raw|
    ensures UsersColumn !in r
    ensures forall i :: 0 <= i < |raw| ==> r[i] == if Normalize(raw[i]) == UsersColumn then UsersRenamed else Normalize(raw[i])
  {
    RenameFacilities(NormalizeHeaders(raw))
  }

  /** Workforce loader: normalisation, then the guarded pair rename. */
  function WorkforceHeaders(raw: seq<string>): (r: seq<string>)
    ensures |r| == |raw|
    ensures var cols := NormalizeHeaders(raw);
      !(PositionColumn in cols && StaffColumn in cols) ==> r == cols
    ensures var cols := NormalizeHeaders(raw);
      PositionColumn in cols && StaffColumn in cols ==>
      ProfessionColumn in r && WorkersColumn in r && PositionColumn !in r && StaffColumn !in r
    ensures var cols := NormalizeHeaders(raw);
      PositionColumn in cols && StaffColumn in cols ==>
      forall i :: 0 <= i < |raw| ==>
        r[i] == if Normalize(raw[i]) == PositionColumn then ProfessionColumn
                else if Normalize(raw[i]) == StaffColumn then WorkersColumn
                else Normalize(raw[i])
  {
    var cols := NormalizeHeaders(raw);
    var r := RenameWorkforce(cols);
    r
  }

  /** Suicide-risk loader: normalisation, then the rename keyed by the
      first two labels; fewer than two columns is an error. */
  function SuicideHeaders(raw: seq<string>): (r: Option<seq<string>>)
    ensures r.None? <==> |raw| < 2
    ensures r.Some? ==> |r.value| == |raw| && r.value[1] == OddsRatioColumn
    ensures r.Some? && Normalize(raw[0]) != Normalize(raw[1]) ==> r.value[0] == DisorderColumn
    ensures r.Some? ==> forall i :: 0 <= i < |raw| ==>
      r.value[i] == if Normalize(raw[i]) == Normalize(raw[1]) then OddsRatioColumn
                    else if Normalize(raw[i]) == Normalize(raw[0]) then DisorderColumn
                    else Normalize(raw[i])
  {
    RenameSuicide(NormalizeHeaders(raw))
  }

  /** Risk-factor loader: normalisation, then the four-key rename. */
  function RiskFactorHeaders(raw: seq<string>): (r: seq<string>)
    ensures |r| == |raw|
    ensures forall i :: 0 <= i < |r| ==> r[i] !in RiskFactorRenames
    ensures forall i :: 0 <= i < |raw| && Normalize(raw[i]) !in RiskFactorRenames ==> r[i] == Normalize(raw[i])
    ensures forall i :: 0 <= i < |raw| && Normalize(raw[i]) in RiskFactorRenames ==> r[i] == RiskFactorRenames[Normalize(raw[i])]
  {
    RenameRiskFactors(NormalizeHeaders(raw))
  }

  predicate AllNormalized(cols: seq<string>) {
    forall i :: 0 <= i < |cols| ==> IsNormalized(cols[i])
  }

  /** Renaming normalised headers to normalised names keeps them normalised. */
  lemma RenamePreservesNormalized(cols: seq<string>, m: map<string, string>)
    requires AllNormalized(cols)
    requires forall h :: h in m ==> IsNormalized(m[h])
    ensures AllNormalized(RenameColumns(cols, m))
  {
  }

  lemma RenameTargetsNormalized()
    ensures IsNormalized(UsersRenamed)
    ensures IsNormalized(ProfessionColumn) && IsNormalized(WorkersColumn)
    ensures IsNormalized(DisorderColumn) && IsNormalized(OddsRatioColumn)
    ensures forall h :: h in RiskFactorRenames ==> IsNormalized(RiskFactorRenames[h])
  {
    assert IsNormalized("ylds_rate_per_100k");
    assert IsNormalized("ci_upper");
    assert IsNormalized("ci_lower");
    assert IsNormalized("risk_factor");
  }

  lemma FacilityHeadersNormalized(raw: seq<string>)
    ensures AllNormalized(FacilityHeaders(raw))
  {
    var cols := NormalizeHeaders(raw);
    RenameTargetsNormalized();
    FacilitiesGuardRedundant(cols);
    RenamePreservesNormalized(cols, map[UsersColumn := UsersRenamed]);
  }

  lemma WorkforceHeadersNormalized(raw: seq<string>)
    ensures AllNormalized(WorkforceHeaders(raw))
  {
    var cols := NormalizeHeaders(raw);
    RenameTargetsNormalized();
    RenamePreservesNormalized(cols, HrRenames);
  }

  lemma SuicideHeadersNormalized(raw: seq<string>)
    ensures SuicideHeaders(raw).Some? ==> AllNormalized(SuicideHeaders(raw).value)
  {
    var cols := NormalizeHeaders(raw);
    if |cols| >= 2 {
      RenameTargetsNormalized();
      RenamePreservesNormalized(cols, map[cols[0] := DisorderColumn][cols[1] := OddsRatioColumn]);
    }
  }

  lemma RiskFactorHeadersNormalized(raw: seq<string>)
    ensures AllNormalized(RiskFactorHeaders(raw))
  {
    var cols := NormalizeHeaders(raw);
    RenameTargetsNormalized();
    RenamePreservesNormalized(cols, RiskFactorRenames);
  }

  /** Every loader hands the page normalised headers: lower-case, without
      outer whitespace, and without space, '/' or '-'; the rename targets
      are themselves in that form. */
  lemma LoadersYieldNormalizedHeaders(raw: seq<string>)
    ensures AllNormalized(DisorderHeaders(raw))
    ensures AllNormalized(FacilityHeaders(raw))
    ensures AllNormalized(WorkforceHeaders(raw))
    ensures SuicideHeaders(raw).Some? ==> AllNormalized(SuicideHeaders(raw).value)
    ensures AllNormalized(RiskFactorHeaders(raw))
  {
    FacilityHeadersNormalized(raw);
    WorkforceHeadersNormalized(raw);
    SuicideHeadersNormalized(raw);
    RiskFactorHeadersNormalized(raw);
  }
}
