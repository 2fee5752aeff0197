# Mental-health dashboard: data-preparation model

A Dafny model of the data-preparation layer of the mental-health dashboard,
`dashboard_template.py`. The dashboard loads five CSV tables: disorder
epidemiology, mental-health facilities, health-care workforce, suicide risk
by disorder, and risk factors. It normalises their column headers and
renames a few columns. It then derives six key indicators and the data
behind three charts and one table. Page layout and rendering belong to
Streamlit and Altair and are not modelled.

Modules, one file each:

- `Optional` (`optional.dfy`): `Option`, the model's stand-in for pandas' NaN and for the scalar that cannot be extracted.
- `Headers` (`headers.dfy`): `str.strip()`, `str.lower()` and the regex replacement of `[ /-]+` by `_`, with a character-by-character reference reading of the replacement.
- `Renames` (`renames.dfy`): `DataFrame.rename(columns=...)` and the header row each loader produces.
- `Filtering` (`filtering.dfy`): boolean-mask row selection that keeps order (`df[mask]`, `df.query`).
- `Stats` (`stats.dfy`): exact-real `sum`, `mean`, `min`, `max`.
- `Records` (`records.dfy`): one row datatype per table, plus the sidebar selections.
- `Legends` (`legends.dfy`): composite legend keys `a + " | " + b + ...` and their inverse split.
- `Indicators` (`indicators.dfy`): the latest year, the KPI query, the single-row-or-mean rule, the workforce total and the facility rates.
- `Charts` (`charts.dfy`): the main chart's rows and legends, the error-bar axis bound, the workforce display table, and the risk-factor chart's rows and legends.

Rates are Dafny `real`s, so sums and means are exact. Characters are ASCII for case mapping and whitespace.

Behaviour of the code that the model makes explicit:

- The suicide loader's rename (`dashboard_template.py:54`) is keyed by the first two labels, not by position. It is a dictionary rename: every column carrying the first label becomes `disorder`, and every column carrying the second becomes `or`. When the first two labels are equal, the dictionary keeps only its later entry, so every column with that label becomes `or` and none becomes `disorder`. `Renames.RenameSuicide` models this. `Renames.SuicidePositional` proves that it matches a positional rename when the two labels occur nowhere else, and `Renames.SuicideRepeatedLabel` covers equal labels. Normalisation can make labels equal: `"A B"` and `"a-b"` both become `a_b` (`Renames.NormalizeSpacedHeader`, `Renames.NormalizeHyphenatedHeader`), so such a file loads with two `or` columns (`Renames.SuicideMergedHeaders`).
- The presence test before the facilities rename (`dashboard_template.py:28`) has no effect, because `rename` ignores absent keys (`Renames.FacilitiesGuardRedundant`). The workforce test at line 41 does have an effect (`Renames.WorkforceGuardMatters`).
- A KPI query that matches no rows has no value (pandas gives NaN): `None`. An empty disorder table has no latest year, and the page fails at `int(NaN)`. `Indicators.ComputeIndicators` returns `None` in that case.

## Model

| member | source | states |
|---|---|---|
| Headers.Normalize | dashboard_template.py:11-16 | A normalised header has no space, '/' or '-', no ASCII upper-case letter, and no leading or trailing whitespace. It is empty exactly when the raw header is all whitespace. |
| Headers.Strip | dashboard_template.py:13 | The stripped header has no whitespace at either end. It is empty exactly when the input is all whitespace. The input is the result padded with whitespace on both sides. |
| Headers.Lower | dashboard_template.py:14 | Lower-casing keeps the length and leaves no ASCII upper-case letter. Each upper-case letter becomes the letter 32 code points higher, and every other character stays as it was. |
| Headers.CollapseSeparators | dashboard_template.py:15 | After the regex replacement, no separator remains. Every character is `_` or comes from the input. The result is empty exactly when the input is. |
| Headers.CollapseMatchesMarkRuns | dashboard_template.py:15 | The left-to-right regex replacement equals the character-wise reading. A separator that starts a maximal run becomes exactly one `_`, the rest of the run vanishes, and every other character is kept in order. |
| Headers.CollapseKeepsResidue | dashboard_template.py:15 | The replacement keeps every character outside `[ /-_]` in its original order. |
| Headers.CollapseEnds | dashboard_template.py:15 | The first and last characters of the replacement are the input's, with a separator at either end turned into `_`. |
| Headers.NormalizeKeepsOtherCharacters | dashboard_template.py:11-16 | Normalisation keeps every character of the stripped header outside `[ /-_]`, lower-cased, in order. |
| Headers.NormalizeMarksRuns | dashboard_template.py:11-16 | A normalised header is the stripped, lower-cased header with each maximal separator run replaced by one `_`. |
| Headers.NormalizeKeepsNormalized | dashboard_template.py:11-16 | A header already in normal form is unchanged by normalisation. |
| Headers.NormalizeIdempotent | dashboard_template.py:11-16 | Normalising twice gives the same header as normalising once. |
| Renames.NormalizeHeaders | dashboard_template.py:22-27 | Header `i` of a loaded table is raw header `i` normalised, one for one. Every loaded header is in normal form. |
| Renames.NormalizeHeadersMarkRuns | dashboard_template.py:11-16 | Header `i` of a loaded table is raw header `i`, stripped and lower-cased, with each maximal run of space, '/' or '-' read as one `_`. |
| Renames.RenameColumns | dashboard_template.py:29 | `rename(columns=m)`: a header that is a key of `m` takes its mapped name, every other header is kept, and keys that label no column have no effect. |
| Renames.RenameFacilities | dashboard_template.py:28-29 | Only `nb_of_users_per_100000` changes, to `users_per_100k`. Afterwards the old name is gone, and the new one is present when the old one was. |
| Renames.FacilitiesGuardRedundant | dashboard_template.py:28-29 | The guarded rename equals the unguarded rename for every header row. |
| Renames.RenameWorkforce | dashboard_template.py:41-42 | With both `position` and `nb_staff_per_100000` present, exactly those become `profession` and `workers_per_100k`. Otherwise the header row is unchanged. |
| Renames.WorkforceGuardMatters | dashboard_template.py:41-42 | With `position` present but no staff column, no rename happens, although an unguarded rename would change the header. |
| Renames.RenameSuicide | dashboard_template.py:54 | Fewer than two columns is an error. Otherwise every column carrying the second label becomes `or`. When the two labels differ, every column carrying the first label becomes `disorder`. Every header carrying neither label is unchanged. |
| Renames.SuicidePositional | dashboard_template.py:54 | When the first two labels are distinct and unique, the result is `disorder`, `or`, followed by the unchanged later headers. |
| Renames.SuicideRepeatedLabel | dashboard_template.py:54 | When the first two labels are equal, every column carrying that label becomes `or`, none becomes `disorder`, and every other header is kept. |
| Renames.SuicideCollidingPair | dashboard_template.py:54 | A two-column header row with equal labels renames to two `or` columns. |
| Renames.SuicideMergedHeaders | dashboard_template.py:48-54 | A suicide file with headers `"A B"` and `"a-b"` loads with two `or` columns. |
| Renames.NormalizeSpacedHeader | dashboard_template.py:48-53 | `"A B"` normalises to `a_b`. |
| Renames.NormalizeHyphenatedHeader | dashboard_template.py:48-53 | `"a-b"` normalises to `a_b`, so it collides with `"A B"`. |
| Renames.RenameRiskFactors | dashboard_template.py:66-71 | `val`, `upper`, `lower` and `risk` are renamed wherever they occur. Every other header is kept. No key survives. |
| Renames.RiskFactorsAbsentKeysIgnored | dashboard_template.py:66-71 | A header row holding none of the four keys is returned unchanged. |
| Renames.DisorderHeaders | dashboard_template.py:9-17 | The disorder loader's header `i` is raw header `i` normalised, and every header is in normal form. |
| Renames.FacilityHeaders | dashboard_template.py:20-30 | The facilities loader's header `i` is raw header `i` normalised, except that `nb_of_users_per_100000` becomes `users_per_100k`. That old name never survives. |
| Renames.WorkforceHeaders | dashboard_template.py:33-43 | Without both `position` and `nb_staff_per_100000`, the workforce loader's headers are just normalised. With both, header `i` is raw header `i` normalised, except that `position` becomes `profession` and `nb_staff_per_100000` becomes `workers_per_100k`; both old names are gone. |
| Renames.SuicideHeaders | dashboard_template.py:46-55 | The suicide loader fails exactly when there are fewer than two columns. Otherwise every header that normalises like the second becomes `or`. Every other header that normalises like the first becomes `disorder`, so position 0 is `disorder` when the two labels differ. Every remaining header is its normalised raw header. |
| Renames.RiskFactorHeaders | dashboard_template.py:58-71 | A normalised header `val`, `upper`, `lower` or `risk` becomes `ylds_rate_per_100k`, `ci_upper`, `ci_lower` or `risk_factor`. Every other normalised header is kept in place, and none of the four keys survives. |
| Renames.LoadersYieldNormalizedHeaders | dashboard_template.py:8-71 | All five loaders produce headers in normal form, rename targets included. |
| Filtering.Select | dashboard_template.py:173-179 | The mask selection has no more rows than the table, and every selected row satisfies the mask. |
| Filtering.SelectAppend | dashboard_template.py:173-179 | Mask selection commutes with concatenation, so the selected rows keep their relative order. |
| Stats.Sum | dashboard_template.py:119 | The sum of an empty column is 0 and the sum of one value is that value. |
| Stats.SumAppend | dashboard_template.py:119 | The sum of two concatenated columns is the sum of their sums. |
| Stats.SumBounds | dashboard_template.py:115-119 | A sum of `n` values within `[lo, hi]` lies within `[n*lo, n*hi]`. |
| Stats.MaxInt | dashboard_template.py:88 | The largest value is absent exactly for an empty column. Otherwise it is one of the values, and no value is larger. |
| Stats.MinInt | dashboard_template.py:88 | The smallest value is absent exactly for an empty column. Otherwise it is one of the values, and no value is smaller. |
| Stats.MaxReal | dashboard_template.py:199 | The largest real value is absent exactly for an empty column. Otherwise it is one of the values, and no value is larger. |
| Stats.Mean | dashboard_template.py:115-117 | There is no mean of an empty column. Otherwise the mean times the count is the sum. |
| Stats.MeanBetween | dashboard_template.py:115-117 | The mean lies between any common lower and upper bound of the values. |
| Indicators.MaxYear | dashboard_template.py:88 | The latest year is absent exactly for an empty table. It is some row's year, and no row is later. |
| Indicators.MinYear | dashboard_template.py:88 | The earliest year is absent exactly for an empty table. It is some row's year, and no row is earlier. |
| Indicators.YearBoundsOrdered | dashboard_template.py:88 | For a non-empty table, `min_year <= max_year`. |
| Indicators.LatestRows | dashboard_template.py:109-111 | Every KPI row is in Lebanon, in the given year, and has its cause, sex and age among the selections. |
| Indicators.LatestRowsExact | dashboard_template.py:109-111 | The KPI rows are exactly the matching table rows, each as often as in the table, in table order. |
| Indicators.Kpi | dashboard_template.py:112-117 | No value when nothing matched. The matched row's rate when exactly one matched. With more than one, the value times the count is the sum of the rates. |
| Indicators.KpiIsMean | dashboard_template.py:112-117 | The single-row branch and the mean branch agree: the KPI is always the mean of the matched rates. |
| Indicators.KpiWithinMatchedRange | dashboard_template.py:112-117 | A KPI lies within any common range of the matched rows' rates. |
| Indicators.TwoSexesAveraged | dashboard_template.py:109-117 | Female 1000 and Male 600 in the latest year, both selected, give a prevalence KPI of 800. |
| Indicators.TotalWorkers | dashboard_template.py:119 | A workforce table with no values totals 0, and one whose values are all non-negative has a non-negative total. |
| Indicators.TotalWorkersSumsPresent | dashboard_template.py:119 | The workforce total is the sum of the cells that hold a value. Empty cells are skipped. |
| Indicators.TotalWorkersAppend | dashboard_template.py:119 | The workforce total of a table split in two is the sum of the parts' totals. |
| Indicators.FacilityRate | dashboard_template.py:120-121 | A facility rate exists exactly when one row carries the facility type, and it is that row's users per 100k. |
| Indicators.ComputeIndicators | dashboard_template.py:108-121 | The KPI block is absent exactly when the disorder table is empty. Otherwise the three disorder cards are the means of the matched rows' rates in the latest year. The workforce card is the sum of the present values. The outpatient and inpatient cards are the facility rates of `Outpatient` and `Mental Hospitals`. |
| Charts.DisorderLegend | dashboard_template.py:180 | A main-chart legend is country, sex and age, concatenated with a space-bar-space separator between them. |
| Charts.MainChartData | dashboard_template.py:172-180 | Every charted row is Lebanon or Global, has cause, sex and age among the selections, and has a year in the inclusive slider range. Its legend is country, sex and age joined by a space-bar-space separator. The charted rows are the mask selection of the table. |
| Charts.MainChartDataExact | dashboard_template.py:172-179 | The main chart holds exactly the masked rows, each as often as in the table, in table order. |
| Charts.MainChartLegendSplits | dashboard_template.py:180 | When its fields contain no bar character, a main-chart legend splits back into country, sex and age. |
| Charts.ErrorBarUpperBound | dashboard_template.py:199 | The axis bound is absent exactly for an empty table. Otherwise it is 1.1 times some row's `ci_higher` and at least 1.1 times every row's. |
| Charts.IntervalsFitAxis | dashboard_template.py:199-205 | With non-negative intervals, every interval ends within `[0, bound]`. |
| Charts.HrDisplayHeaders | dashboard_template.py:219 | The displayed table's headers are `Profession` and `Workers per 100k`. |
| Charts.HrDisplayRows | dashboard_template.py:216-221 | Every displayed row comes from a workforce row holding both values, and carries those values. There are no more displayed rows than table rows. |
| Charts.HrDisplayIsDropna | dashboard_template.py:216-221 | The displayed rows, read back as workforce rows, are exactly the mask selection of the rows holding both a profession and a rate. |
| Charts.HrDisplayRowsExact | dashboard_template.py:216-221 | The displayed table holds each complete workforce row as often as the table does, no incomplete row, and keeps table order. |
| Charts.HrDisplayKeepsCompleteRows | dashboard_template.py:216-221 | Every workforce row holding both a profession and a rate is displayed. |
| Charts.HrDisplayAddsUpToTotal | dashboard_template.py:216-221 | When every row names its profession, the displayed rates sum to the workforce KPI total. |
| Charts.RiskLegend | dashboard_template.py:237 | A risk-factor legend is risk factor and sex, concatenated with a space-bar-space separator between them. |
| Charts.RiskChartData | dashboard_template.py:231-237 | Every charted risk-factor row has its cause, risk factor and sex among the selections. Its legend is risk factor and sex joined by a space-bar-space separator. The charted rows are the mask selection of the table. |
| Charts.RiskChartDataExact | dashboard_template.py:231-236 | The risk-factor chart holds exactly the masked rows, each as often as in the table, in table order. |
| Charts.RiskLegendSplits | dashboard_template.py:237 | When its fields contain no bar character, a risk-factor legend splits back into risk factor and sex. |
| Legends.JoinFields | dashboard_template.py:180 | One field joins to itself, and a joined key starts with its first field. For bar-free fields, the key contains a bar exactly when there are at least two fields. |
| Legends.JoinPair | dashboard_template.py:237 | Joining two fields gives the first, the space-bar-space separator, then the second. |
| Legends.JoinTriple | dashboard_template.py:180 | Joining three fields gives the three fields in order with the space-bar-space separator between neighbours. |
| Legends.SplitJoin | dashboard_template.py:180 | A legend key built from fields without a bar character splits back into exactly those fields. |
| Legends.JoinSplit | dashboard_template.py:237 | Joining the pieces of any split string gives back the string. |
| Legends.JoinInjective | dashboard_template.py:180 | Different lists of fields without a bar character never give the same legend key. |

## Left out

- Page setup, sidebar widgets, column layout, HTML markdown, titles and the footer (`dashboard_template.py:5`, 75-107, 123-161, 168-170, 196-198, 212-215, 226-230, 247-252). The sidebar selections are inputs (`Records.MetricFilters`, `Records.RiskFilters`). The widgets' option lists (lines 85-87) are not modelled.
- The metric selector's label-to-column map (lines 163-167). `Records.Metric` names the three rate columns. Which one the main chart plots does not change its rows.
- Altair chart encodings and rendering (lines 182-193, 200-209, 239-244). This includes the descending sort by `or`. Only the data handed to the charts and the axis bound are modelled.
- Styler formatting and float formatting (`{:.2f}` at line 222, `:.1f` in the KPI cards).
- CSV reading and `@st.cache_data` memoisation (lines 8-10, 21, 34, 47, 59). Loaders are modelled on the header row. Rows are the typed records of `Records`, that is, tables whose needed columns exist. A missing column (a `KeyError` at the page) is not modelled.
- NaN cells in the disorder, facility, suicide and risk-factor tables. Only the workforce table has optional cells, because its sum and its `dropna` treat them specially.
- Unicode semantics of `str.strip` and `str.lower`. Only ASCII whitespace and ASCII case are modelled.
- Floating-point arithmetic. Sums, means and the factor 1.1 are exact reals.
- Indicators.FacilityRate: the `.squeeze()` result is modelled only when exactly one row matches. With zero or several matching rows, pandas yields a Series, the page's number formatting fails, and the model returns `None`.
