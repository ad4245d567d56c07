# Autism enrolment dashboard: a Dafny model of its data pipeline

The dashboard loads a table of enrolments of autistic students in Brazilian public and
private schools (by region, state, year and month). It derives a total and two
percentage columns and extends the table with a projection up to 2040 that repeats, for every future year,
fixed multiples of each region's last counts. For every
change of the controls (year range, region, school type) it computes:

- a yearly time series;
- a per-region pie for the last selected year;
- a per-state bar chart;
- three summary figures.

The repository also has two table helpers for a second dataset of enrolments with
school totals. One drops incomplete rows and adds the autism share. The other computes
the year-on-year growth within each (region, school type) group.

The model is purely functional. A table is a set of column names plus a `seq` of row
datatypes, and every step is a function over it:

| module | file | models |
|---|---|---|
| `Wrappers` | wrappers.dfy | `Option` (NaN, missing value) and `Result` (an exception) |
| `Seqs` | seqs.dfy | Python's string order, `Series.unique()`, sorted `groupby` keys |
| `Columns` | columns.dfy | `str.strip().str.lower()`, the synonym map, month names |
| `Records` | records.dfy | the row and table datatypes, the loader and its fallback table |
| `Projection` | projection.dfy | `generate_projections` |
| `Dashboard` | dashboard.dfy | the computations of `update_graphs` |
| `DataProcessing` | data_processing.dfy | `clean_education_data`, `calculate_growth_rates` |

Modelling choices:

- A failed read of the CSV file is the input `None` of `Records.Load`.
- A Python exception is a `Failure` value:
  - `generate_projections` on a table that has an `ano` column but no rows, where `range` refuses the NaN maximum;
  - a missing `região`, `publica`, `particular` or `estado` column when something is to be projected, which raises `KeyError` (checked in that order);
  - `update_graphs` on a table without one of the columns it reads (`ano`, `região`, `publica`, `particular`, `total_autismo`, `estado`), which raises `KeyError` for the first one read;
  - `update_graphs` on an empty selection, where `iloc[0]` raises `IndexError`.
- The dashboard's counts (`Records.Row`) are `nat`. The second dataset's counts (`DataProcessing.EduRow`) are `Option<int>`, `None` for NaN. Percentages and growth are `real`, and a NaN or infinite value is `None`.
- The multipliers 1.08 and 1.12 are the exact ratios 108/100 and 112/100, truncated toward zero as `int()` does.
- `groupby` returns its keys in ascending order, strings by code point. `unique()` keeps the order of first appearance.
- `sort_values` on several columns is a stable lexicographic sort, so rows with equal (regiao, tipo_escola, ano) keep their table order; `DataProcessing.SortRows` is a stable insertion sort.
- `str.strip()` removes every character for which Python's `str.isspace()` holds, including the non-ASCII spaces.
- The numeric month column is `mês` after lower-casing. A month name is derived from it only when there is no `mes_nome` column (index.py:31-32).

Properties of the code that a reader might not expect:

- A projection does not compound year over year. The anchor is never replaced, so every projected year of a region repeats the same counts (`Projection.ProjectionIsFlat`). For an anchor of 1000 public enrolments, the second projected year has 1080, not 1166 (`Projection.FlatProjectionExample`).
- A region's anchor is its last row in table order, not necessarily its row with the largest year (`Projection.AnchorsAreLastRows`).
- The projected total is the truncation of the unrounded sum, not the sum of the two truncated counts, so it can exceed that sum by one (`Projection.ProjectedCounts`).
- An empty selection raises instead of giving empty views and zero metrics (`Dashboard.SelectionViews` fails exactly then).
- A table whose last year is already 2040 or later is not projected, so the projector never checks its `estado` column; a loaded file without that column then makes every call of the callback raise (`Dashboard.UnprojectedTableWithoutState`).

## Model

| member | source | states |
|---|---|---|
| Seqs.Distinct | index.py:58 | the distinct regions contain exactly the table's regions, each once |
| Seqs.DistinctFirstAppearance | index.py:58 | `unique()` lists values in order of their first occurrence in the column |
| Seqs.SortedKeys | index.py:294 | `groupby` keys are strictly ascending and are exactly the values of the key column |
| Seqs.StrLtIsStrictTotal | index.py:305 | the code-point order on region and state names is a strict total order |
| Columns.Strip | index.py:12 | the stripped name is the infix of the header with only whitespace (ASCII and Unicode, as `str.isspace()`) before and after it, and starts and ends with a non-space |
| Columns.Lower | index.py:12 | lower-casing keeps the length, maps each ASCII capital to its small letter and leaves every other character alone |
| Columns.StripLowerCommute | index.py:12 | stripping and lower-casing can be applied in either order |
| Columns.Canonical | index.py:12-18 | a canonical column name is stripped, has no capitals and is never a synonym key; names outside the synonym map are only normalised |
| Columns.CanonicalPreimages | index.py:12-18 | a header becomes `publica`, `particular` or `mes_nome` exactly when, stripped and lower-cased, it is that name or its synonym; any other canonical name is the normalised header |
| Columns.CanonicalIdempotent | index.py:12-18 | canonicalising an already canonical name changes nothing |
| Columns.CanonicalIgnoresCase | index.py:12-18 | headers that differ only in ASCII case get the same canonical name |
| Columns.CanonicalOfPaddedSynonym | index.py:12-18 | the header " Mês_Nome" ends as `mes_nome` |
| Columns.MonthName | index.py:26-32 | a month has a name exactly when its number is 1 to 12; month 1 is Janeiro |
| Columns.MonthNameInjective | index.py:26-30 | distinct month numbers have distinct names |
| Records.Percent | index.py:22-23 | a share is defined exactly when the total is positive, and then share × total = 100 × part |
| Records.PercentagesSumTo100 | index.py:21-23 | with a positive total, the public and private shares add up to 100 |
| Records.DeriveRow | index.py:21-32 | every derived row has total = publica + particular and consistent shares, keeps its source values, has shares `Percent(publica, total)` and `Percent(particular, total)`, and, when months are derived, gets the name of its month number (none for a missing or invalid number); otherwise it keeps its month name |
| Records.CanonicalColumns | index.py:12-18 | the loaded column set is exactly the canonical forms of the header names |
| Records.Load | index.py:8-46 | an unreadable file, or one without both count columns, yields the fallback table; otherwise every record becomes one derived row, in order, with total = sum and shares consistent, and the columns are exactly the canonical ones plus `total_autismo`, the two shares and, when derived, `mes_nome` |
| Records.Fallback | index.py:37-46 | the fallback has 14 rows for 2010-2023, all Sudeste/SP/Janeiro, with the listed counts, total = sum and no projection flag |
| Records.FallbackCountsIncrease | index.py:39-40 | fallback counts grow strictly from year to year in both networks |
| Projection.MaxYear | index.py:53 | the last year bounds every row's year and is some row's year |
| Projection.Regions | index.py:58 | the projected regions are exactly the regions of the table, without repetition, and there is one for a non-empty table |
| Projection.RegionsInFirstAppearanceOrder | index.py:58 | regions are projected in the order in which they first appear in the table |
| Projection.Anchor | index.py:59 | a region's anchor is one of its rows and no later row belongs to the region |
| Projection.AnchorsAreLastRows | index.py:58-59 | the k-th anchor is the last row, in table order, of the k-th region |
| Projection.ProjectedRow | index.py:61-70 | a projected row has the given year, the anchor's region and state, Janeiro, no shares, and the projection flag |
| Projection.ProjectedCounts | index.py:63-65 | projected counts are the floors of 1.08 and 1.12 times the anchor's; the total is the floor of the unrounded sum, between the counts' sum and the sum plus one |
| Projection.ProjectedYearsAt | index.py:57-71 | position y·\|anchors\| + k of the projected block holds year from + y for anchor k: year-major, then region |
| Projection.ProjectedYearsLength | index.py:54-58 | one projected row per anchor for every year from the first projected year to 2040 |
| Projection.Appended | index.py:54-71 | every appended row is flagged and dated after the last year and no later than 2040 |
| Projection.Project | index.py:49-73 | without `ano` the table is returned unchanged; with it, the projector fails exactly for an empty table, or, when something is to be projected, for a missing `região`, `publica`, `particular` or `estado` column; on success the input rows are an unchanged prefix and every further row is a flagged projection dated after the last year and up to 2040 |
| Projection.ProjectedRowAt | index.py:57-71 | appended row y·\|regions\| + k is the projection of region k's anchor for year last + 1 + y |
| Projection.ProjectionSize | index.py:54-58 | the projector appends max(0, 2040 − last year) × (number of regions) rows |
| Projection.ProjectAppends | index.py:73 | when something is projected, the output is the input followed by the appended block |
| Projection.ProjectionIsFlat | index.py:57-65 | a region's appended row of one year is its row of any other year with only the year changed |
| Projection.ProjectedRowYears | index.py:61-70 | projections of one anchor for two years differ only in the year |
| Projection.FlatProjectionExample | index.py:49-73 | an anchor of 1000/500 in 2038 yields 1080/560/1640 in both 2039 and 2040 |
| Dashboard.Filtered | index.py:261-265 | the selection is exactly the rows in the year range and region, each meeting the condition |
| Dashboard.FilteredConcat | index.py:261-265 | selection distributes over concatenation, so it keeps table order |
| Dashboard.FilteredFirst | index.py:261-265 | the first selected row is the first table row meeting the condition |
| Dashboard.FilteredLast | index.py:261-265 | the last selected row is the last table row meeting the condition |
| Dashboard.SelectionBeforeProjection | index.py:261-265 | on a projected table, a range ending at or before the last real year selects the same rows as on the real table |
| Dashboard.AtYear | index.py:305 | restricting to one year keeps exactly the rows of that year |
| Dashboard.AtYearConcat | index.py:305 | restricting to one year distributes over concatenation, so it keeps table order |
| Dashboard.AtYearSum | index.py:305 | a column summed over one year's rows is that year's group sum |
| Dashboard.GroupSumsConserve | index.py:294 | grouping by a key and summing loses nothing: the group sums over distinct keys covering all rows add up to the column total |
| Dashboard.TimeSeries | index.py:277-294 | one point per distinct selected year, in ascending order, each holding that year's sums of the plotted columns |
| Dashboard.SeriesConservesTotals | index.py:294 | each plotted curve adds up to its column's total over the selection |
| Dashboard.SeriesColumns | index.py:277-284 | the time series plots one or two count columns, never the total |
| Dashboard.RegionSnapshot | index.py:305 | the pie has one slice per region present in that year, in ascending order, each the sum of `total_autismo` over all rows of the region in that year |
| Dashboard.RegionSnapshotConserves | index.py:305 | the pie slices add up to the total of every row of that year |
| Dashboard.RegionsIgnoreSelection | index.py:305 | the pie does not depend on the year-range start, the region or the school type |
| Dashboard.StateSnapshot | index.py:315-321 | one bar pair per state of the selection in that year, in ascending order, each the state's public and private sums |
| Dashboard.StateSnapshotConserves | index.py:315-321 | the state bars add up to the selection's public and private counts in that year |
| Dashboard.Growth | index.py:334-335 | growth is 0 for a zero first total; otherwise first × (1 + growth/100) = last, positive exactly when the total rose |
| Dashboard.ComputeMetrics | index.py:332-335 | the metrics fail exactly on an empty selection; otherwise they are the column sums and the growth from the first to the last selected row |
| Dashboard.ReadOrder | index.py:262-333 | the callback reads exactly the columns `ano`, `região`, `publica`, `particular`, `total_autismo` and `estado` |
| Dashboard.FirstMissing | index.py:262-333 | the first name not present is reported, every earlier one being present; none exactly when all are present |
| Dashboard.SelectionViews | index.py:261-335 | with every column present, the callback fails exactly when no row is in the selection; otherwise it returns the series and state views of the selection, the pie of the whole table and the metrics |
| Dashboard.UpdateGraphs | index.py:259-335 | the callback fails exactly when a column it reads is missing or no row is in the selection; a missing column is reported as the first one read, in source order; with every column present it gives the selection's views |
| Dashboard.UnprojectedTableWithoutState | index.py:315 | a table reaching 2040 without `estado` passes the projector unchanged and then makes every callback raise `KeyError` |
| Dashboard.SeriesMatchesMetrics | index.py:277-333 | with both school types, the two curves add up to the two metric totals |
| Dashboard.GrowthUsesTableOrder | index.py:334-335 | growth compares the first and last selected rows in table order, whatever their years |
| Dashboard.ScenarioMetrics | index.py:332-335 | three rows of (100,50), (110,55), (120,60) give totals 330 and 165 and growth 20% |
| DataProcessing.Share | utils/data_processing.py:6 | the share is defined exactly for a non-zero total, and then share × total = 100 × count |
| DataProcessing.ShareBounds | utils/data_processing.py:6 | a count between 0 and a positive total has a share between 0 and 100 |
| DataProcessing.CleanEducationData | utils/data_processing.py:3-7 | the kept rows are exactly the input rows with both values present, each with its share |
| DataProcessing.CleanConcat | utils/data_processing.py:5 | cleaning distributes over concatenation, so it keeps row order |
| DataProcessing.CleanOfCompleteTable | utils/data_processing.py:5 | a table without missing values keeps every row, untouched and in order |
| DataProcessing.Insert | utils/data_processing.py:11 | insertion adds exactly one row to the multiset |
| DataProcessing.InsertKeepsSorted | utils/data_processing.py:11 | inserting into rows sorted by (regiao, tipo_escola, ano) keeps them sorted |
| DataProcessing.SortRows | utils/data_processing.py:11 | the sorted table is a permutation of the input ordered by (regiao, tipo_escola, ano) |
| DataProcessing.PrevInGroup | utils/data_processing.py:12 | the previous row of a group is an earlier row of the same group with no row of the group between them, and is absent only for the group's first row |
| DataProcessing.GroupsAreContiguous | utils/data_processing.py:11-12 | after sorting, every (regiao, tipo_escola) group is one contiguous run |
| DataProcessing.PrevInGroupOfSorted | utils/data_processing.py:11-12 | after sorting, the previous row of a group is the row just above when it shares the group, and there is none otherwise |
| DataProcessing.Filled | utils/data_processing.py:12 | a present count is used as it is; a filled value is the count of the nearest earlier row of the group with a count, no row of the group in between having one; no value means no row of the group up to this one has a count |
| DataProcessing.FillCarriesDown | utils/data_processing.py:12 | a row without a count inherits the fill of the previous row of its group |
| DataProcessing.GrowthOnlyWithinGroup | utils/data_processing.py:11-12 | in sorted rows a growth value needs the row just above to be of the same group |
| DataProcessing.Change | utils/data_processing.py:12 | a change is defined exactly with both values and a non-zero previous one, and then prev × (1 + change/100) = cur |
| DataProcessing.CalculateGrowthRates | utils/data_processing.py:9-13 | the output is the input permuted into (regiao, tipo_escola, ano) order, and a row has a growth value only when the row above is of its group |
| DataProcessing.FirstOfGroupHasNoGrowth | utils/data_processing.py:12 | the first row of every group gets no growth value |
| DataProcessing.GrowthFromRowAbove | utils/data_processing.py:12 | every other row with both counts present gets (cur / prev − 1) × 100 from the row just above |
| DataProcessing.MissingCountShowsNoGrowth | utils/data_processing.py:12 | a missing count is forward-filled from the row above, giving growth 0 |

## Left out

- Reading the CSV file and the `try`/`except` around the loader (index.py:8-9, 34-35) are I/O. The loader takes the parsed file, or `None` for a failed read. The only exception the derivations can raise is a missing count column, and that is what `Records.Usable` tests.
- Parsing cell values is left out. A record's values are already typed and stored under their canonical roles.
- A header with two names that canonicalise to the same column (for example `publica` and `escola_publica`) is not modelled. pandas then holds duplicate columns.
- Columns.Lower: covers ASCII letters only. Python's `str.lower` also folds non-ASCII capitals such as `Ê`, so a header `MÊS_NOME` keeps its `Ê` here.
- Records.Load: column values under headers that are not used downstream are dropped from the rows. Only the column names are kept.
- The `projeção` column is NaN on real rows after `pd.concat`. Here it is `false`.
- Projection.ProjectedCounts: uses exact ratios. The doubles for 1.08 and 1.12 lie just above the decimals, so `int()` of the floating-point product agrees with the exact floor for realistic non-negative counts. Very large counts are not covered.
- Projection.Project: the percentage columns of the appended rows are NaN in pandas. Here they are `None`, and the column set of the result is the union of both frames' columns.
- The percentage view mode of the time series (index.py:286-287) is not modelled. It sums percentage columns that are NaN on projected rows and missing from the fallback table, and it relies on pandas' NaN-skipping sums. Only the absolute mode is modelled.
- Building the figures, the metric cards and their number formatting (index.py:293-329 figure calls, 337-366) is rendering. The Dash layout, the controls and the server are UI.
- Values outside the enumerations for the school type and the view mode are not representable.
- Dashboard.UpdateGraphs: a row whose region or state is NaN would be dropped from the `groupby` groups. Here rows always carry strings.
- DataProcessing.Change: a zero previous count gives an infinite growth in pandas (or NaN for 0/0). Here both are `None`.
- DataProcessing.Filled: follows the pandas 2.x default of `pct_change`, which forward-fills missing counts within the group before dividing. pandas 3 no longer fills.
- DataProcessing.CleanEducationData: counts are integers. pandas holds them as floats once a column has NaN. A zero total gives an infinite or NaN share in pandas and `None` here.
- Counts, years and month numbers are unbounded integers. pandas holds them as 64-bit integers (or floats once NaN appears), so overflow beyond 2^63 is not modelled.
- Concurrency and the read-only sharing of the table between callbacks are not modelled. Every function here is pure.
