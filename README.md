# Random financial project data, modelled in Dafny

The script `random_financial_data.py` builds a small table of made-up
financial-services projects and prints an analysis of it. Each row holds:

- a JIRA-style `project_id`: the department's prefix, a dash, and 1000 plus the row index;
- a `department`;
- a `project_name`: a name adjective and a project type joined by a space;
- a `timeframe` (past, current or future);
- a `status`, drawn with weights that depend on the timeframe.

The analysis shows:

- frequency counts of the department, timeframe and status columns;
- the status shares within each timeframe (a row-normalised cross-tabulation);
- a department-by-timeframe cross-tabulation;
- for each department in sorted order, the project ID of its first row.

The model has one module per concern:

- `Outcomes` holds `Option`, `Result` and the Python errors the code can raise: `KeyError`, `ValueError` and `IndexError`.
- `Strings` covers decimal formatting and parsing of integers, splitting at a character, Python's string order, and sorting distinct values.
- `Totals` sums the values of a map.
- `Sampling` models `random.choices` with one draw.
- `Catalog` holds the fixed vocabularies and the status weight tables.
- `Table` covers records, columns and the `DataFrame` constructor.
- `Generator` holds the three generators and the table construction.
- `Analyzer` holds the aggregations in `display_analysis`.
- `Script` links what the generator guarantees to what the analysis shows.

Randomness is a parameter. Each random call becomes a natural-number draw, and the model proves what the code does with it:

- `random.choice(seq)` becomes an index below `len(seq)`.
- `random.choices(population, weights)` becomes `r` in `[0, total)`, standing for `floor(random() * total)`.

The status weights are decimal fractions in the source. They are written here as integer percentages: 0.7 becomes 70, so each table totals 100. This only rescales the weights, so it leaves the selection unchanged.

## Model

| member | source | states |
|---|---|---|
| Catalog.PrefixMapTotal | random_financial_data.py:14-39 | there are ten distinct departments, and a department has a prefix exactly when it is in the department list |
| Catalog.CatalogListsResolve | random_financial_data.py:14-39 | every listed department has a prefix, and every listed timeframe has a status table |
| Catalog.PrefixesInjective | random_financial_data.py:28-39 | distinct departments have distinct prefixes, and no prefix contains a dash |
| Catalog.ProjectPrefixesHaveNoSpace | random_financial_data.py:42-45 | no project-name adjective contains a space |
| Catalog.StatusTablesWellFormed | random_financial_data.py:54-80 | the status tables exist for exactly the three timeframes; in each, every status option appears once and the weights total 100 |
| Catalog.TableWellFormedAt | random_financial_data.py:58-80 | the same fact for any one timeframe that has a table |
| Catalog.PastTableWellFormed | random_financial_data.py:59-65 | the past table lists each status once and its weights total 100 |
| Catalog.CurrentTableWellFormed | random_financial_data.py:66-72 | the current table lists each status once and its weights total 100 |
| Catalog.FutureTableWellFormed | random_financial_data.py:73-79 | the future table lists each status once and its weights total 100 |
| Strings.NatToString | random_financial_data.py:93 | the decimal text of a natural number is a non-empty string of digits with no leading zero |
| Strings.ParseNatToString | random_financial_data.py:93 | parsing the decimal text of `n` gives back `n` |
| Strings.IntToString | random_financial_data.py:93 | Python's `str` of an integer: a non-negative one is digits with no leading zero (except "0") that parse back to it; a negative one is '-' followed by such digits for its magnitude |
| Strings.ParseIntToString | random_financial_data.py:93 | parsing the decimal text of any integer gives it back |
| Strings.SplitAt | random_financial_data.py:88 | splitting at the first `c` fails exactly when `c` is absent; otherwise the first part has no `c` and the parts rejoin to the input |
| Strings.SplitAtJoin | random_financial_data.py:88 | `p + c + q` splits back into `p` and `q` when `p` has no `c` |
| Strings.LexLessIrreflexive | random_financial_data.py:194 | Python's string order is irreflexive |
| Strings.LexLessTotal | random_financial_data.py:194 | any two distinct strings are ordered one way or the other |
| Strings.LexLessTransitive | random_financial_data.py:194 | the string order is transitive |
| Strings.InsertSorted | random_financial_data.py:194 | inserting into a strictly sorted list keeps it strictly sorted and adds exactly the new value |
| Strings.SortedDistinct | random_financial_data.py:194 | the distinct values of a column, strictly sorted, with the column's membership |
| Strings.StrictlySortedDistinct | random_financial_data.py:194 | a strictly sorted list has no repeated value |
| Sampling.SumPrefixMonotone | random_financial_data.py:98-102 | sums of longer prefixes of the weights are no smaller |
| Sampling.CumulativeWeights | random_financial_data.py:98-102 | entry `i` of the running totals is the sum of the first `i + 1` weights |
| Sampling.BisectRight | random_financial_data.py:98-102 | returns the first position in `[lo, hi)` whose running total exceeds the draw, or `hi` |
| Sampling.ChoiceIndex | random_financial_data.py:98-102 | the chosen position is a valid index into the population |
| Sampling.Choices | random_financial_data.py:98-102 | `ValueError` when the lengths differ, `IndexError` on an empty population, `ValueError` when the weights total 0; succeeds exactly otherwise, with a member of the population |
| Sampling.ChoiceIndexInterval | random_financial_data.py:98-102 | entry `i` is chosen exactly when the draw lies in `[sum of weights before i, sum through i)` |
| Sampling.ChoiceIndexPositive | random_financial_data.py:98-102 | the chosen entry has a positive weight |
| Generator.GenerateProjectName | random_financial_data.py:84-88 | the name splits at its first space into the drawn adjective and the drawn project type |
| Generator.GenerateProjectId | random_financial_data.py:90-93 | succeeds exactly for a department in the prefix map; otherwise `KeyError(department)` |
| Generator.ProjectIdRoundTrip | random_financial_data.py:90-93 | an ID splits at its dash into the department's prefix and `index + 1000`, and for a positive number the text after the dash is plain digits with no leading zero |
| Generator.FindDepartmentAt | random_financial_data.py:28-39 | the first department in a list with a given prefix is found |
| Generator.ProjectIdNamesDepartment | random_financial_data.py:90-93 | the department can be recovered from an ID alone |
| Generator.ProjectIdsDiffer | random_financial_data.py:90-93 | different departments or different row indexes give different IDs |
| Generator.GenerateStatus | random_financial_data.py:95-102 | `KeyError(timeframe)` for an unknown timeframe; otherwise one of the status options |
| Generator.ChoicesOverTable | random_financial_data.py:97-102 | drawing over a well-formed status table succeeds and gives a status option |
| Generator.WeightOfAt | random_financial_data.py:97-100 | looking up the key of entry `i` in a table with distinct keys gives that entry's weight |
| Generator.ChoicePossible | random_financial_data.py:97-102 | a draw over a well-formed table gives a status with positive weight |
| Generator.GenerateStatusIsPossible | random_financial_data.py:95-102 | a generated status has positive weight for its timeframe |
| Generator.ChoiceDistribution | random_financial_data.py:97-102 | status `i` of a table is drawn exactly when the draw falls in its weight interval |
| Generator.GenerateStatusDistribution | random_financial_data.py:95-102 | a timeframe's status `i` is generated exactly for draws in its weight interval, so with probability weight/100 |
| Generator.StatusSupport | random_financial_data.py:58-80 | past never yields committed or backlog; current never yields cancelled; future never yields completed or cancelled; every other status can occur |
| Generator.WeightOfFive | random_financial_data.py:58-80 | weight lookup in a five-entry table, entry by entry |
| Generator.ProjectIds | random_financial_data.py:110 | entry `i` of the ID column is the ID generated from row `i`'s department and index `i` |
| Generator.ProjectNames | random_financial_data.py:112 | entry `i` of the name column splits into the `i`-th pair of drawn words |
| Generator.Statuses | random_financial_data.py:114 | entry `i` of the status column is the status generated for row `i`'s timeframe and draw |
| Generator.GenerateData | random_financial_data.py:104-115 | all five columns have `n` entries; department and timeframe are the catalog entries drawn; the other columns come from the generators row by row |
| Generator.GeneratedTable | random_financial_data.py:104-118 | the frame builds; it has `n` rows; IDs are pairwise distinct, each is its department's prefix with `i + 1000` and names its department; every value is from the catalog; every status is possible for its timeframe |
| Generator.ThousandsText | random_financial_data.py:93 | 1000 + k for k < 10 is written "100" followed by the digit k |
| Generator.SampleProjectId | random_financial_data.py:90-93 | the ID for row index k < 10 is the prefix, "-100" and the digit k |
| Generator.FiveRowProjectIds | random_financial_data.py:110 | a five-row example with repeated departments gives IB-1000, RISK-1001, IB-1002, WM-1003, RISK-1004 |
| Table.ToColumns | random_financial_data.py:109-118 | a table laid out as columns has columns of equal length |
| Table.DataFrame | random_financial_data.py:118 | building a frame from columns succeeds exactly when they have equal length (else `ValueError`), and gives back rows whose columns are the input |
| Table.DataFrameOfColumns | random_financial_data.py:118 | building a frame from a table's own columns gives back that table |
| Totals.TotalRemove | random_financial_data.py:174-182 | removing a key from a map of counts removes its count from the total |
| Totals.RealTotalRemove | random_financial_data.py:186 | the same for a map of shares |
| Totals.TotalUpdate | random_financial_data.py:174-182 | overwriting a count changes the total by the difference |
| Totals.ZeroFill | random_financial_data.py:186-190 | widens a map to a set of keys, keeping each value and putting 0 for each new key |
| Totals.ZeroFillTotal | random_financial_data.py:186-190 | filling with zeros leaves the total unchanged |
| Totals.ScaledTotal | random_financial_data.py:186 | dividing every count by `t` divides the total by `t` |
| Totals.ScaledTotalRemove | random_financial_data.py:186 | removing a key from a scaled table removes its scaled entry from the total |
| Totals.ScaledTotalStep | random_financial_data.py:186 | one key's scaled share plus the scaled total of the rest is the scaled total |
| Analyzer.ValueCounts | random_financial_data.py:174-182 | the counted values are exactly those in the column, each with its number of occurrences, all positive |
| Analyzer.ValueCountsTotal | random_financial_data.py:174-182 | the counts add up to the column's length |
| Analyzer.Select | random_financial_data.py:194 | a group has as many entries as rows with that key, each taken from the value column |
| Analyzer.SelectCounts | random_financial_data.py:190 | a group holds each value as often as the table holds that (key, value) pair |
| Analyzer.Crosstab | random_financial_data.py:190 | row labels and column labels are exactly the observed values; each cell is the number of rows holding that pair, or 0 |
| Analyzer.CrosstabRow | random_financial_data.py:190 | one row of the grid: every observed column label, each with its pair count |
| Analyzer.CrosstabRowTotals | random_financial_data.py:190 | each grid row adds up to the number of rows with its label |
| Analyzer.NormalizedCrosstab | random_financial_data.py:186 | same labels as the cross-tabulation; each cell is its pair count divided by its row label's count |
| Analyzer.DivideRowByTotal | random_financial_data.py:186 | a row divided by its own sum sums to 1 |
| Analyzer.NormalizedRowsSumToOne | random_financial_data.py:186 | every row of the normalised cross-tabulation sums to 1 |
| Analyzer.FirstIndex | random_financial_data.py:194 | the position of the first occurrence of a key |
| Analyzer.SelectStartsAtFirstRow | random_financial_data.py:194 | a group's first value comes from the earliest row with that key |
| Analyzer.GroupFirst | random_financial_data.py:194 | the group keys are strictly sorted and are exactly the observed keys |
| Analyzer.GroupFirstIsEarliestRow | random_financial_data.py:194 | each group's value is the value column of the earliest row with that key |
| Analyzer.DisplayAnalysis | random_financial_data.py:167-215 | the three count views each add up to the number of rows; normalised rows sum to 1; department-by-timeframe rows add up to the department's count; example keys are sorted; an empty table gives empty views |
| Script.PairOccurs | random_financial_data.py:186-190 | a pair has a positive count exactly when some row holds it |
| Script.CountsWithin | random_financial_data.py:174-182 | a column drawn from a list has only values of that list in its counts |
| Script.CountsFromCatalog | random_financial_data.py:174-182 | the count views of a catalog table hold only catalog values |
| Script.AbsentPairHasNoShare | random_financial_data.py:186 | a pair no row holds has share 0 |
| Script.ImpossibleStatusHasNoShare | random_financial_data.py:186 | a status with weight 0 for a timeframe has share 0 in that timeframe's row |
| Script.ExampleIdsNameTheirDepartment | random_financial_data.py:194 | each example ID names the department it is listed under |
| Script.GeneratedRows | random_financial_data.py:104-118 | the generated frame has `n` rows, each from the catalog, with a possible status and an ID that names its department |
| Script.GeneratedCounts | random_financial_data.py:167-224 | for a generated table, each count view adds up to `n` and holds only catalog values |
| Script.GeneratedViews | random_financial_data.py:167-224 | for a generated table, zero-weight statuses have share 0 and each example ID belongs to its department |
| Script.ScriptRun | random_financial_data.py:105-118 | the script's own run of 20 records builds 20 rows, and each count view adds up to 20 |

## Left out

- The pseudo-random generator is not modelled. Every draw is an input, and each input is bounded to the range the library call would produce.
- `random.choices` is modelled as written in CPython 3.9 and later: running totals, `bisect_right` with `hi = n - 1`, and the error checks. Floating-point rounding of `random() * total` is not modelled; the draw is the whole number below it.
- Sampling.BisectRight is stated and computed by a linear scan. Its result is the one a binary search returns, but the halving steps are not modelled.
- Status weights are integer percentages, not floats. The float sums 0.7 + 0.25 + 0.05 and similar are taken to be exactly 1.
- `.round(2)` on the normalised cross-tabulation is left out, because it only affects display. The shares are exact fractions.
- Analyzer.ValueCounts is a map. It does not capture `value_counts`' ordering by descending count.
- Analyzer.Crosstab is a map of maps. It does not capture pandas' sorting of row and column labels.
- The normalised cross-tabulation divides each cell by its row label's count, not the row sum pandas computes. Analyzer.CrosstabRowTotals proves the two are equal.
- The pandas display options, `display_dataframe` (styling, colouring, sorting by ID, printing) and the top-level prints are left out. They produce output only.
- The choice between the Jupyter and plain-Python branches of `display_analysis` is left out, since both compute the same views. An `ImportError` or `ValueError` raised in the first branch selects the plain one; that choice depends on the environment and is I/O.
- A record count of zero or less is not rejected, and no field-name check is made, because the code has neither. With `n = 0` the code builds an empty frame, and the model does the same: DisplayAnalysis gives empty views.
- A status table whose weights total zero raises `ValueError` inside `random.choices`. That error is modelled in Sampling.Choices. None of the script's tables can raise it (Catalog.StatusTablesWellFormed).
- `openai_examples.py` and `selenium_examples.py` are not part of this model. They are unrelated scripts that call external services.
