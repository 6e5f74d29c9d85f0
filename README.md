# Financial decision-support pipeline, modelled in Dafny

This project models the core of a small financial decision-support system.
The system turns income statements and balance sheets into:

- cleaned tables;
- a merged table with ratios added;
- a simplified cash-flow statement;
- a forward projection;
- a short list of plain-language insights.

It has six stages, each modelled in one Dafny module:

- `SchemaMapper` reconciles columns. A user header is lower-cased and stripped to `[a-z0-9]`. Each canonical field is then bound to the first user column whose normalised header is one of its synonyms.
- `Validator` validates a statement:
  - It fails if a mandatory column is missing, in every mode.
  - It detects anomalies in the raw rows: missing values, duplicate years and non-numeric cells.
  - `strict` mode rejects any anomaly. `auto_clean` and `auto_clean_warn` clean the rows: coerce, drop incomplete rows, keep the first row of each year, then sort by year. `auto_clean_warn` also attaches the anomaly messages as warnings.
  - The income-statement and balance-sheet validators are one generic `Validate` with different column lists and names.
- `FinancialMetrics` holds typed income, balance and merged records. It models the inner join on `Year` and the five per-row ratios.
- `Forecasting` models the break-even formula and the forward recurrence:
  - revenue and liabilities compound;
  - costs, interest and a tax floored at zero give net income;
  - assets accumulate net income;
  - equity is assets less liabilities.
- `CashFlow` computes operating cash flow as net income. Investing and financing cash flows are the adjacent-row differences of assets and liabilities, with zeros in the first row.
- `Insights` applies three threshold rules over the first and last rows and produces two or three messages in a fixed order.

`Common` holds `Option` and `Max`.

Modelling choices:

- **Numbers.** Amounts are `real`.
  - A ratio with a zero denominator is `None`.
  - Insights compare floating-point quotients. There, a zero divisor is modelled explicitly as positive infinity, negative infinity or NaN (`Insights.Quotient`), because numpy does not raise on it.
- **Numeric coercion.** `pd.to_numeric(errors="coerce")` on a text cell is a parameter `parse: string -> Option<real>` of the validator. Its parsing rules are not modelled.
- **Tables.**
  - A table is a list of column labels and a list of rows.
  - A row has a `Year` cell (`Option<int>`, where `None` is NaN) and a map from column label to `Missing | Num(real) | Text(string)`.
  - A label the row does not carry reads as missing.
- **Loops become methods.** The source's loops are methods with loop invariants, each proved equal to a specification function:
  - `SchemaMapper.MapColumns` (the nested loop with `break`);
  - `Validator.CollectAnomalies` and `Validator.ConvertNumeric`;
  - `Forecasting.ForecastMethod` (the `for` loop over the three accumulators).
- **Insights.** `Insights.GenerateInsights` has no loop. It is a method because the source appends to a list under three conditions. Its contract describes the result message by message.
- **Forecast loop body.** The arithmetic of one year of the forecast loop is the pure function `Forecasting.YearRow`, which the loop method calls.
- **Errors.** A missing mandatory column and a strict-mode rejection both raise `ValueError` (validator.py:26, 87). The model has one `Failure(message)` outcome.
- **Check order.** `_collect_anomalies` runs before `_convert_numeric`, so the non-numeric check coerces the raw cells. A missing cell therefore raises both the missing-values report and its column's non-numeric report (`Validator.NullRaisesBoth`).

## Model

| member | source | states |
|---|---|---|
| SchemaMapper.NormalizeOutput | schema_mapper.py:9-11 | a normalised header holds only characters of `[a-z0-9]` and is never longer than the header |
| SchemaMapper.NormalizeChar | schema_mapper.py:9-10 | an ASCII capital becomes its lower-case letter, a character of `[a-z0-9]` is kept, and any character that is not an ASCII letter or digit is dropped |
| SchemaMapper.NormalizeAppend | schema_mapper.py:9-10 | normalisation works character by character: the header of a concatenation normalises to the concatenation of the normalised parts, so kept characters stay in their order |
| SchemaMapper.NormalizeFixesNormalized | schema_mapper.py:9-11 | a header already in `[a-z0-9]` is its own normal form |
| SchemaMapper.NormalizeIdempotent | schema_mapper.py:9-11 | normalising twice is normalising once |
| SchemaMapper.NormalizeKeepsAll | schema_mapper.py:9-10 | nothing is dropped exactly when every character is an ASCII letter or digit |
| SchemaMapper.NormalizeSnakeCase | schema_mapper.py:10 | the underscore of a snake-case header disappears |
| SchemaMapper.NormalizeCapitalized | schema_mapper.py:9-10 | a capitalised word normalises to its lower-case spelling |
| SchemaMapper.NormalizeSnakeWords | schema_mapper.py:9-10 | `Word_Word` normalises to the two lower-case words joined |
| SchemaMapper.NormalizeOperatingExpense | schema_mapper.py:9-10 | `Operating_Expense` normalises to `operatingexpense` |
| SchemaMapper.FirstMatch | schema_mapper.py:23-26 | a found column is one of the user columns and its normalised header is a synonym |
| SchemaMapper.FirstMatchNone | schema_mapper.py:23-24 | nothing is found exactly when no user column matches |
| SchemaMapper.FirstMatchAt | schema_mapper.py:23-26 | the first matching column in input order is the one found |
| SchemaMapper.FirstMatchIsFirst | schema_mapper.py:23-26 | a found column matches and every column before it does not |
| SchemaMapper.Build | schema_mapper.py:19-26 | every key of the column map is one of the user columns |
| SchemaMapper.BuildOrigin | schema_mapper.py:22-25 | every binding comes from a canonical field whose first match is that user column |
| SchemaMapper.BuildStep | schema_mapper.py:22-26 | one more canonical field either adds its first match or leaves the map as it was |
| SchemaMapper.MapColumns | schema_mapper.py:14-28 | the nested loop with `break` builds exactly the column map `Build` describes |
| SchemaMapper.FieldBoundAtMostOnce | schema_mapper.py:22-26 | with distinct canonical fields, no field is the value of two keys |
| SchemaMapper.BuildBindsFirstMatch | schema_mapper.py:23-25 | with pairwise disjoint synonym lists, a field with a match is bound to its first matching column |
| SchemaMapper.BuildOmitsUnmatched | schema_mapper.py:23-26 | a field without a match is absent from the map |
| SchemaMapper.LaterDuplicateUnmapped | schema_mapper.py:23-26 | a later user column with the same normalised header as an earlier one is never mapped, because of the `break` |
| SchemaMapper.LastMatchingFieldWins | schema_mapper.py:22-25 | for any columns and dictionary, a user column is bound to the last field, in dictionary order, whose first match it is |
| SchemaMapper.OverlappingSynonymsOverwrite | schema_mapper.py:22-25 | example: with `Revenue` and `Turnover` both listing `sales`, the column `Sales` maps to `Turnover` and `Revenue` is unbound |
| SchemaMapper.CanonicalFirstMatch | schema_mapper.py:22-54 | among the canonical headers, each field's first match is its own name |
| SchemaMapper.CanonicalHeadersMapToThemselves | schema_mapper.py:22-26 | when canonical names normalise to their own synonyms and the lists are disjoint, canonical headers map to themselves and every field is bound |
| SchemaMapper.IncomeMappingDistinct | schema_mapper.py:35-47 | the income dictionary's fields are distinct |
| SchemaMapper.IncomeMappingDisjoint | schema_mapper.py:35-47 | the income dictionary's synonym lists are pairwise disjoint |
| SchemaMapper.IncomeMappingSelfMatch | schema_mapper.py:35-47 | every income field name normalises to one of its own synonyms |
| SchemaMapper.BalanceMappingDistinct | schema_mapper.py:49-54 | the balance dictionary's fields are distinct |
| SchemaMapper.BalanceMappingDisjoint | schema_mapper.py:49-54 | the balance dictionary's synonym lists are pairwise disjoint |
| SchemaMapper.BalanceMappingSelfMatch | schema_mapper.py:49-54 | every balance field name normalises to one of its own synonyms |
| SchemaMapper.ShippedMappingsFixCanonicalHeaders | schema_mapper.py:35-54 | with the shipped dictionaries, every canonical header is bound and maps to itself |
| SchemaMapper.ShippedCanonicalMaps | schema_mapper.py:14-54 | applied to their own canonical headers, the shipped dictionaries give exactly the identity map on those headers |
| Validator.CoerceFromNumeric | validator.py:34 | coercing an already-coerced cell gives the same value |
| Validator.MissingColumns | validator.py:24 | the missing list is no longer than the required list |
| Validator.MissingColumnsMembers | validator.py:24 | a column is reported missing exactly when it is required and absent |
| Validator.MissingColumnsAppend | validator.py:24 | the missing columns of two concatenated required lists are the two missing lists concatenated, so they follow required-list order |
| Validator.HasNullMeans | validator.py:42 | a row is incomplete exactly when some required cell, `Year` included, is null |
| Validator.CountWithNulls | validator.py:42-45 | the reported count is at most the number of rows |
| Validator.CountWithNullsPositive | validator.py:42-43 | the count is positive exactly when some row is incomplete |
| Validator.YearsOfMembers | validator.py:49 | the set of years is the years of the rows |
| Validator.YearCountPositive | validator.py:49 | a year occurs exactly when it is in the set of years |
| Validator.RepeatedYearsCount | validator.py:49-52 | each year is listed once per occurrence after its first |
| Validator.RepeatedYearsMembers | validator.py:49-52 | a year is listed exactly when it occurs at least twice |
| Validator.HasNonNumericMeans | validator.py:58-59 | a column is flagged exactly when some raw cell fails coercion |
| Validator.NonNumericUpTo | validator.py:56-62 | the first `k` steps of the column loop report only non-numeric anomalies |
| Validator.NonNumericUpToMembers | validator.py:56-62 | a column is reported after `k` steps exactly when it is among the first `k`, is not `Year`, and has a cell that fails coercion |
| Validator.NonNumericAnomalies | validator.py:56-62 | the loop reports only non-numeric anomalies |
| Validator.NonNumericAnomaliesMembers | validator.py:56-62 | one report per non-`Year` required column with a cell that fails coercion |
| Validator.AnomaliesOrdered | validator.py:38-64 | missing values first, then duplicate years, then non-numeric columns; each of the first two kinds at most once |
| Validator.AnomaliesReportNulls | validator.py:42-46 | the missing-values report, with its count, appears exactly when some row is incomplete |
| Validator.AnomaliesReportDuplicates | validator.py:49-53 | the duplicate-years report appears exactly when some year repeats |
| Validator.AnomaliesReportNonNumeric | validator.py:56-62 | a column's non-numeric report appears exactly when the column is a non-`Year` required column with a failing cell |
| Validator.NullRaisesBoth | validator.py:42-59 | a missing non-`Year` required cell raises both the missing-values and that column's non-numeric report |
| Validator.NatToString | validator.py:45 | the rendered count has at least one digit |
| Validator.NatToStringRoundTrip | validator.py:45 | the rendered count reads back as the count |
| Validator.JoinLength | validator.py:87 | a join of `n` parts is `n - 1` separator lengths plus the lengths of the parts |
| Validator.JoinCons | validator.py:87 | a join is its first part, the separator, and the join of the remaining parts; with a one-part join being that part, this fixes every character of the strict-mode message |
| Validator.SchemaErrorMessage | validator.py:26-27 | the missing columns print as Python's repr of a list of strings, e.g. `name missing mandatory columns: ['Revenue', 'Net_Income']` |
| Validator.DuplicateYearsMessage | validator.py:49-53 | repeated years print as the repr of the year list: `[2021]` for an integer column, `[2021.0, nan]` when the Year column holds a NaN |
| Validator.RenderAll | validator.py:44-62 | one message per anomaly |
| Validator.CollectAnomalies | validator.py:38-64 | the appending loop returns exactly the rendered anomaly list |
| Validator.CoerceUpToGet | validator.py:31-35 | after `k` columns, exactly the converted non-`Year` cells have changed, each to its coerced value |
| Validator.CoerceRowGet | validator.py:31-35 | a converted row differs from the raw row only in its non-`Year` required cells, which hold their coerced values |
| Validator.CoerceUpToFixes | validator.py:31-35 | a row whose required cells are all numbers is left as it is |
| Validator.CoerceRows | validator.py:31-35 | conversion keeps every row |
| Validator.ConvertNumeric | validator.py:31-35 | the column-by-column loop converts every row as `CoerceRows` describes |
| Validator.DropIncompleteMembers | validator.py:93 | the rows kept are exactly the complete ones |
| Validator.DropDuplicateYearsSubset | validator.py:96 | deduplication keeps only input rows |
| Validator.DropDuplicateYearsKeepsYears | validator.py:96 | deduplication keeps every year |
| Validator.DropDuplicateYearsDistinct | validator.py:96 | after deduplication the years are distinct |
| Validator.InsertPermutes | validator.py:99 | inserting a row adds exactly that row |
| Validator.SortByYearPermutes | validator.py:99 | sorting is a permutation |
| Validator.InsertAscending | validator.py:99 | inserting a row with a new year into an ascending list keeps it ascending |
| Validator.SortByYearAscending | validator.py:99 | rows with distinct, present years sort strictly ascending |
| Validator.SortByYearFixesAscending | validator.py:99 | an ascending list is left as it is |
| Validator.CompleteYears | validator.py:93 | the years left after dropping are those of the complete rows |
| Validator.DropThenDedupMembers | validator.py:93-96 | the row kept for each year is its first complete row, because deduplication follows dropping |
| Validator.CleanSurvivors | validator.py:90-99 | the cleaned rows are exactly the first complete converted row of each year |
| Validator.CleanRowShape | validator.py:90-99 | every cleaned row is complete, has a year when `Year` is required, holds numbers in its required cells, and is an input row with its year kept and only its non-`Year` required cells coerced |
| Validator.CleanAscending | validator.py:93-99 | the cleaned rows have distinct years in ascending order |
| Validator.Validation | validator.py:69-144 | failure exactly on a missing column or on anomalies in `strict` mode, with the schema message or the messages joined by a space, a vertical bar and a space; otherwise the cleaned table, with the messages as warnings only in `auto_clean_warn` |
| Validator.Validate | validator.py:80-104 | the straight-line body returns exactly what `Validation` describes |
| Validator.ValidateIncomeStatement | validator.py:69-104 | the generic validator over the income columns and name, with `mode` defaulting to `auto_clean_warn` |
| Validator.ValidateBalanceSheet | validator.py:109-144 | the generic validator over the balance columns and name, with `mode` defaulting to `auto_clean_warn` |
| Validator.ModesCompared | validator.py:86-102 | without anomalies `strict` returns what every mode returns; an unknown mode string acts as `auto_clean` |
| Validator.DistinctNoRepeats | validator.py:49 | distinct years give no duplicate report |
| Validator.NoNonNumeric | validator.py:56-62 | with no failing cell no non-numeric report is made |
| Validator.DropIncompleteKeeps | validator.py:93 | complete rows are all kept |
| Validator.DropDuplicateYearsKeepsDistinct | validator.py:96 | rows with distinct years are all kept, in order |
| Validator.CleanRowsComplete | validator.py:93 | no cleaned row has a null required cell |
| Validator.CleanColumnNumeric | validator.py:90 | no cleaned non-`Year` required column has a failing cell |
| Validator.CleanHasNoAnomalies | validator.py:38-99 | a cleaned table raises no anomaly |
| Validator.CleanIsIdempotent | validator.py:90-99 | cleaning a cleaned table changes nothing |
| Validator.RevalidationIsIdentity | validator.py:80-104 | validating a validated table again, in any mode, returns it unchanged and without new warnings |
| FinancialMetrics.IncomeRecord | validator.py:6-11 | a row is an income record exactly when it has a year and numeric revenue, operating expense and net income; the year is kept and the revenue, operating expense and net income are the row's cells |
| FinancialMetrics.BalanceRecord | validator.py:13-18 | a row is a balance record exactly when it has a year and numeric assets, liabilities and equity; the year is kept and the assets, liabilities and equity are the row's cells |
| FinancialMetrics.ValidatedIncomeRowsAreRecords | validator.py:90-99 | every row of a validated income statement is an income record |
| FinancialMetrics.ValidatedBalanceRowsAreRecords | validator.py:130-139 | every row of a validated balance sheet is a balance record |
| FinancialMetrics.IncomeRecords | validator.py:90-99 | one record per row, in order, each carrying its row's year, revenue, operating expense and net income |
| FinancialMetrics.BalanceRecords | validator.py:130-139 | one record per row, in order, each carrying its row's year, total assets, total liabilities and equity |
| FinancialMetrics.ValidatedIncomeAscending | validator.py:93-99 | a validated income statement's years strictly increase |
| FinancialMetrics.ValidatedBalanceAscending | validator.py:133-139 | a validated balance sheet's years strictly increase |
| FinancialMetrics.MatchesOf | financial_metrics.py:11-16 | an income row joins at most as many balance rows as there are |
| FinancialMetrics.MatchesOfMembers | financial_metrics.py:11-16 | an income row joins exactly the balance rows with its year, fields unchanged |
| FinancialMetrics.MergeMembersAt | financial_metrics.py:11-16 | the join holds exactly the matches of each income row |
| FinancialMetrics.MergeMembers | financial_metrics.py:11-16 | a merged row is exactly the combination of an income and a balance row with the same year |
| FinancialMetrics.MergeYears | financial_metrics.py:11-16 | the merged years are the intersection of the two inputs' years |
| FinancialMetrics.Lookup | financial_metrics.py:11-16 | a found balance row is in the table and has the year asked for |
| FinancialMetrics.LookupNone | financial_metrics.py:11-16 | no row is found exactly when the year is absent |
| FinancialMetrics.LookupJoin | financial_metrics.py:11-16 | the lookup join has at most one row per income row |
| FinancialMetrics.MatchesOfUnique | financial_metrics.py:11-16 | with unique balance years, an income row joins its year's balance row or nothing |
| FinancialMetrics.MergeIsLookupJoin | financial_metrics.py:11-16 | with unique balance years, the inner join is the lookup join |
| FinancialMetrics.LookupJoinYears | financial_metrics.py:11-16 | every joined year is an income year |
| FinancialMetrics.LookupJoinDistinct | financial_metrics.py:11-16 | unique income years give unique joined years |
| FinancialMetrics.LookupJoinAscending | financial_metrics.py:11-16 | joined rows follow income order |
| FinancialMetrics.MergeUniqueYears | financial_metrics.py:11-16 | with unique years on both sides: one merged row per common year, no more rows than either input |
| FinancialMetrics.MergeAscending | financial_metrics.py:11-16 | ascending income years give ascending merged years |
| FinancialMetrics.ValidatedMerge | financial_metrics.py:11-16 | merging two validated statements gives strictly increasing years and no more rows than either input |
| FinancialMetrics.Ratio | financial_metrics.py:30-54 | a quotient exists exactly for a nonzero denominator and times the denominator gives the numerator |
| FinancialMetrics.RatiosOf | financial_metrics.py:30-54 | each of the five ratios has its source formula's numerator and denominator and keeps the row |
| FinancialMetrics.ComputeRatios | financial_metrics.py:25-56 | one ratio row per row, each keeping its fields; for every row the five ratios exist exactly for a nonzero denominator, and each times its denominator gives its numerator: operating margin from revenue less operating expense over revenue, net margin and returns on assets and equity from net income, debt ratio from liabilities over assets |
| FinancialMetrics.DuPont | financial_metrics.py:34-47 | return on assets is margin times asset turnover, and return on equity is return on assets times leverage |
| FinancialMetrics.DebtRatioComplement | financial_metrics.py:52-54 | when assets equal liabilities plus equity, the debt ratio and the equity share add to one |
| FinancialMetrics.OperatingMarginComplement | financial_metrics.py:30-32 | operating margin and the expense share add to one |
| Forecasting.BreakEven | forecasting.py:6-13 | an answer exactly when both inputs are given and the ratio is below one; revenue then covers fixed and variable cost exactly, and is not negative for a non-negative fixed cost |
| Forecasting.BreakEvenDefaults | forecasting.py:6-26 | the default fixed cost 200000 at the default ratio 0.30 gives a little over 285714.28 |
| Forecasting.RowFor | forecasting.py:58-70 | a forecast row carries the `Forecast` tag that the `Type` column holds |
| Forecasting.YearRow | forecasting.py:39-70 | one pass of the loop body gives a `Forecast` row |
| Forecasting.ProjectionRow | forecasting.py:38-70 | forecast year `i` is a `Forecast` row |
| Forecasting.Projection | forecasting.py:38 | one forecast row per year ahead |
| Forecasting.ForecastMethod | forecasting.py:28-75 | the loop over the three accumulators returns exactly the historical rows followed by the projection |
| Forecasting.ForecastShape | forecasting.py:36-75 | as many rows as the history plus max(years_ahead, 0); historical rows first and unchanged; forecast row `i` dated `i` years after the last historical year |
| Forecasting.ForecastYearsIncrease | forecasting.py:36-39 | forecast years follow the last historical year and strictly increase |
| Forecasting.CarryOver | forecasting.py:41-55 | each forecast row grows the previous row's revenue and liabilities and adds its net income to the previous row's assets; the first starts from the last historical row |
| Forecasting.CompoundedClosedForm | forecasting.py:41-47 | compounding `n` times multiplies by `(1 + rate)^n` |
| Forecasting.ClosedForms | forecasting.py:41-47 | forecast revenue is `seed·(1+g)^i` and liabilities `seed·(1+d)^i` |
| Forecasting.CompoundedNonNegative | forecasting.py:41 | a non-negative value compounded at a rate of at least -100% stays non-negative |
| Forecasting.CompoundedIncreasing | forecasting.py:41 | a positive value compounded at a positive rate is positive and strictly increasing |
| Forecasting.RevenueIncreasing | forecasting.py:41 | with positive growth and seed, forecast revenue exceeds the last historical revenue and the year before |
| Forecasting.RevenueNonNegative | forecasting.py:41 | with growth of at least -100% and a non-negative seed, forecast revenue is not negative |
| Forecasting.AssetsAccumulate | forecasting.py:53-55 | assets after `n` years are the last historical assets plus the net income of those years |
| Forecasting.TaxFacts | forecasting.py:42-55 | the per-row identities of a forecast year: operating expense is fixed cost plus revenue times the variable-cost ratio, EBIT is revenue less operating expense, interest is liabilities times the interest rate, net income is EBIT less interest and tax, assets are the prior assets plus net income, and equity is assets less liabilities; tax is not negative at a non-negative rate, zero without taxable income (net income is then the pre-tax result), the rate times taxable income otherwise |
| Forecasting.WorkedYear2022 | forecasting.py:39-70 | the 2022 row from the 2021 seed at 10% growth has revenue 1,100,000, operating expense 530,000, EBIT 570,000, interest 35,000, tax 133,750, net income 401,250, assets 1,901,250, liabilities 700,000 and equity 1,201,250 |
| Forecasting.DefaultForecast | forecasting.py:18-41 | with the keyword defaults, three forecast years follow the history, and a positive last revenue rises year on year |
| Forecasting.BasicForecast | test_forecasting.py:5-32 | three historical years and two forecast years give five rows, a last revenue above the last historical one, and no negative revenue |
| CashFlow.ComputeCashFlow | cashflow.py:11-13 | one row per input row, each keeping its fields, with operating cash flow equal to net income |
| CashFlow.CashFlowDifferences | cashflow.py:14-17 | the first row has zero investing and financing cash flow; every later row has the fall in assets and the rise in liabilities from the row before |
| CashFlow.FinancingPrefix | cashflow.py:15-17 | the first `n` financing values add up to the change in liabilities over those rows |
| CashFlow.InvestingPrefix | cashflow.py:14-17 | the first `n` investing values add up to the fall in assets over those rows |
| CashFlow.CashFlowTelescopes | cashflow.py:14-17 | the financing column sums to last less first liabilities, and the investing column to first less last assets |
| Insights.Divide | insights.py:4-6 | a finite quotient exactly for a nonzero divisor, and times the divisor it gives the dividend |
| Insights.GenerateInsights | insights.py:1-21 | two or three messages: growth only when revenue grew by more than 20% and then first; then exactly one profitability message; then exactly one leverage message |
| Insights.GrowthRule | insights.py:4-9 | with a nonzero first revenue the growth rule compares the ratio; with a zero one it fires exactly for a positive last revenue |
| Insights.GrowthThreshold | insights.py:4-9 | with positive first revenue, strong growth means the last revenue exceeds 1.2 times the first |
| Insights.LeverageRule | insights.py:6-19 | high leverage exactly when the debt ratio exceeds 0.6, so exactly 0.6 is manageable; with zero assets, exactly for positive liabilities |
| Insights.SingleRow | insights.py:4-14 | a single row gives no growth and no improvement message |
| Common.Max | forecasting.py:51 | the larger of two values |

## Left out

- **UI and persistence.** The dashboard page in app.py, storage.py, view_scenarios.py and data_loader.py are not part of this model. They are UI glue, SQLite I/O with timestamps, and a CSV loader whose only logic is `map_columns`.
- **Test drivers.** The print-only test drivers over CSV files are not modelled. test_forecasting.py is the one test whose assertions are stated here (`Forecasting.BasicForecast`).
- **IEEE-754 arithmetic.** Rounding, signed zero and NaN/infinity propagation are not modelled. Ratios with a zero denominator are `None`. The insight rules model the outcome of a comparison against an infinite or NaN quotient.
- **Numeric coercion rules.** How `pd.to_numeric` parses text is left to the `parse` parameter.
- **Textual `Year` values.** A textual `Year` value is not modelled: `Year` is `Option<int>` from the start.
- **Year truncation.** `int()` truncation of a float year in `forecast_financials` is not modelled, because the year is already an integer.
- **Extra columns and join details.** The extra pass-through columns of the merged frame are not modelled, and neither are the `_x`/`_y` suffixes of clashing labels. The merged frame is a typed record with the seven fields.
- **Duplicate-year join.** A cartesian join on duplicate years is modelled by `FinancialMetrics.Merge`. Its count bounds are proved only for unique years, which validation guarantees.
- **Text repr in messages.** The repr of a column name that itself contains a quote is not modelled: names are always wrapped in `'…'`.
- **Sort algorithm.** The sort is an insertion sort rather than pandas' quicksort. The two agree on the distinct years that remain after deduplication.
- **Unicode.** `str.lower()` is modelled over ASCII only.
- **Mutation.** Every operation works on values. The source's `copy()` calls, which keep the caller's frame unchanged, are implicit in that.
- **Warnings storage.** Warnings are returned beside the table instead of being stored in `df.attrs`. Warnings already on the input frame are carried through `copy`, `dropna`, `drop_duplicates` and `sort_values` by pandas. That carry-over is not modelled: an `Outcome` reports only the current call's anomalies.
- Validator.RevalidationIsIdentity: states "no new warnings". Revalidating a frame whose `attrs` already hold warnings returns those old warnings in the source, which the model does not capture.
- SchemaMapper.FirstMatch: its own contract states only the found case; the not-found case is stated by `SchemaMapper.FirstMatchNone`.
