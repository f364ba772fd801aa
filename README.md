# Consumption dashboard: reconciliation and aggregation core

The consumption dashboard tracks one territory owner's cloud consumption
over a fiscal year that runs from June to May. It merges three feeds:

- the realised consumption of existing tenancies, read from a CSV of
  monthly amounts per customer;
- N/E deals from OSC;
- non-booking (NB) workloads.

Each feed becomes a section of rows with one amount per month. The
sections are summed into per-section subtotal rows and then into a
ledger, "Modeled Consumption Summary". The ledger is compared against a
target row, which spreads the yearly target evenly over the twelve months.
That comparison gives a gap-to-goal row and two progress percentages
(N/E against the N/E target, consumption growth against the growth
target).

Two versions of the component are modelled:

- the current one, `components/consumption-dashboard.tsx`;
- the legacy one, `components/consumption-dashboard_old.tsx`.

They share most of their logic and differ in the details recorded below.

How the model is laid out:

- `calendar.dfy`: the fiscal months, `monthMap` and `months`.
- `text.dfy`: the JavaScript string operations used: `split`, `trim`,
  `slice` and the currency-input filter.
- `values.dfy`: JavaScript numbers as finite reals or NaN.
- `rows.dfy`: the `Subscription` row and `calculateTotal`.
- `csv.dfy`: both `parseCsvData` splitters.
- `merge.dfy`: the current realised-consumption merge (`updateExistingSubscriptions`).
- `legacy_merge.dfy`: the legacy merge, as a projection of that same merge.
- `pipeline.dfy`: the pipeline feeds and the cell editor of the current dashboard.
- `aggregate.dfy`: subtotal rows and the ledger.
- `goals.dfy`: the current target row, gap, progress and settings handler.
- `legacy_feeds.dfy`: the legacy mutable row objects, their in-place cell
  handlers and the legacy ledger.
- `legacy_goals.dfy`: the legacy target, gap and progress, including
  JavaScript division by zero.

Modelling choices:

- `parseFloat` and `parseInt` are parameters of the operations that use them
  (`string -> Option<real>`, where `None` is NaN).
- A row's month properties are a map from slot to number. An `undefined`
  property is a missing key.
- The slot `UndefinedKey` stands for the property literally named
  "undefined". `row[month] = ...` writes it when `monthMap` has no entry for
  the month.
- Where the code does something step by step, it becomes a method with a
  loop. Each such method is proved equal to a function, and the lemmas are
  about that function. These are the merge pass, the subtotal and ledger
  passes, and the legacy gap pass.
- JavaScript primitives are defined directly and carry no separate claim:
  `Values.Add` is `+` with NaN absorbing, `Values.Scale` is
  `parseFloat(...) * 1000`, `Values.OrZero` is `Number(v) || 0`,
  `Merge.Consumption` is the guarded amount read of the current merge,
  `Text.Drop` is `slice(n)` and `Csv.TrimAll` maps `trim`. What is proved
  about them is stated by the lemmas that use them (`Values.AddLaws`,
  `Text.DropAfterPrefix`, `Merge.SlotOf`, `Merge.MergedRowContents`,
  `Csv.ParseCsvDataFields`).
- The legacy rows that are changed in place are classes.
- The current merge and the legacy merge are a single function,
  `Merge.MergeAll`, parameterised by the cells a new row starts from. The
  legacy merge is proved to be that merge from zero-filled rows with `total`
  dropped.

## Model

| member | source | states |
|---|---|---|
| Calendar.Index | components/consumption-dashboard.tsx:71 | each month has a position in `months` holding that month |
| Calendar.MonthOfAbbrev | components/consumption-dashboard.tsx:56-69 | an abbreviation reads back as a month exactly when it is a key of `monthMap`, and that month's abbreviation and name are the entry |
| Calendar.MonthsEnumerateYear | components/consumption-dashboard.tsx:71 | `months` has twelve entries, lists every month exactly once from June to May, and entry i is the name of month i |
| Calendar.MonthMapKeys | components/consumption-dashboard.tsx:56-69 | the keys of `monthMap` are exactly the twelve abbreviations, each mapping to its month's name |
| Calendar.MonthMapValues | components/consumption-dashboard.tsx:56-69 | the values of `monthMap` are exactly the names listed in `months` |
| Calendar.MonthMapInjective | components/consumption-dashboard.tsx:56-69 | distinct abbreviations map to distinct names, and every month's abbreviation reads back as that month |
| Calendar.AllMonthsListed | components/consumption-dashboard.tsx:71 | every month occurs in `months` |
| Text.Split | components/consumption-dashboard.tsx:43 | splitting yields at least one piece and no piece contains the separator |
| Text.JoinSplit | components/consumption-dashboard.tsx:43 | joining the pieces of a split with the separator restores the text |
| Text.SplitJoin | components/consumption-dashboard.tsx:43 | splitting the join of separator-free pieces gives back exactly those pieces |
| Text.SplitCount | components/consumption-dashboard.tsx:43 | a split has one more piece than the text has separators |
| Text.Trim | components/consumption-dashboard.tsx:44 | `trim` yields an infix of the text with only whitespace cut on either side, and the result neither starts nor ends with whitespace |
| Text.TrimUntouched | components/consumption-dashboard.tsx:47 | text that neither starts nor ends with whitespace is left unchanged by `trim` |
| Text.TrimIdempotent | components/consumption-dashboard.tsx:47 | trimming twice equals trimming once |
| Text.KeepNumeric | components/consumption-dashboard.tsx:252 | the filter keeps only digits, points and minus signs and never lengthens the text |
| Text.KeepNumericCounts | components/consumption-dashboard.tsx:252 | every digit, point and minus sign survives as often as it occurs, and every other character disappears |
| Text.KeepNumericUntouched | components/consumption-dashboard.tsx:252 | text made only of digits, points and minus signs passes through unchanged |
| Text.KeepNumericChar | components/consumption-dashboard.tsx:252 | a single character survives the filter exactly when it is a digit, a point or a minus sign |
| Text.KeepNumericConcat | components/consumption-dashboard.tsx:252 | the filter keeps the order of the characters it keeps: filtering a concatenation is concatenating the filtered parts |
| Text.DropAfterPrefix | components/consumption-dashboard.tsx:330 | slicing off a prefix of length n leaves exactly the rest, so `"FY25-" + abbr` yields `abbr` |
| Text.KeepNumericIdempotent | components/consumption-dashboard.tsx:252 | filtering twice equals filtering once |
| Values.AddLaws | components/consumption-dashboard.tsx:235 | `+` on row amounts is commutative and associative, with 0 as unit |
| Rows.ZeroMonths | components/consumption-dashboard.tsx:380-382 | a fresh pipeline row has all twelve months at 0 and no stray "undefined" key |
| Rows.MonthsTotalMeaning | components/consumption-dashboard.tsx:233-240 | the fold of `calculateTotal` over a list of months is NaN exactly when one of those months holds NaN, and otherwise sums the defined months |
| Rows.CalculateTotalMeaning | components/consumption-dashboard.tsx:233-240 | a row total is NaN exactly when a month is NaN, and otherwise the sum of the defined months |
| Rows.CalculateTotalInsert | components/consumption-dashboard.tsx:233-240 | setting a month that was `undefined` adds its amount to the row total |
| Rows.MonthsTotalIgnoresStrayKey | components/consumption-dashboard.tsx:235 | the row total reads only month properties, so the stray "undefined" key does not change it |
| Csv.Lines | components/consumption-dashboard.tsx:43 | a text always has at least one line |
| Csv.BuildPrefixField | components/consumption-dashboard.tsx:48-51 | after the reduce has run over the first n headers, a header with no later duplicate among them holds the field at its own position, or is unset past the end of the line |
| Csv.BuildPrefixKeys | components/consumption-dashboard.tsx:48-51 | a record built from the first n headers has no key outside those headers |
| Csv.BuildRecordFields | components/consumption-dashboard.tsx:48-51 | each header, at its last occurrence, holds the field at its position (or is unset for a short line), and the record has no other key |
| Csv.ParseCsvDataCount | components/consumption-dashboard.tsx:42-54 | both parsers yield one record per line after the header line, that is one per newline character |
| Csv.ParseCsvDataFields | components/consumption-dashboard.tsx:42-54 | in record i, each trimmed header holds the trimmed field at the same position of line i+1, is unset past that line's end, and no other key is present |
| Csv.TrimmedRecordFields | components/consumption-dashboard.tsx:47-51 | a record built from trimmed fields holds at each header the trimmed field at that position, or nothing for a short line |
| Csv.ParseCsvDataLegacyFields | components/consumption-dashboard_old.tsx:55-65 | in legacy record i, each header holds its field untrimmed, at the same position |
| Csv.ParsersAgreeOnTrimmedText | components/consumption-dashboard_old.tsx:55-65 | on text whose fields carry no surrounding whitespace the legacy and the current parser give the same records |
| Merge.FilterByOwner | components/consumption-dashboard.tsx:325 | the kept records are exactly the input's records owned by the e-mail |
| Merge.FilterConcat | components/consumption-dashboard.tsx:325 | filtering a concatenation is concatenating the filtered parts |
| Merge.OtherOwnersIgnored | components/consumption-dashboard.tsx:325 | inserting a record of another owner anywhere leaves the filtered records unchanged |
| Merge.SlotOf | components/consumption-dashboard.tsx:330-331 | the month written is the one whose abbreviation follows the first five characters; an abbreviation unknown to `monthMap` gives the stray "undefined" key |
| Merge.ReadAll | components/consumption-dashboard.tsx:328-334 | when every record reads, there is one reading per record, in order |
| Merge.ReadAllFails | components/consumption-dashboard.tsx:330 | the merge throws exactly when some owned record has no `Fiscal Month` |
| Merge.ReadAllStopsAtFailure | components/consumption-dashboard.tsx:330 | once a record throws, the whole merge throws with that record's error |
| Merge.FindCustomer | components/consumption-dashboard.tsx:337 | `find` returns the first row of the customer, and nothing exactly when the customer has no row |
| Merge.UpdateExistingSubscriptions | components/consumption-dashboard.tsx:319-358 | the one-pass loop returns the previous feed while no CSV text is loaded; otherwise it returns the merge of the owner's records, or the error of the first record without a fiscal month |
| Merge.MergeStepCustomers | components/consumption-dashboard.tsx:337-351 | one record either keeps the list of customers (known customer) or appends its customer (new customer) |
| Merge.MergedCustomers | components/consumption-dashboard.tsx:328-354 | the merged rows list each customer of the records exactly once, in order of the customer's first record |
| Merge.MergedCustomersCover | components/consumption-dashboard.tsx:328-354 | a customer has a merged row exactly when it has a record |
| Merge.MergedRowContents | components/consumption-dashboard.tsx:339-351 | each month of a row holds the customer's last amount for it (else stays as a new row starts it), and `total` sums all of the customer's amounts |
| Merge.MergedTotalIsRowTotal | components/consumption-dashboard.tsx:339-351 | with no repeated (customer, month) and only known months, every row's `total` equals `calculateTotal` of the row |
| Merge.RepeatedMonthDrifts | components/consumption-dashboard.tsx:339-340 | two records of one customer for one month leave the month at the second amount while `total` counts both |
| Merge.UnknownMonthDrifts | components/consumption-dashboard.tsx:331 | a record whose month is not in `monthMap` adds to `total` but to no month |
| Merge.RecomputedMergeKeepsTotal | components/consumption-dashboard.tsx:339-340 | recomputing `total` after each update gives rows that differ from the merge as written only in having `total` equal to `calculateTotal`, on every input |
| LegacyMerge.LegacyFind | components/consumption-dashboard_old.tsx:235 | `find` returns the first legacy row of the customer, and nothing exactly when there is none |
| LegacyMerge.UpdateExistingSubscriptionsLegacy | components/consumption-dashboard_old.tsx:222-252 | the legacy one-pass loop returns the legacy merge of the owner's untrimmed records, or the error of the first record without a fiscal month |
| LegacyMerge.LegacyMergeIsZeroFilledMerge | components/consumption-dashboard_old.tsx:229-248 | the legacy merge is the current merge started from zero-filled rows, with `total` dropped |
| LegacyMerge.LegacyMergedCustomers | components/consumption-dashboard_old.tsx:229-248 | legacy rows list each customer once, in order of first record |
| LegacyMerge.LegacyMergedCells | components/consumption-dashboard_old.tsx:237-245 | each month of a legacy row holds the customer's last amount for it, or 0; the stray key holds the last amount for an unknown month, if any |
| LegacyMerge.EmptyAmountDiffers | components/consumption-dashboard_old.tsx:233 | an empty or absent amount is NaN in the legacy merge and 0 in the current one |
| Aggregate.ColumnTotals | components/consumption-dashboard.tsx:436 | a section has an entry for every month, which is the column sum of `Number(row[m]) \|\| 0` |
| Aggregate.CalculateSectionTotal | components/consumption-dashboard.tsx:433-440 | the month loop yields the section's column sums and, as `total`, their sum over the twelve months |
| Aggregate.SectionTotalIsSumOfRows | components/consumption-dashboard.tsx:433-440 | a subtotal's `total` equals the sum over all rows and months of `Number(row[m]) \|\| 0` |
| Aggregate.SectionTotalIsSumOfRowTotals | components/consumption-dashboard.tsx:433-440 | with no NaN month, a subtotal's `total` is the sum of the rows' `calculateTotal` |
| Aggregate.RowTotalsAreRowSums | components/consumption-dashboard.tsx:233-240 | with no NaN month, the rows' `calculateTotal` values add up to the sum of their months read as `Number(v) \|\| 0` |
| Aggregate.ColumnSumConcat | components/consumption-dashboard.tsx:436 | a column sum over two row lists is the sum of their column sums |
| Aggregate.MonthSumAdd | components/consumption-dashboard.tsx:448-451 | summing over months commutes with adding three month maps |
| Aggregate.MonthSumOfColumns | components/consumption-dashboard.tsx:433-440 | summing the column sums over months equals summing each row's months |
| Aggregate.LedgerMonths | components/consumption-dashboard.tsx:448-449 | each ledger month is the sum of that month in the three subtotal rows |
| Aggregate.TotalConsumption | components/consumption-dashboard.tsx:446-453 | the month loop yields the three sections added month by month, with `total` the sum of those months |
| Aggregate.LedgerOfSections | components/consumption-dashboard.tsx:446-453 | the ledger of three subtotal rows is the subtotal row of all their rows together, and its `total` is the sum of the three subtotals |
| Aggregate.LedgerTotalIsMonthSum | components/consumption-dashboard.tsx:446-453 | the ledger has every month and its `total` is the sum of its twelve months |
| Aggregate.ColumnSumUpdate | components/consumption-dashboard.tsx:436 | replacing one row's cells moves a column sum by exactly the change in that row's cell |
| Pipeline.NeFeedRows | components/consumption-dashboard.tsx:360-389 | with CSV text loaded, the N/E feed has one row per owned record in file order, carrying its customer, parsed amount, date and probability, with zero months and a `total` equal to `calculateTotal` |
| Pipeline.WorkloadFeedRows | components/consumption-dashboard.tsx:391-425 | the same for the NB workload feed, with `wlAmount` from the `Workload` column |
| Pipeline.ZeroFilledColumn | components/consumption-dashboard.tsx:380-382 | a column sum over zero-filled rows is 0 |
| Pipeline.ZeroFeedSection | components/consumption-dashboard.tsx:433-440 | a freshly loaded pipeline feed has the subtotal row of an empty feed |
| Pipeline.ParseCurrencyInputIgnoresSymbols | components/consumption-dashboard.tsx:251-254 | currency input already stripped of symbols parses the same as the typed text |
| Pipeline.EditChangesOneCell | components/consumption-dashboard.tsx:256-263 | an edit leaves the other rows and the row's other fields unchanged; the edited month becomes `undefined` for empty text and the parsed amount otherwise |
| Pipeline.EditMovesOneSubtotal | components/consumption-dashboard.tsx:256-263 | an edit moves the feed's subtotal for the edited month by exactly the change in that cell and leaves every other month's subtotal unchanged |
| Goals.TargetRowAddsUp | components/consumption-dashboard.tsx:455-463 | every month of the target row is (baseline + growth) / 12, its `total` is baseline + growth, and its months add up to its total |
| Goals.GapMonths | components/consumption-dashboard.tsx:470-473 | every month's gap is the monthly target minus the ledger's month |
| Goals.GapTotalIsSumOfMonthlyGaps | components/consumption-dashboard.tsx:467-478 | for a ledger built by `totalConsumption`, the gap's `total` (target minus ledger total) equals the sum of the monthly gaps |
| Goals.HighConfidenceRows | components/consumption-dashboard.tsx:486 | the kept rows are exactly the input rows whose probability is present, non-zero and at least 90 |
| Goals.HighConfidenceRowsConcat | components/consumption-dashboard.tsx:484-490 | the filter keeps the rows' order: filtering a concatenation is concatenating the filtered parts |
| Goals.HighConfidenceSumIsFilteredSum | components/consumption-dashboard.tsx:484-490 | the conditional fold equals the plain sum of `neAmount \|\| 0` over the high-confidence rows |
| Goals.NeAmountSumConcat | components/consumption-dashboard.tsx:484-490 | the N/E amount sum over two row lists is the sum of their sums |
| Goals.NeTargetProgressMeaning | components/consumption-dashboard.tsx:481-493 | N/E progress is 0 for a zero target, otherwise 100 × qualifying amount / target; for a positive target it reaches 100 exactly when the qualifying amount reaches the target |
| Goals.ProbabilityThreshold | components/consumption-dashboard.tsx:486 | for every amount and every non-zero target, a 90 % deal counts toward N/E progress with its full amount (`neAmount \|\| 0`) and an 89 % deal adds nothing |
| Goals.ProbabilityThresholdExample | components/consumption-dashboard.tsx:486 | a 90 % deal of 50000 is 50 % of a 100000 target, and an 89 % deal is 0 % |
| Goals.ConsumptionProgressMeaning | components/consumption-dashboard.tsx:495-499 | progress is 0 for a zero growth target, otherwise 100 × growth over baseline / growth target; for a positive growth target it reaches 0 exactly at the baseline and 100 exactly at the total target |
| Goals.ConsumptionProgressUnclamped | components/consumption-dashboard.tsx:495-499 | progress is not clamped: twice the growth gives 200 and a drop below the baseline gives a negative figure |
| Goals.HandleDataChangeProperties | components/consumption-dashboard.tsx:270-276 | an edit changes only its own setting, repeating it changes nothing more, and the saved payload equals the new state when the handler's render shows the previous state |
| Goals.TwoEditsInOneRender | components/consumption-dashboard.tsx:270-276 | for two edits handled in one render, the state keeps both, but the second save carries the first setting as it was before the first edit |
| LegacyFeeds.NeFromOscRow.constructor | components/consumption-dashboard_old.tsx:42-49 | a new N/E row carries its deal data and has all months at 0 |
| LegacyFeeds.NonBookingWorkloadRow.constructor | components/consumption-dashboard_old.tsx:50-53 | a new non-booking row carries its customer and has all months at 0 |
| LegacyFeeds.HandleNeChange | components/consumption-dashboard_old.tsx:199-203 | the returned array holds the same row objects; the row at the index has its month set to the parsed text in place; every other row object keeps its months |
| LegacyFeeds.HandleNonBookingChange | components/consumption-dashboard_old.tsx:205-209 | the same in-place write on the non-booking rows |
| LegacyFeeds.EmptyEditIsNaN | components/consumption-dashboard_old.tsx:199-203 | empty text makes a legacy cell NaN, where the current handler makes it `undefined` |
| LegacyFeeds.LegacyTotalConsumption | components/consumption-dashboard_old.tsx:263-277 | the legacy ledger is the current ledger of the three collections' subtotal rows |
| LegacyFeeds.SumColumnsByMonth | components/consumption-dashboard_old.tsx:265-274 | the month loop over three cell columns yields the ledger of their subtotal rows |
| LegacyFeeds.LegacyLedgerIsOneSection | components/consumption-dashboard_old.tsx:263-277 | the legacy ledger is the subtotal row of all three collections' rows together, and its `total` the sum of its months |
| LegacyGoals.LegacyTargetRow | components/consumption-dashboard_old.tsx:279-288 | every month of the legacy target row is the stored target / 12 and its `total` is the stored target |
| LegacyGoals.LegacyGapToGoal | components/consumption-dashboard_old.tsx:291-303 | the month loop yields target-minus-actual for each month and, as `total`, the sum of those gaps |
| LegacyGoals.LegacyGapMatchesCurrent | components/consumption-dashboard_old.tsx:291-303 | for a ledger whose `total` sums its months, the legacy gap row equals the current one, and its total is target minus ledger total |
| LegacyGoals.LegacyNeTargetProgressMeaning | components/consumption-dashboard_old.tsx:305-308 | for a non-zero target the legacy N/E progress is a number equal to 100 × (sum of all amounts) / target; a zero target gives an infinity or NaN |
| LegacyGoals.NeAmountTotalConcat | components/consumption-dashboard_old.tsx:306 | the legacy N/E sum counts every row once, whatever its probability |
| LegacyGoals.LegacyProgressCanBeNaN | components/consumption-dashboard_old.tsx:310-314 | legacy progress is NaN exactly when the growth target is 0 and the ledger is at the baseline; otherwise it is a number in [0, 100] |
| LegacyGoals.ClampedConsumptionProgress | components/consumption-dashboard_old.tsx:310-314 | the corrected progress always lies in [0, 100] |
| LegacyGoals.ClampedAgreesWhereLegacyIsDefined | components/consumption-dashboard_old.tsx:310-314 | for a non-zero growth target, the legacy progress equals the corrected progress |

## Left out

- Rendering is not modelled: the JSX, tables, `ProgressBar`, `InputPopover`, `EditableMoneyCell` and the tooltips. None of them changes the figures.
- `formatMoney` and `formatCurrency` only format for display.
- Fetching the CSV files, `useEffect`, `useCallback` and `useMemo` are not modelled. Each memo is modelled as the function it recomputes, and each effect as the update it calls.
- `saveUserData`, its `debounce`, the `/api/userData` calls and `handleClearData` are network I/O. `HandleDataChange` returns the saved payload instead. `app/api/userData/route.ts`, `components/editable-money-cell.tsx` and `components/ui/input.tsx` are not part of this model.
- `Papa.parse` is a library call. The N/E and NB feeds take its parsed records as an input.
- `console.log` and the legacy `addDebugInfo` debug list are logging only.
- IEEE floating point is not modelled: amounts are exact reals or NaN, with no rounding. Infinities are modelled only where the legacy progress memos divide by zero (`Extended`). An amount field can also yield ±Infinity, from `parseFloat("Infinity")` or from a parsed value that overflows when multiplied by 1000 (components/consumption-dashboard.tsx:334, 371). The `parseFloat` parameter has no way to return such a value, and cells never hold one in this model.
- The legacy initial sample rows of `neFromOsc` and `nonBookingWorkloads` are constant data. The constructors state the shape those rows take.
- Legacy `handleDashboardDataChange` stores the input string as it is and re-runs the merge when the e-mail changes. The legacy settings are modelled as numbers, so that string coercion is not captured.
- Pipeline.HandleNeChange and Pipeline.EditChangesOneCell cover an edit of a month field only. Edits of `customer`, `neAmount` and the other fields go through the same spread but are not modelled.
- The `onChange` at components/consumption-dashboard.tsx:738 is wired to the wrong feed in the UI. That is outside the computation.
- Pipeline.HandleNeChange, LegacyFeeds.HandleNeChange and LegacyFeeds.HandleNonBookingChange require the index to lie inside the array. A write past the end of a JavaScript array, which lengthens it with holes, is not modelled.
- Object property names that collide with `Object.prototype` members such as `constructor` are not modelled. JavaScript strings are UTF-16 and `slice` counts code units; here strings are sequences of characters.
- LegacyGoals.LegacyNeTargetProgressMeaning does not state the "reaches 100 exactly when the amount reaches the target" equivalence that Goals.NeTargetProgressMeaning states for the current dashboard.
- `parseFloat` and `parseInt` are not defined here. They are parameters, so no property depends on how a particular text parses, except where a lemma names the parse it assumes.

## Findings

| source | as written | input that shows it | evidently intended | confidence | as-written member | corrected member |
|---|---|---|---|---|---|---|
| components/consumption-dashboard.tsx:339-340 | a repeated record of a customer for a month overwrites the month but is added to the row's `total` again | two owned records `Acme, FY25-JUN, 10` and `Acme, FY25-JUN, 20`: June holds 20000, `total` is 30000, `calculateTotal` is 20000 | the row's `total` equals the sum of its months, as it does for freshly loaded pipeline rows | not executed | Merge.RepeatedMonthDrifts | Merge.RecomputedMergeKeepsTotal |
| components/consumption-dashboard_old.tsx:310-314 | the clamp, whose comment says the progress lies between 0 and 100, lets NaN through | a growth target of 0 with the ledger total equal to the baseline: `0 / 0 * 100` is NaN, and `Math.max` and `Math.min` keep NaN | a progress figure in [0, 100] on every input | not executed | LegacyGoals.LegacyProgressCanBeNaN | LegacyGoals.ClampedConsumptionProgress |

For the first finding: the seeded `total` of a merged row is not read by
any section total, ledger or progress figure. Those all recompute from the
months. The drift therefore shows only where `total` itself is read. Such
a record's amount also counts in `total` when its month is unknown to
`monthMap` (Merge.UnknownMonthDrifts).
A pipeline row's `total` also goes stale after an edit.
`handleNeChange` (components/consumption-dashboard.tsx:256-263) changes the month
but keeps the row's `total` of 0, as Pipeline.EditChangesOneCell states.
