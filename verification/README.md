# pnlboard core in Dafny

This project models the computational core of pnlboard, a single-user profit-and-loss dashboard. The user keeps two twelve-month series of raw figures: planned (`target`) and realised (`actual`). Each month has seven line items: sales, material cost, administrative and manufacturing labor, administrative and manufacturing overhead, and depreciation. The dashboard derives margins, cost ratios and a break-even point from them. The model covers:

- **Types** (`types.dfy`, from `types.ts`). The month record `MonthlyData` with field access by `Field`. The year buffer `YearData` with its two series. The derived `CalculatedMetrics` record. The twelve month names and the zero record `INITIAL_MONTHLY_DATA`.
- **Calculations** (`calculations.dfy`, from `utils/calculations.ts`).
  - `calculateMetrics` as `CalculateMetrics`.
  - `getCumulativeData` as `CumulativeData`, the running-total loop written as accumulator recursion.
  - The field-wise sum of a series: `Sum`, the fold the year total uses.
- **Text** (`text.dfy`). The string functions the data-entry grid uses:
  - stripping to `[0-9.-]`;
  - `parseFloat` on stripped text;
  - `split('\t')` and `split(/\r\n|\n|\r/)`;
  - the `trim`-based blank-row filter.
- **DataEntry** (`data_entry.dfy`, from `components/DataEntryModal.tsx`).
  - The `fields` row order.
  - `handleChange`: a typed cell.
  - `handlePaste`: a pasted block of tab- and newline-separated text anchored at a (month, row) cell.
- **App** (`app.dfy`, from `App.tsx`).
  - The zero-filled default dataset.
  - `totalActual`: the summed actual figures and their metrics.
  - `dashboardData`: one chart/table row per month.

Numbers are Dafny `real`s, and every division in the source is guarded, so each function is total. `parseFloat`'s NaN is `None`.

Typed and pasted cells treat text that is not a number differently. When typed text strips to something that does not start a number, such as "-" or ".", `handleChange` stores `parseFloat`'s NaN in that cell and keeps the rest of the buffer. A pasted cell in the same case stores 0 (`|| 0`). A real cannot hold NaN, so for that one typed case `HandleChange` returns `None` rather than a buffer.

## Model

| member | source | states |
|---|---|---|
| `Types.FieldwiseEqual` | types.ts:1-9 | Two month records are equal when they agree on all seven line items. |
| `Types.MonthNamesCount` | types.ts:34-37 | There is one month name per month, so month indices run over 0..11. |
| `Types.ZeroIsAllZero` | types.ts:41-49 | The initial record holds 0 in every line item. |
| `Calculations.CalculateMetrics` | utils/calculations.ts:3-54 | Labor, overhead, material and fixed-cost totals are the sums of their line items. Operating profit is sales minus material and fixed costs, and depreciation is subtracted once more after that. With sales ≤ 0, every ratio and the break-even point are 0. With positive sales, the material, labor and expense ratios and the operating margin add up to 100. The fixed-cost ratio is labor plus expense. The marginal-profit ratio is 100 minus the material ratio. The marginal-profit ratio is positive exactly when 0 < sales and material cost < sales. Otherwise the break-even point is 0. |
| `Calculations.MarginsAreProfitShares` | utils/calculations.ts:14-19 | With positive sales, both operating margins (before and after depreciation) times sales equal 100 times the matching operating profit. |
| `Calculations.RatiosAreCostShares` | utils/calculations.ts:21-31 | With positive sales, the material, labor, expense and fixed-cost ratios times sales equal 100 times the matching cost total. The marginal-profit ratio times sales equals 100 times sales minus material cost. |
| `Calculations.BreakEvenCoversFixedCosts` | utils/calculations.ts:29-36 | When the marginal-profit ratio is positive, the break-even sales times that ratio cover exactly the fixed costs plus depreciation. The break-even point is positive exactly when those costs are. |
| `Calculations.WorkedExample` | utils/calculations.ts:3-54 | The figures (1000, 300, 100, 100, 50, 50, 20) give a 40% margin, 38% after depreciation, a 70% marginal-profit ratio and a break-even point of 320/0.7. |
| `Calculations.CumulativeData` | utils/calculations.ts:59-85 | The output has one entry per month. The first entry is the first month. Each later entry is the previous entry plus that month, field by field. |
| `Calculations.Accumulate` | utils/calculations.ts:71-82 | The loop emits one running total per month. The first is the starting total plus the first month, and each later one is the previous total plus that month, field by field. |
| `Calculations.Sum` | App.tsx:55-63 | The reduce from the zero record, whose meaning `Calculations.SumIsFieldTotal` states: each field of the sum is the plain total of that field over the series. |
| `Calculations.AccumulateIsPrefixFold` | utils/calculations.ts:71-82 | Every running total emitted by the loop is the fold of the months up to and including it. |
| `Calculations.SumIsFieldTotal` | App.tsx:55-63 | The reduce from the zero record adds each line item independently: every field of the sum is the plain total of that field. |
| `Calculations.CumulativeIsPrefixSum` | utils/calculations.ts:59-85 | Cumulative entry i is the field-wise sum of months 0..i. |
| `Calculations.CumulativeLastIsSum` | utils/calculations.ts:59-85 | The last cumulative entry is the sum of the whole series. |
| `Calculations.CumulativeMonotone` | utils/calculations.ts:71-82 | With non-negative months, every field of the running total never decreases. |
| `Calculations.CumulativeCanDecrease` | utils/calculations.ts:71-82 | Without that hypothesis a running total can fall: 5 then -2 lowers year-to-date sales. |
| `Text.Clean` | components/DataEntryModal.tsx:32 | The stripped text is no longer than the input. It holds only digits, '.' and '-'. It keeps exactly the input's characters from that set. |
| `Text.CleanAppend` | components/DataEntryModal.tsx:32 | Stripping a concatenation gives the concatenation of the stripped parts. |
| `Text.CleanIdempotent` | components/DataEntryModal.tsx:32 | Stripping twice is stripping once. |
| `Text.ParseFloat` | components/DataEntryModal.tsx:33 | The result is NaN exactly when, after at most one '-', the text starts with neither a digit nor '.' followed by a digit. Without a leading '-', a number is never negative. |
| `Text.ParseNatText` | components/DataEntryModal.tsx:33 | The decimal text of a whole number reads back as that number, and reads back negated behind a '-'. |
| `Text.LoneMinusIsNaN` | components/DataEntryModal.tsx:33 | A lone "-" and a lone "." are NaN. |
| `Text.SplitOn` | components/DataEntryModal.tsx:50 | A split gives at least one piece, and no piece contains the separator. |
| `Text.JoinSplitOn` | components/DataEntryModal.tsx:50 | Joining the pieces of a tab split with tabs gives back the row. |
| `Text.SplitOnJoin` | components/DataEntryModal.tsx:50 | Splitting a tab-join of tab-free cells gives back the cells. |
| `Text.SplitLines` | components/DataEntryModal.tsx:49 | A line split gives at least one row, and no row contains '\n' or '\r'. |
| `Text.SplitLinesJoin` | components/DataEntryModal.tsx:49 | Rows without line breaks, joined by "\n", "\r\n" or "\r", split back into the same rows. |
| `Text.NonBlankRows` | components/DataEntryModal.tsx:49 | The filter keeps no more rows than it is given. Every row it keeps is non-blank and is one of the input rows. |
| `Text.NonBlankRowsAppend` | components/DataEntryModal.tsx:49 | The filter keeps order: it distributes over concatenation. |
| `Text.NonBlankRowsKeeps` | components/DataEntryModal.tsx:49 | Rows that are all non-blank pass the filter unchanged. |
| `DataEntry.FieldIndex` | components/DataEntryModal.tsx:21-29 | Each field has one grid row, and `fields` at that row is the field. |
| `DataEntry.FieldsArePermutation` | components/DataEntryModal.tsx:21-29 | The seven rows list every field exactly once. |
| `DataEntry.SetCell` | components/DataEntryModal.tsx:35-40 | The named cell takes the new value. Every other cell of both series is unchanged, and so are the series lengths. |
| `DataEntry.HandleChange` | components/DataEntryModal.tsx:31-42 | The result is NaN (`None`) exactly when the stripped text is non-empty and does not start a number. Empty stripped text stores 0. Otherwise the parsed number is stored. No other cell changes. |
| `DataEntry.HandleChangeReadsNumber` | components/DataEntryModal.tsx:31-33 | Typing a whole number followed by text that stripping removes, such as a unit or currency sign, stores exactly that number. |
| `DataEntry.HandleChangeLoneMinus` | components/DataEntryModal.tsx:31-33 | A typed lone "-" is a NaN case. |
| `DataEntry.CellNumber` | components/DataEntryModal.tsx:60 | The number a pasted cell stores. Its two cases are stated by `DataEntry.CellNumberReadsNumber` and `DataEntry.CellNumberDefaultsToZero`. |
| `DataEntry.CellNumberReadsNumber` | components/DataEntryModal.tsx:60 | A pasted cell whose stripped text starts a number stores exactly what `parseFloat` reads from it. |
| `DataEntry.CellNumberDefaultsToZero` | components/DataEntryModal.tsx:60 | A pasted cell whose stripped text does not start a number stores 0. |
| `DataEntry.PasteGrid` | components/DataEntryModal.tsx:49-50 | There is one grid row per non-blank line. Each grid row has at least one cell, no cell contains a tab, and the cells joined by tabs are that line, so each grid row is the tab split of its line. |
| `DataEntry.CellNumbers` | components/DataEntryModal.tsx:60 | Every cell text is read as its parsed stripped number, or 0 when that is NaN, and the grid shape is kept. |
| `DataEntry.WriteCell` | components/DataEntryModal.tsx:56-62 | A write lands only when month < 12 and row < 7, on the active series. Nothing else changes. |
| `DataEntry.PlaceRow` | components/DataEntryModal.tsx:55-63 | Cell c of a row lands on month start + c of its grid row, inside the table. All other cells keep their values. |
| `DataEntry.PlaceGrid` | components/DataEntryModal.tsx:54-64 | Grid entry (r, c) lands on month start + c and grid row start + r, inside the table. All other cells keep their values. |
| `DataEntry.HandlePaste` | components/DataEntryModal.tsx:44-67 | Empty text changes nothing. Otherwise, each cell of the active series that some pasted cell lands on holds that cell's number, and every other cell of both series is unchanged. Series lengths are unchanged. |
| `DataEntry.PasteKeepsOtherSeries` | components/DataEntryModal.tsx:61 | A paste never touches the inactive series. |
| `DataEntry.PasteKeepsWellFormed` | components/DataEntryModal.tsx:52-66 | A paste onto twelve-month series leaves twelve-month series. |
| `DataEntry.PasteGridOfCopy` | components/DataEntryModal.tsx:49-50 | Pasting a block copied from a spreadsheet recovers the block, with any of the three line separators. Cells are free of tabs and line breaks, and rows are not blank. |
| `DataEntry.PasteCellLands` | components/DataEntryModal.tsx:54-62 | Pasted cell (r, c) is stored at month start + c, grid row start + r, when both are inside the table. |
| `DataEntry.PasteOutsideUnchanged` | components/DataEntryModal.tsx:58 | A cell no pasted cell lands on, or a month past December, keeps its value. |
| `DataEntry.NumberGrid` | components/DataEntryModal.tsx:49-50 | A copied block of whole numbers is non-empty text that pastes back as that block. |
| `DataEntry.PasteNumberLands` | components/DataEntryModal.tsx:54-62 | Number (r, c) of a pasted block of whole numbers is stored at month start + c, grid row start + r. |
| `DataEntry.PasteTwoByTwo` | components/DataEntryModal.tsx:54-62 | A 2 x 2 block fills two months of two consecutive rows with its four numbers. |
| `DataEntry.PastePastDecemberDropped` | components/DataEntryModal.tsx:56-58 | Three numbers pasted at November fill November and December, and the third is dropped. |
| `DataEntry.PastePastDecemberFrame` | components/DataEntryModal.tsx:58 | That paste changes no cell outside November and December of its row. |
| `DataEntry.PasteSkipsBlankRows` | components/DataEntryModal.tsx:49 | Blank lines are dropped before row offsets are given: a number after two blank lines lands on the anchor row. |
| `App.InitialYearData` | App.tsx:25-28 | The default dataset has twelve zero records in each series. |
| `App.TotalActual` | App.tsx:54-69 | Each summed line item is the total of that item over the actual series, and the metrics are those of the summed figures. |
| `App.TotalIgnoresTarget` | App.tsx:54-69 | Editing the target series does not change the year total. |
| `App.TotalIsLastCumulative` | App.tsx:55-63 | The year total's figures are the last year-to-date figures. |
| `App.TotalProfitIsSumOfMonthly` | App.tsx:65-68 | The year's operating profit is the sum of the monthly operating profits. |
| `App.TotalMarginIsProfitShare` | App.tsx:65-68 | With positive year sales, the year margin times year sales is 100 times the sum of the monthly operating profits. |
| `App.TwoMonthMarginIsWeightedMean` | App.tsx:54-69 | For two months with positive sales, the year margin is the sales-weighted mean of the monthly margins. |
| `App.TotalMarginIsNotMeanMargin` | App.tsx:54-69 | Margins of 50% on sales 100 and 0% on sales 300 give a year margin of 12.5%, not their 25% average. |
| `App.InitialTotalIsZero` | App.tsx:54-69 | With nothing entered, the summed figures are the zero record and the margin and break-even point are 0. |
| `App.DashboardData` | App.tsx:37-50 | There is one row per month name. Row i carries month i's target and actual sales, the actual month's metrics, and both break-even points. |
| `App.DashboardRowIsLocal` | App.tsx:37-50 | Row i depends on month i of each series alone. |
| `App.DashboardBepZeroWithoutMargin` | App.tsx:37-50 | A month whose actual sales do not exceed its material cost charts a break-even point of 0. |

## Left out

- Rendering is not modelled, because it computes nothing the core depends on. This covers the JSX, the charts, `SummaryCard`, the tab switch, and `formatCurrency`, `formatMillions` and `formatPercent`, which are locale and `toFixed` formatting.
- Persistence is left out as I/O: `localStorage` loading, saving and the JSON parse fallback (App.tsx:16-24, 33-35). Only the default dataset returned when nothing is stored is modelled.
- React plumbing is left out: `useState`, `useMemo`, `useCallback`, `useEffect` and the `setLocalData` updaters. The buffer is passed and returned as a value, so the active tab, the clipboard text and the anchor cell are parameters. `preventDefault` and `clipboardData.getData` are I/O.
- The JSON deep copies in DataEntryModal.tsx:17 and 53 are not modelled. On finite numbers they are the identity. JSON turns a stored NaN into `null`, which the model has no NaN to exhibit.
- IEEE-754 arithmetic is not modelled. Numbers are exact reals, so rounding, overflow, Infinity and the sign of zero are absent.
- `DataEntry.HandleChange`: where the source stores NaN in the cell, the model returns `None` and stores nothing, because a real cannot hold NaN.
- `Text.ParseFloat`: only the stripped alphabet `[0-9.-]` is modelled, and the decimal value is exact rather than the nearest double. Exponents, `Infinity` and leading whitespace cannot reach it after stripping.
- `DataEntry.HandleChange`, `DataEntry.HandlePaste` and `App.DashboardData` require the series they index to be long enough: `monthIdx` inside the series, and at least twelve months. With shorter arrays the source behaves differently. `handleChange` writes a one-field record at `monthIdx`, leaving holes when `monthIdx` is beyond the end of the series. `handlePaste` throws a TypeError when it assigns into the missing month (DataEntryModal.tsx:61). `dashboardData` throws when `calculateMetrics` destructures the missing month (utils/calculations.ts:4-6).
- `getCumulativeData` is exported, but `App.tsx` does not call it. It is modelled as written.
- The Korean row labels of `fields` are not modelled, because only the row order matters to the paste.
