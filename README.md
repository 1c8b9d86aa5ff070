# Social-security contribution calculator — Dafny model

This project models the calculation core of a small web application that
computes an employer's social-insurance contribution per employee for one city
and one month range. It covers two source files:

- `src/lib/calculations/index.ts`: the salary rows are filtered to the month
  range and grouped by the raw employee-name string in a JavaScript `Map`, each
  name getting its average pay and row count. Each average is clamped into the
  city's contribution-base band `[base_min, base_max]` and multiplied by the
  city's rate. Each result row is stamped with the city name, the range and the
  rate. The month range is validated beforehand: format first, then order, then
  same year.
- `src/lib/utils/index.ts`: the year-month helpers. `formatMonth` renders
  `YYYY年MM月`, `validateYearmonth` is a second copy of the validator, and
  `getMonthRange` lists the YYYYMM months of a range.

Modules (one file each):

- `Types` (`types.dfy`): the `City`, `Salary` and `CalculationResult` record
  shapes, with the fields the calculation reads or writes. `Salary` also keeps
  `employeeId`, which the calculation never reads: it is there to show that
  grouping is by the raw name (`Scenarios.SameNameMerged`).
- `JsNumber` (`js_number.dfy`): JavaScript's truncating `%`, `Number#toString`
  for integers, and `padStart`.
- `Aggregation` (`aggregation.dfy`): what the `Map` grouping means. It has the
  range filter, per-name row count and pay total, and the names in order of
  first appearance.
- `Calculations` (`calculations.dfy`): the calculation and validation
  functions.
- `Utils` (`utils.dfy`): the year-month helpers.
- `CrossChecks` (`cross_checks.dfy`): facts linking the two source files.
- `Scenarios` (`scenarios.dfy`): worked examples.
- `Wrappers` (`wrappers.dfy`): an `Option` type.

Modelling choices:

- Money is an exact `real`.
- Year-months are unbounded `int`s. `Math.floor(x / 100)` is Dafny's `x / 100`,
  which rounds down for a positive divisor. JavaScript's `x % 100` truncates
  toward zero; it is written out as `JsNumber.Rem100`. So negative inputs behave
  as in the source and need no precondition.
- `calculateAverageSalaries` changes a `Map` step by step, so it is a method.
  Its loop folds the filtered rows into a Dafny `map` from name to running
  total and count. A sequence of keys keeps the `Map`'s insertion order. The
  method is proved equal to the specification function
  `Calculations.AverageSalaries`, and the grouping properties are lemmas about
  that function.
- `getMonthRange` is a method with the source's `while` loop. It is proved
  equal to the recursive function `Utils.MonthRange`.
- `generateCalculationResults` is a `.map` over the averages, so it is a
  function. It is defined over `AverageSalaries`, the function the averaging
  method is proved to compute.
- `validateCalculationParams` returns `{ isValid, error? }`. Here it returns
  `Valid` or `Invalid(e)`. `e` is one of `MalformedMonth`, `RangeInverted` or
  `CrossYear`, and `e.Message()` is the exact string the source returns.

Behaviour of the code worth stating outright:

- With an inverted band (`base_min > base_max`) the code raises no error. It
  returns `base_min` when the average is below `base_min` and `base_max`
  otherwise, so the result is not always `base_max`
  (`src/lib/calculations/index.ts:47-49`; `Calculations.InvertedBand`). The code
  has no guard, and the model adds none.
- The `Map` fixes the output order of the averaging: names come out in order
  of their first in-range appearance (`Calculations.AverageSalariesOrder`).

## Model

| member | source | states |
|---|---|---|
| Calculations.CalculateAverageSalaries | src/lib/calculations/index.ts:16-40 | the loop that folds the in-range rows into a name-keyed map and converts the entries to averages returns exactly `AverageSalaries` of the input |
| Aggregation.FilterInRange | src/lib/calculations/index.ts:21-23 | every row the filter keeps has `startMonth <= yearmonth <= endMonth` |
| Aggregation.FilterInRangeKeeps | src/lib/calculations/index.ts:21-23 | the filter keeps each in-range row exactly as often as it occurs in the input, and no row outside the range |
| Aggregation.FilterInRangeIdentity | src/lib/calculations/index.ts:21-23 | the filter returns its input unchanged exactly when every row is in range |
| Aggregation.FilterInRangeIdempotent | src/lib/calculations/index.ts:21-23 | filtering the filtered rows again changes nothing |
| Calculations.OutOfRangeRowIgnored | src/lib/calculations/index.ts:21-23 | inserting a row outside the range anywhere in the input leaves the averages unchanged |
| Aggregation.Names | src/lib/calculations/index.ts:25-35 | the `Map`'s keys are pairwise distinct and are exactly the names with at least one row |
| Aggregation.NamesInFirstAppearanceOrder | src/lib/calculations/index.ts:25-35 | the keys come out in the order of each name's first row (insertion order) |
| Aggregation.SingleName | src/lib/calculations/index.ts:25-35 | rows that all carry one name leave exactly that one key in the `Map`, with every row counted |
| Calculations.SingleEmployeeAverage | src/lib/calculations/index.ts:25-39 | rows of one employee name give exactly one entry: their pay total over their number of rows |
| Calculations.AverageSalariesEntries | src/lib/calculations/index.ts:25-39 | entries have distinct names; each entry's `monthCount` is the number (at least 1) of in-range rows with exactly its name, and its `avgSalary` is their pay total divided by that count |
| Calculations.AverageSalariesNames | src/lib/calculations/index.ts:21-39 | the entry names are exactly the names of the in-range salary rows; there are no entries exactly when no row is in range |
| Calculations.AverageSalariesOrder | src/lib/calculations/index.ts:25-35 | entries follow the order in which each name first appears among the in-range rows |
| Aggregation.CountTotalPermutation | src/lib/calculations/index.ts:27-33 | a name's row count and pay total depend only on the multiset of rows, not on their order |
| Calculations.AverageSalariesPermutation | src/lib/calculations/index.ts:25-39 | reordering the salary rows never changes which entries (name, average, count) are produced |
| Calculations.CalculateContributionBase | src/lib/calculations/index.ts:42-50 | with `baseMin <= baseMax` the base lies in the band and equals the average exactly when the average is in the band; in every case it is `baseMin`, `baseMax` or the average |
| Calculations.ContributionBaseIsClamp | src/lib/calculations/index.ts:42-50 | with a proper band the base is `min(baseMax, max(baseMin, avgSalary))` |
| Calculations.InvertedBand | src/lib/calculations/index.ts:47-49 | with `baseMin > baseMax` there is no error: the result is `baseMin` exactly when the average is below `baseMin`, and `baseMax` otherwise |
| Calculations.CalculateCompanyFee | src/lib/calculations/index.ts:52-57 | for a rate in [0, 1] and a non-negative base the fee lies between 0 and the base |
| Calculations.GenerateCalculationResults | src/lib/calculations/index.ts:59-86 | one result per average, in the same order; each carries the city name, start month, end month and rate unchanged, the employee's name and average, the clamped base, and the fee `base * rate` with no rounding |
| Calculations.ResultsMeaning | src/lib/calculations/index.ts:59-86 | result employee names are distinct; each result's average is its name's in-range pay over its in-range row count; with a proper band (`baseMin <= baseMax`) the base is in the band; with in addition `0 <= baseMin` and a rate in [0, 1] the fee is between 0 and the base |
| Calculations.ValidateYearmonth | src/lib/calculations/index.ts:123-127 | a month is valid iff `2020 <= ym/100 <= 2030` and `1 <= ym%100 <= 12`, i.e. iff it lies in 202001..203012 with last two digits 01..12 |
| Calculations.ValidateCalculationParams | src/lib/calculations/index.ts:88-120 | valid iff both months are well-formed, start <= end and both are in one year; a malformed month is reported before an inverted range, which is reported before a cross-year range; a valid range spans at most 12 months |
| Calculations.MessagesDistinct | src/lib/calculations/index.ts:93-117 | the three failures carry the source's three error strings, and no two failures share a message |
| Utils.ValidateYearmonth | src/lib/utils/index.ts:21-25 | the same characterisation as the calculation module's copy |
| CrossChecks.ValidatorsAgree | src/lib/utils/index.ts:21-25 | the two copies of `validateYearmonth` agree on every integer |
| JsNumber.Rem100 | src/lib/utils/index.ts:17 | JavaScript's `ym % 100`: equals Dafny's `%` for non-negative `ym`; for negative `ym` lies in (-100, 0] and is 0 when `ym` is a multiple of 100 and Dafny's `ym % 100` minus 100 otherwise (so -5 gives -5) |
| JsNumber.NatToString | src/lib/utils/index.ts:18 | `toString` of a non-negative integer: a non-empty string of digits without a leading zero that reads back as the number |
| JsNumber.PadStart | src/lib/utils/index.ts:18 | `padStart`: the result has length `max(|s|, width)`, ends with `s`, and is filled in front with the fill character |
| JsNumber.IntToString | src/lib/utils/index.ts:18 | `${year}` and `month.toString()` for any integer: non-empty, starting with '-' exactly when the number is negative, the digits of the number otherwise and of its negation after the sign |
| Utils.FormatMonthShape | src/lib/utils/index.ts:15-19 | for every integer, negative ones included, the label starts with the decimal year `Math.floor(ym/100)` and 年, and ends with at least two month characters and 月 |
| Utils.FormatMonthDigits | src/lib/utils/index.ts:15-19 | for non-negative `ym` the label is the decimal of `ym/100`, then 年, then `ym%100` zero-padded to exactly two digits, then 月 |
| Utils.FormatMonthRoundTrip | src/lib/utils/index.ts:15-19 | parsing the label of a non-negative year-month gives the year-month back |
| Utils.FormatMonthInjective | src/lib/utils/index.ts:15-19 | different non-negative year-months get different labels |
| Utils.NextMonth | src/lib/utils/index.ts:33-39 | the step is strictly increasing; month 12 rolls over to January of the next year, and every other value advances by one |
| Utils.MonthRange | src/lib/utils/index.ts:27-43 | the range is empty exactly when `startMonth > endMonth` |
| Utils.MonthRangeShape | src/lib/utils/index.ts:28-42 | a non-empty range starts with `startMonth`, is strictly increasing, stays within `[startMonth, endMonth]`, steps by `NextMonth`, and stops only when the next step passes `endMonth` |
| Utils.GetMonthRange | src/lib/utils/index.ts:27-43 | the `while` loop returns exactly `MonthRange(startMonth, endMonth)`; it terminates because `current` strictly increases and is bounded by `endMonth` |
| Utils.MonthRangeLength | src/lib/utils/index.ts:31-39 | between valid months `s <= e` the range lists only valid months, as many as the calendar months from `s` to `e` inclusive |
| Utils.SameYearRange | src/lib/utils/index.ts:31-39 | for valid `s <= e` in one year the range is exactly `s, s+1, ..., e` and has `e - s + 1` elements |
| CrossChecks.ValidatedRangeMonths | src/lib/calculations/index.ts:100-117 | a range the parameter check accepts lists exactly `startMonth..endMonth`: 1 to 12 valid months |
| Scenarios.AverageInsideBand | src/lib/calculations/index.ts:59-86 | rows of 5000, 6000 and 7000 with rate 0.14 and band 4546..26421 give average and base 6000 and fee 840 |
| Scenarios.ThreeMonthAverage | src/lib/calculations/index.ts:16-40 | the three in-range rows of one name give a single entry averaging 6000 over 3 months |
| Scenarios.AverageBelowBand | src/lib/calculations/index.ts:47 | an average of 3000 gives base 4546 and fee 636.44 |
| Scenarios.AverageAboveBand | src/lib/calculations/index.ts:48 | an average of 30000 gives base 26421 and fee 3698.94 |
| Scenarios.SameNameMerged | src/lib/calculations/index.ts:25-33 | two employees with different ids and the same name are merged into one entry; an out-of-range row is ignored |
| Scenarios.ParamCheckExamples | src/lib/calculations/index.ts:88-120 | 202401..202403 is valid; 202413..202401 is malformed; 202403..202401 is inverted; 202312..202401 crosses years |

## Left out

- Floating-point arithmetic: money is an exact `real`, so rounding and drift in the sums, the division and the fee are not modelled. The display-time `toFixed(2)` is presentation only.
- Non-integer year-months: JavaScript would accept them; the model takes integers only. Integers so large that a JavaScript number loses precision are not modelled either.
- `cn` and `formatCurrency` (src/lib/utils/index.ts:4-13): thin wrappers over class-name and `Intl.NumberFormat` libraries that are not part of this model.
- The request handler (src/app/api/calculate/route.ts): authentication, database reads, the 404 when no salary data is found, and the delete-then-insert of results. This is I/O around the core.
- The React pages (upload, cities, dashboard, results): UI state, spreadsheet parsing, charts and CSV export. This includes the only `base_min <= base_max` check, in the manual city form (src/app/cities/page.tsx:87), which the upload paths skip.
- Fields the calculation never reads: the numeric row ids, the city's `year`, company ids and timestamps. `Salary.employeeId` is kept although it is never read, to show that grouping ignores it.
- CalculateCompanyFee: its own contract states only the bounds of the fee. The exact unrounded value `base * rate` is stated on `GenerateCalculationResults`, where the fee is used.
- JsNumber.Rem100: models JavaScript's `%` only for the divisor 100, the only one the source uses.
- AverageSalariesPermutation: states that the entries are the same set, not the same multiset. The names are distinct (`AverageSalariesEntries`), so each entry occurs once either way.
