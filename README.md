# Twse stock crawler: the profit engine and its date and row helpers

This project models, in Dafny, the computational core of a Taiwan Stock Exchange crawler:

- the profit engine of `TwStockCrawler` (twstockcrawler.py): `maxProfit` (at most one
  round trip), `maxProfitII` (unlimited round trips), `maxProfitIV` (at most `k` round
  trips, a `(k + 1) x n` table), `maxProfitwithfee` (unlimited round trips, a fee in every
  buy update) and `minimumUpLines` (a cross-product test over consecutive chart points);
- two helpers of `TwseCrawker` (stockanalysis.py): `clean_data`, which strips every cell of
  a row and removes its thousands separators in place, and `days_between_isodates`, which
  turns two `YYYY-MM-DD` dates (the calendar-date extended format of ISO 8601,
  section 4.1.2.2) into day counts from 1971 and returns their distance plus one.

Layout:

- `wrappers.dfy` (`Wrappers`): `Option`, used for the `-inf` sentinel of the profit loops
  (None: no share can be held yet) and for calls that raise in Python (None).
- `pystr.dfy` (`PyStr`): the Python string built-ins the helpers use, `str.strip()`,
  `str.split(sep)`, `sep.join(parts)` and `re.sub(c, "", s)` for a one-character pattern.
- `trading_spec.dfy` (`TradingSpec`): reference definitions of the five engine operations
  and the lemmas that relate them (bounds, monotonicity, one model reducing to another).
- `twstockcrawler.dfy` (`TwStockCrawler`): the engine as the source writes it, one loop per
  operation over local variables (and a two-dimensional array for `maxProfitIV`), each
  method proved against its reference definition.
- `trading_examples.dfy` (`TradingExamples`): the worked examples of the engine.
- `isodates.dfy` (`IsoDates`): `is_leap_year`, `get_days`, the parsing of the date text
  and `days_between_isodates`, with the lemmas about them and the corrected count of the
  finding below.
- `stockanalysis.dfy` (`StockAnalysis`): `clean_data` on an array of strings, rewritten in
  place.

Prices are `int`. The analysis multiplies the quoted floating-point prices by 1000 before
calling the profit functions (stockanalysis.py:201); the profit algorithms only add, subtract
and compare, so integers capture them. `minimumUpLines`, which nothing in the source calls,
also multiplies; `TradingSpec.CountNotSteeperScale` shows that its count is unchanged when
every price is multiplied by the same positive factor. Python integers are unbounded, as
Dafny's are.

What the profit programs maximise is stated over trading plans (`TradingSpec.IsSchedule`).
A plan is a sequence of round trips `Trip(buy, sell)` in time order. Each share is bought on
an earlier day than it is sold, and each is sold no later than the day the next one is
bought, so at most one share is held at a time. `TradingSpec.Earnings` adds up sale minus
purchase minus a fee over the trips. Three results are proved:

- `maxProfitII` returns the most any plan earns without a fee;
- `maxProfitIV` returns the most any plan of at most `k` trips earns;
- `maxProfitwithfee` returns the most any plan earns net of one fee per trip.

In each case some plan earns exactly the result. The `maxProfitIV` table only buys on a day
after the previous sale. `TradingSpec.MergeSameDay` shows that selling and buying again on
the same day never earns more, because the two trips are one longer trip. For a negative `k`
and an empty list the source returns 0, although no plan has at most `k` trips.

The model follows the code:
the fee model subtracts the fee in the buy update (twstockcrawler.py:158), not at the sale;
no operation rejects negative prices, a negative fee or a negative cap, and a negative `k`
only fails (IndexError, None here) for a non-empty price list, because `dp` then has no rows.

## Model

| member | source | states |
|---|---|---|
| `TradingSpec.Rise` | twstockcrawler.py:129-131 | the gain of a day over the previous day is non-negative and at least the price difference |
| `TradingSpec.SumOfRises` | twstockcrawler.py:125-133 | the sum of the positive day-over-day rises is non-negative and 0 for fewer than two prices |
| `TradingSpec.SpreadBelowSumOfRises` | twstockcrawler.py:125-133 | any spread from an earlier day to the last day is at most the sum of the rises |
| `TradingSpec.SumOfRisesNonDecreasing` | twstockcrawler.py:125-133 | on a sequence that never falls the rises add up to the last price minus the first |
| `TradingSpec.MinOf` | twstockcrawler.py:120 | the lowest price seen is one of the prices and no price is lower |
| `TradingSpec.BestSingleTrip` | twstockcrawler.py:115-122 | the single-trip profit is never negative |
| `TradingSpec.BestSingleTripIsMaxSpread` | twstockcrawler.py:115-122 | the single-trip profit is `max(0, max over i < j of s[j] - s[i])`: it bounds every spread and is 0 or one of them |
| `TradingSpec.BestSingleTripAboveSpreads` | twstockcrawler.py:115-122 | no spread `s[j] - s[i]` with `i < j` exceeds the single-trip profit |
| `TradingSpec.BestSingleTripIsSpread` | twstockcrawler.py:115-122 | a positive single-trip profit is the spread of some pair of days `i < j` |
| `TradingSpec.SingleTripBelowSumOfRises` | twstockcrawler.py:115-133 | one round trip never earns more than unlimited round trips |
| `TradingSpec.SingleTripNonDecreasing` | twstockcrawler.py:115-133 | on a sequence that never falls both models earn the same |
| `TradingSpec.FeeStep` | twstockcrawler.py:157-158 | in one day neither balance falls; the cash is at least the previous hold plus the price, and the new hold at least the new cash minus the price and the fee |
| `TradingSpec.FeeRun` | twstockcrawler.py:153-160 | the not-holding balance of the fee model is never negative, and a share can be held exactly once a day has passed |
| `TradingSpec.FeeRunWithoutFee` | twstockcrawler.py:153-160 | with fee 0 the fee model earns exactly the sum of the rises (and holds that sum minus the last price) |
| `TradingSpec.FeeRunMonotone` | twstockcrawler.py:156-158 | a larger fee never leaves either balance higher |
| `TradingSpec.FeeRunBelowSumOfRises` | twstockcrawler.py:153-160 | with a non-negative fee the fee model never beats unlimited fee-free trading |
| `TradingSpec.FeeRunAboveEverySpread` | twstockcrawler.py:153-160 | when the fee covers every spread the profit is 0 and the hold balance is minus the lowest price minus the fee |
| `TradingSpec.BoundedDp` | twstockcrawler.py:142-148 | every entry of the table of `maxProfitIV` is non-negative |
| `TradingSpec.HoldBalance` | twstockcrawler.py:145-148 | the running buy balance of a row never falls below minus the first price, the value line 145 starts it at |
| `TradingSpec.BoundedDpDayMonotone` | twstockcrawler.py:147 | each row of the table is non-decreasing in the day |
| `TradingSpec.BoundedDpTripMonotone` | twstockcrawler.py:144-148 | one more allowed round trip never lowers a table entry or the running buy balance |
| `TradingSpec.BoundedDpTripsMonotone` | twstockcrawler.py:144-150 | each column of the table is non-decreasing in the number of round trips |
| `TradingSpec.BoundedDpOneTrip` | twstockcrawler.py:144-148 | row 1 of the table is the single-trip profit of the days so far, its buy balance minus their lowest price |
| `TradingSpec.BoundedDpBelowSumOfRises` | twstockcrawler.py:144-148 | no table entry beats the sum of the rises of the days so far |
| `TradingSpec.BoundedDpEnoughTrips` | twstockcrawler.py:144-148 | with `2t >= d + 1` row `t` reaches the sum of the rises of days `0..d` |
| `TradingSpec.MergeSameDay` | twstockcrawler.py:144-148 | a plan that sells and buys again on the same day earns, fee-free, what a plan with no such day, no more trips and the same last sale earns |
| `TradingSpec.ScheduleBelowBoundedDp` | twstockcrawler.py:144-148 | no plan of at most `t` trips, sold by day `d` and never buying on a sale day, earns more than `dp[t][d]` |
| `TradingSpec.ScheduleBelowHoldBalance` | twstockcrawler.py:145-148 | no plan of at most `t - 1` trips sold before a buy on day `b <= d` is worth more, after paying for that buy, than the buy balance of row `t` at day `d` |
| `TradingSpec.BoundedDpAttained` | twstockcrawler.py:144-148 | some plan of at most `t` trips sold by day `d` earns exactly `dp[t][d]` |
| `TradingSpec.HoldBalanceAttained` | twstockcrawler.py:145-148 | some plan of at most `t - 1` trips followed by a buy on a day `b <= d` is worth exactly the buy balance of row `t` at day `d` |
| `TradingSpec.BoundedDpIsBestSchedule` | twstockcrawler.py:144-150 | `dp[t][d]` is the most any plan of at most `t` trips sold by day `d` earns, and some such plan earns it |
| `TradingSpec.BoundedDpLastDay` | twstockcrawler.py:136-150 | the last entry of row `k` lies between 0 and the sum of the rises, is 0 for one day or `k = 0`, reaches the sum once `2k >= n`, is the single-trip profit for `k = 1`, and is the best earnings of plans of at most `k` trips |
| `TradingSpec.SumOfRisesIsBestSchedule` | twstockcrawler.py:125-133 | the sum of the rises is the most any plan earns without a fee, and some plan earns it |
| `TradingSpec.ScheduleBelowFeeCash` | twstockcrawler.py:156-158 | no plan sold before day `m` earns, net of one fee per trip, more than the cash after `m` days |
| `TradingSpec.ScheduleBelowFeeHold` | twstockcrawler.py:156-158 | no plan sold by day `b < m` is worth more, after buying again on day `b` and paying the fee, than the hold balance after `m` days |
| `TradingSpec.FeeCashAttained` | twstockcrawler.py:156-158 | some plan sold before day `m` earns, net of its fees, exactly the cash after `m` days |
| `TradingSpec.FeeHoldAttained` | twstockcrawler.py:156-158 | some plan sold by day `b < m`, followed by a buy on day `b`, is worth exactly the hold balance after `m` days |
| `TradingSpec.FeeRunIsBestSchedule` | twstockcrawler.py:153-160 | the cash of the fee model is the most any plan earns net of one fee per trip, and some plan earns it |
| `TradingSpec.NotSteeper` | twstockcrawler.py:175 | the cross-product test: the slope from `b` to `c` is at most the slope from `a` to `b` (when days increase) (a definition, whose properties the `CountNotSteeper` lemmas state) |
| `TradingSpec.CountNotSteeper` | twstockcrawler.py:172-176 | the count of middle points passing the test never exceeds the number of middle points |
| `TradingSpec.CountNotSteeperIsSize` | twstockcrawler.py:172-176 | the count is the size of the set of middle indices whose triple passes the cross-product test |
| `TradingSpec.CountNotSteeperShift` | twstockcrawler.py:175 | moving the whole chart in day and price does not change the count |
| `TradingSpec.CountNotSteeperScale` | twstockcrawler.py:175 | multiplying every price by a positive factor does not change the count |
| `TradingSpec.CountNotSteeperOnLine` | twstockcrawler.py:175-176 | when all points lie on one straight line every middle point is counted |
| `TwStockCrawler.MaxProfit` | twstockcrawler.py:115-122 | the result is `max(0, max over i < j of prices[j] - prices[i])`, 0 for an empty list, and equals the single-trip reference |
| `TwStockCrawler.MaxProfitII` | twstockcrawler.py:125-133 | the result is the sum of the positive rises, 0 for fewer than two prices, at least the single-trip profit, and the most any trading plan earns (some plan earns it) |
| `TwStockCrawler.FillTable` | twstockcrawler.py:142-148 | the new `(k + 1) x n` table holds the reference values; row 0 and column 0 stay 0 |
| `TwStockCrawler.FillRow` | twstockcrawler.py:145-148 | one pass fills row `t` from row `t - 1` and changes no other row |
| `TwStockCrawler.MaxProfitIV` | twstockcrawler.py:136-150 | fails exactly for `k < 0` on a non-empty list; otherwise `dp[k][n-1]`, 0 for `n <= 1` or `k = 0`, between 0 and the sum of the rises, equal to it once `2k >= n`, the single-trip profit for `k = 1`, and for `k >= 0` the most any plan of at most `k` trips earns (some plan earns it) |
| `TwStockCrawler.MaxProfitWithFee` | twstockcrawler.py:153-160 | the result is the fee model's not-holding balance, 0 on an empty list, never negative, the sum of the rises for fee 0, at most that sum for a non-negative fee, and the most any plan earns net of one fee per trip (some plan earns it) |
| `TwStockCrawler.MinimumUpLines` | twstockcrawler.py:163-178 | 0 for at most one point, 1 for two, otherwise the number of middle points passing the test, at most `n - 2` |
| `TradingExamples.UnlimitedAndSingleTripExample` | twstockcrawler.py:115-133 | `[7,1,5,3,6,4]` gives 7 with unlimited trips and 5 with one trip |
| `TradingExamples.RisingExample` | twstockcrawler.py:115-133 | `[1,2,3,4,5]` gives 4 with unlimited trips and with one trip |
| `TradingExamples.TwoTripsExample` | twstockcrawler.py:136-150 | `[3,3,5,0,0,3,1,4]` with `k = 2` gives 6 |
| `TradingExamples.WithFeeExample` | twstockcrawler.py:153-160 | `[1,3,2,8,4,9]` with fee 2 gives 8 |
| `PyStr.IsSpace` | stockanalysis.py:142 | the characters for which Python's `str.isspace()` holds, the ones `strip()` removes (a definition) |
| `PyStr.LeadingSpaces` | stockanalysis.py:142 | `lstrip()` removes a run of whitespace and stops at the first other character |
| `PyStr.TrailingStart` | stockanalysis.py:142 | `rstrip()` removes a run of whitespace and stops at the last other character |
| `PyStr.LStrip` | stockanalysis.py:142 | `lstrip()`: the result is empty or starts with a character that is not whitespace |
| `PyStr.RStrip` | stockanalysis.py:142 | `rstrip()`: the result is empty or ends with a character that is not whitespace |
| `PyStr.Strip` | stockanalysis.py:142 | the stripped text neither starts nor ends with whitespace |
| `PyStr.StripPadded` | stockanalysis.py:142 | the original is the stripped text with only whitespace around it |
| `PyStr.StripIdempotent` | stockanalysis.py:142 | stripping twice is stripping once |
| `PyStr.Split` | stockanalysis.py:173 | splitting gives at least one piece and no piece holds the separator |
| `PyStr.JoinSplit` | stockanalysis.py:173 | joining the pieces with the separator gives the original text back |
| `PyStr.Join` | stockanalysis.py:142 | `sep.join(parts)`, with which `RemoveAllIsSplitJoin` restates the comma removal (a definition; `JoinSplit` is its partner) |
| `PyStr.RemoveAll` | stockanalysis.py:142 | no comma is left, and text without one is unchanged |
| `PyStr.RemoveAllConcat` | stockanalysis.py:142 | removing commas from a concatenation removes them from each piece |
| `PyStr.RemoveAllIsSplitJoin` | stockanalysis.py:142 | removing a character is splitting at it and joining with the empty string |
| `StockAnalysis.CleanCell` | stockanalysis.py:142 | a cleaned cell holds no comma, and a cell that is already stripped and comma-free is unchanged |
| `StockAnalysis.CleanCellIsSplitJoin` | stockanalysis.py:142 | a cleaned cell is `"".join(cell.strip().split(","))` |
| `StockAnalysis.CleanCellExample` | stockanalysis.py:142 | `" 1,234.50 "` becomes `"1234.50"` |
| `StockAnalysis.CleanData` | stockanalysis.py:140-143 | every slot is overwritten in place with its cleaned cell, the length is kept, no slot holds a comma, and the same row is returned |
| `IsoDates.IsLeapYear` | stockanalysis.py:169-170 | the Gregorian rule: a multiple of 4 that is not a multiple of 100 unless it is one of 400 (a definition; `LeapsThroughStep` counts its years) |
| `IsoDates.LeapAdjustment` | stockanalysis.py:175 | the adjustment is 0 or 1, and 1 only for January (or month 0) of a leap year, as written |
| `IsoDates.YearLength` | stockanalysis.py:176 | each year in the sum contributes 365 or 366 days |
| `IsoDates.YearOffset` | stockanalysis.py:176 | the year term is 0 up to 1971 and between 365 and 366 days per year after it |
| `IsoDates.MonthOffset` | stockanalysis.py:177 | the sum of the month table cut at `m`, the whole table past its end (a definition; `MonthOffsetValues` lists its values) |
| `IsoDates.MonthOffsetAtMost` | stockanalysis.py:177 | whatever the month, the month term is at most 365 |
| `IsoDates.GetDays` | stockanalysis.py:172-179 | the count is the day plus the year term plus at most 366 more days |
| `IsoDates.ParseField` | stockanalysis.py:173 | a field reads as an integer exactly when it is a non-empty run of digits |
| `IsoDates.ParseDate` | stockanalysis.py:173 | a date reads exactly when splitting at '-' gives three integer fields |
| `IsoDates.DaysBetweenIsoDates` | stockanalysis.py:168-181 | fails exactly when either date does not read; a result is at least 1 |
| `IsoDates.DaysBetweenSymmetric` | stockanalysis.py:181 | the order of the two dates does not matter |
| `IsoDates.DaysBetweenSameDate` | stockanalysis.py:181 | a readable date is 1 day from itself |
| `IsoDates.DaysBetweenSameMonth` | stockanalysis.py:173-181 | in one month of one year the result is the difference of the days plus one |
| `IsoDates.LeapsThroughStep` | stockanalysis.py:169-170 | the Gregorian leap years of `1..y` number `y/4 - y/100 + y/400` |
| `IsoDates.YearOffsetClosedForm` | stockanalysis.py:176 | the year term is 365 per year from 1971 plus one per leap year in between |
| `IsoDates.GregorianCycle` | stockanalysis.py:169-176 | every 400 years add 146097 days to the year term |
| `IsoDates.MonthOffsetStep` | stockanalysis.py:177 | each month term adds that month's table length to the one before |
| `IsoDates.MonthOffsetValues` | stockanalysis.py:177 | the month term is 0, 0, 31, 59, ..., 334 for months 0 to 12, with February fixed at 28, and 365 from 13 on |
| `IsoDates.NextDay` | stockanalysis.py:172-179 | the calendar day after a valid date is a valid date |
| `IsoDates.GetDaysNextDay` | stockanalysis.py:172-179 | from one calendar day to the next the count as written rises by 1, except by 0 after January 31 and February 29 of a leap year and by 2 from December 31 into or out of a leap year |
| `IsoDates.GetDaysLeapJanuaryCollision` | stockanalysis.py:175 | in a leap year the count as written gives January 31 and February 1 the same day number |
| `IsoDates.DaysBetweenLeapJanuary` | stockanalysis.py:175-181 | as written, January 31 and February 1 of a leap year come out 1 apart; with the correction 2 |
| `IsoDates.DaysBetweenLeapJanuaryExample` | stockanalysis.py:175-181 | `2020-01-31` and `2020-02-01` give 1 as written and 2 with the correction |
| `IsoDates.CorrectedDaysBetweenIsoDates` | stockanalysis.py:168-181 | the corrected distance fails exactly when a date does not read and is otherwise at least 1 |
| `IsoDates.CorrectedGetDaysNextDay` | stockanalysis.py:172-179 | with the leap day counted after February, consecutive calendar days have consecutive counts |
| `IsoDates.CorrectedDaysBetweenNextDay` | stockanalysis.py:168-181 | with the correction, a date and the next one in `YYYY-MM-DD` text are 2 apart |
| `IsoDates.DigitString` | stockanalysis.py:173 | the zero-padded digits of a number have the asked width and are all digits |
| `IsoDates.DigitStringValue` | stockanalysis.py:173 | reading zero-padded digits gives the number back |
| `IsoDates.ParseFormatDate` | stockanalysis.py:173 | a date written as `YYYY-MM-DD` reads back as the same date |

## Left out

- `TwStockCrawler.get_stocktype_data` (twstockcrawler.py:89-112): an HTTP request and JSON decoding.
- `SMTPEmail`, `AuthenticationServer` and textmewhenitsdone.py: SMTP sessions, interactive prompts, MIME messages and attachments.
- `get_date_times` (stockanalysis.py:146-165): it depends on the wall clock and on library weekday and `timedelta` arithmetic.
- `get_twse_daily_stocks` and `record`: network fetches and CSV writes.
- `cal_max_profit` and `cal_max_profit_ratio_data`: floating-point division by the last price and `round(..., 2)`; they only call the engine.
- `record_to_html_tablefmt`, `draw_linechart`, `create_parser`, the `__main__` block with its `sleep` loop, the `__del__` methods and the enums: rendering, plotting, argument parsing and process control.
- Floating-point prices: the engine is modelled on integers, which the scaling by 1000 at stockanalysis.py:201 approximates.
- ParseField: rejects the surrounding whitespace, the `+` sign, the `_` digit separators and the non-ASCII digits that Python's `int()` also accepts, so such fields come out as errors.
- DaysBetweenIsoDates: Python raises ValueError for a wrong number of fields or a non-integer field; both are the one None here.
- MinimumUpLines: chart points are pairs; a Python point with fewer than two coordinates (IndexError) or with extra ones is not modelled.
- GetDaysNextDay: stated from 1971 on; before 1971 the year term is 0 for every year, as the code computes, so calendar order is not reflected there.
- MaxProfitIV: the plan in the attainment clause is promised for `k >= 0` only; for a negative `k` and an empty list the result is 0 with no plan of at most `k` trips.
- CleanData: the row is an array of strings, because `clean_data` only overwrites slots and never changes the list's length.

## Findings

| source | as written | input that shows it | evidently intended | confidence | as-written member | corrected member |
|---|---|---|---|---|---|---|
| stockanalysis.py:175 | `int(is_leap_year(y) and m < 2)` adds the leap day to January of a leap year | `days_between_isodates("2020-01-31", "2020-02-01")` gives 1, the value of a single date | `m > 2`: the leap day counted for the months after February, giving 2 | high; not executed | `IsoDates.DaysBetweenLeapJanuary` | `IsoDates.CorrectedGetDaysNextDay` |

The model of `days_between_isodates` itself, `IsoDates.DaysBetweenIsoDates`, keeps the code as
written; `IsoDates.CorrectedDaysBetweenIsoDates` is the corrected count, and
`IsoDates.GetDaysNextDay` states exactly where the two differ from one day to the next.
