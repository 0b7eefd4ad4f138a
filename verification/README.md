# OBSYD, verified

A Dafny model of the algorithmic core of OBSYD's backend: the alert runner, the evaluators that must agree with a
simple definition, the gas balance pipeline, the state that is shared between threads or pruned by time, and the file
stores. Numbers are exact reals or integers, clocks are inputs, database tables and directories are maps. A lock
section, or one test or change of shared state where there is no lock, is one atomic step, and threads interleave freely
between steps. `dafny verify dfyconfig.toml` checks everything.

Code that changes things in place is modelled by classes and methods with loops, each proved against a function or
predicate of the old state; what the module promises is then proved about that function, mostly over every run.

| file | what it models |
|---|---|
| `AlertRunner.dfy` | one capped scan over the rules; fairness within a cooldown; rate over every run |
| `Capture.dfy`, `Convergence.dfy`, `Borders.dfy` | fast evaluators (SQL groups, stored daily counts, SQL ranks) against their definitions |
| `GasDay.dfy`, `PowerBurn.dfy`, `Demand.dfy`, `Supply.dfy`, `Balance.dfy` | the gas balance from instants and reports to WATCH and SIGNAL |
| `RateLimit.dfy`, `RateLimitThreads.dfy`, `RateLimitExcess.dfy`, `SingleUse.dfy`, `AisHygiene.dfy` | state pruned by time against unpruned specifications, and the limiter under threads |
| `TtlCache.dfy`, `Metering.dfy`, `ApiKeys.dfy` | threads, transactions and requests |
| `RawCache.dfy`, `Archive.dfy`, `Entsog.dfy`, `AskYears.dfy` | file-store protocols, the point registry, the range printer |
| `FiniteSums.dfy`, `Rounding.dfy`, `Calendar.dfy`, `Ascending.dfy`, `Options.dfy` | sums over finite sets, half-even and half-away rounding, the calendar, sorted sets |

## Where the code and its documentation part

The model follows the code. Each point below has its exact condition, or a concrete witness, in the lemmas named.

- `ApiKeys.CapExceededExactly`: the cap of five live keys is counted and enforced in separate statements with no lock
  (backend/auth/api_keys.py:43-55), so overlapping requests of one owner can exceed it, up to four and their number.
- `RateLimitExcess.BoundIsExact`, `LimitHoldsExactly`: the limiter has no lock, and its synchronous callers
  (backend/routes/api_v1.py:60-61, backend/routes/waitlist.py:51-55) are threads. With at most T calls under way a
  window can hold (T - 1) * (T + 2) hits more than the limit and no more, so a limit holds exactly when T is 1. The
  model lets the threads switch between any two of: reading the clock, a test of a deque's head with the length test
  that follows when the head stays, a pop, an append. CPython 3.11 and 3.12 switch after a call and at a loop's jump
  back, so not between a loop's first test and its first pop; `RateLimitExcess.JumpBack` needs no such switch and has
  four hits in a window under a limit of one. The magic-link caller is asynchronous and does not interleave, so
  `RateLimit.NoWindowOverLimit` applies to it.
- `TtlCache.SpacedUnlessLate`, `LateExactly`: "at most once per ttl" (backend/api_guard.py:62-69) fails exactly when a
  slow `warm_value` puts back a slot that has expired for a clock reading, taken or still to come, for which a stored
  recomputation has not; `WarmerStoresLate` gets there. Values handed out are never stale even so.
- `AlertRunner.ReuseBreaksSpacing`, `ReuseHappens`: SQLite gives the id of the newest rule out again once that rule is
  deleted, and a cooldown does not outlive its rule.
- `Borders.RanksAgree`: the SQL and the Python percentile are called identical (backend/power/borders.py:248-281), but
  in lists of n values with (n - 1) % 40 == 30 the SQL picks the next position up.
- `Archive.StoppedIsHonestExactly`, `StopBreaks`, `OlderEntriesStayWrong`: a rebuild that stops before the manifest is
  rewritten can leave a wrong digest, and nightly builds never repair one of an older year. `SlicesPartition` also shows
  that hours already published into January belong to no slice before the year has turned (compare
  backend/power/archive.py:23-28).
- `RawCache.FetchPersists`: an entry that exists but does not decode is fetched again on every call and never replaced
  without an overwrite (backend/gas/raw_cache.py:54-60, 78-79).
- `Entsog.OneActiveUnlessDropped`: a sync never switches off a point that the registry has dropped, so "only the keeper
  stays active" (backend/gas/entsog.py:68-72) holds for the listed points.
- `Entsog.RevisionKeepsNearestExactly`: a forward-filled value stays when the value it was carried from is revised.
- `Supply.DaysDependOnOrderExactly`: a tie between largest reports that differ in class or sign makes its day's sums
  depend on the order in which the database returns rows.
- `SingleUse.ReplayExactly`, `ReplayHappens`, `AisHygiene.StoredExactly`, `LateReportIsStored`: what a clock that is set
  back, or a report that is very late, does to state that has been pruned.
- `Balance.SignalDays`, `SignalAcrossGap`: the "consecutive days" of a SIGNAL (backend/gas/balance.py:14-15) are
  consecutive computable rows; they are consecutive days exactly when neither day before is missing from a table.
- `Balance.FlagPointsRight`: when no component deviates, a flag says supply↑ by default (backend/gas/balance.py:154),
  even for supply that has fallen below seven equal values.
- `Convergence.LatestRunWins`: a day whose overlapping hours have all disappeared keeps the points of the last run that
  saw any.
- `Demand.SumsBackUnlessClamped`: the calibrated model sums back to Eurostat exactly when no clamp takes effect.

## Model

| member | source | states |
|---|---|---|
| AlertRunner.AlertRule.Visit | backend/notifications/alert_runner.py:133-159 | one rule's turn: a cooling rule is only counted as skipped, a failing evaluator changes nothing, a raised alert is logged and starts the cooldown |
| AlertRunner.AlertTables.ProcessAlertRules | backend/notifications/alert_runner.py:102-173 | rows, event log and all three counters after one scan in id order, which stops at the first active rule met with the cap exhausted |
| AlertRunner.CappedIsOver | backend/notifications/alert_runner.py:131-132 | after the cap is reached nothing later is evaluated, skipped or logged |
| AlertRunner.FiredCount | backend/notifications/alert_runner.py:143-159 | events logged and rules fired are one to one |
| AlertRunner.FiresExactly | backend/notifications/alert_runner.py:130-155 | a tick logs an event of a rule if and only if the scan gets to it, its cooldown is absent or over, its type is known, its params parse and its evaluator returns a result, and the event is that result |
| AlertRunner.RowExactly | backend/notifications/alert_runner.py:143-157 | what a tick writes to each rule: nothing, the evaluation time, or the firing and a cooldown of six hours |
| AlertRunner.CountersExactly | backend/notifications/alert_runner.py:117-159 | the three counters are the rules that were due and known, those that answered, and those that were still cooling down |
| AlertRunner.FiresAgain | backend/notifications/alert_runner.py:133-157 | over any ticks, a rule that has fired fires again, if its evaluator then answers, at the first tick that gets to it once six hours have passed, and at none before |
| AlertRunner.UnreachedTick | backend/notifications/alert_runner.py:130-159 | a tick that misses an active rule takes `cap` other rules out of the running until the cooldown ends |
| AlertRunner.NoStarvation | backend/notifications/alert_runner.py:123-159 | K ticks within one cooldown reach every one of at most K * cap active rules, whatever the evaluators do |
| AlertRunner.VisitKeepsRate | backend/notifications/alert_runner.py:133-157 | a visit keeps every logged event covered by its rule's cooldown |
| AlertRunner.TickKeepsRate | backend/notifications/alert_runner.py:130-159 | so does every prefix of a scan |
| AlertRunner.EventsAreSpaced | backend/notifications/alert_runner.py:130-159 | over every sequence of ticks, with rules added, toggled and deleted in between and under any clock, two events of one rule id are at least six hours apart, as long as no new rule is given an id that events are logged under |
| AlertRunner.ReuseBreaksSpacing | backend/routes/alert_rules.py:220-235 | and any such reuse, possible after the newest rule is deleted, can be followed by a tick that logs a second event under the id within six hours |
| AlertRunner.ReuseHappens | backend/routes/alert_rules.py:220-235 | five moves from empty tables that log two events under one id an hour apart |
| Capture.CannibalisedEarnsBelowBaseload | backend/power/capture.py:119-166 | generation ordered against price over all priced hours, missing hours as zero, earns at most the baseload price, exactly and after rounding (Chebyshev's sum inequality) |
| Capture.CaptureWithinPrices | backend/power/capture.py:119-166 | with no negative generation the capture price lies between any bounds on the prices |
| Capture.FloorSpread | backend/power/capture.py:140-166 | the floored variant exceeds the capture price by exactly the generation-weighted negative part |
| Capture.ReportedRow | backend/power/capture.py:131-166 | every number of a reported row from the two series, to its rounding |
| Capture.FloorRaisesRow | backend/power/capture.py:150-152 | as reported, flooring prices never lowers what non-negative generation earns |
| Capture.CannibalisedRow | backend/power/capture.py:138-153 | as reported, generation that runs against price earns at most the baseload price |
| Capture.FuelSql | backend/power/capture.py:195-220 | one pass over the joined rows groups each month's sums, counts and distinct days, and has no empty group |
| Capture.PriceSql | backend/power/capture.py:222-227 | one pass groups each month's price sum and hour count |
| Capture.EvaluatorsAgree | backend/power/capture.py:185-272 | for every month the grouped sums give exactly the row of `capture_metrics` on that month's maps, and none exactly when it gives none |
| Capture.WindowCutsNoMonth | backend/power/capture.py:106-116 | an hour is inside the window exactly when its month is |
| Capture.ComputeCapture | backend/power/capture.py:289-340 | one fuel's rows, oldest first: exactly the complete months of the window with enough priced hours and days of generation, each with its month's metrics |
| Convergence.Store.ByDay | backend/power/convergence.py:143-146 | lists the spreads of a border under their UTC days, for exactly the days of the window that have overlapping hours |
| Convergence.Store.StoreConvergence | backend/power/convergence.py:126-159 | writes four points for each border and each whole day with overlapping hours and leaves all other points alone |
| Convergence.LatestRunWins | backend/power/convergence.py:126-159 | over any sequence of runs each point is the one the latest run that covered its day computed |
| Convergence.HistoryIsFaithful | backend/power/convergence.py:126-159 | under unchanged prices any whole-day partition into runs leaves the points of exactly the covered days |
| Convergence.ReaggregatesExactly | backend/power/convergence.py:196-236 | the points alone give the hour-level full and low counts, number of hours and sum of absolute differences |
| Convergence.HoursBehindHistory | backend/power/convergence.py:126-159 | however history was cut, those hours are exactly the covered overlapping hours of the window |
| Convergence.ComputeBorder | backend/power/convergence.py:196-236 | totals over the stored days and the reported shares, none when there are no hours |
| Convergence.ModerateIsTheRest | backend/power/convergence.py:211-216 | hours less full less low is the count of the moderate band, hence never negative |
| Convergence.DayIsMidnight | backend/power/convergence.py:144-145 | a day is a UTC calendar day |
| Convergence.FullIsCoupled | backend/power/borders.py:87-96 | the full count equals the coupled count of the border statistics on the same hours |
| Borders.RanksAgree | backend/power/borders.py:68-74 | SQL rank and Python index agree for every n but those with (n - 1) % 40 == 30, where SQL is exactly one higher; both stay in range |
| Borders.RowNumberPicks | backend/power/borders.py:260-273 | however ties are numbered, row number k holds the k-th smallest value |
| Borders.SqlAgainstPython | backend/power/borders.py:248-281 | the value the SQL selects is the Python percentile, or in the exceptional lengths the next value up |
| Borders.PercentileIgnoresOrder | backend/power/borders.py:68-74 | the percentile of a permuted list is the same |
| Borders.BorderMetrics | backend/power/borders.py:77-135 | one pass counts coupled, split, counter-price and at-rail hours and their shares; split and coupled hours add up, and counter-price hours are split hours |
| Borders.HoursMean | backend/power/borders.py:86-114 | coupled means at most one euro apart; counter-price means that the power flows from the dearer zone to the cheaper; at the rail means a flow of the threshold or more either way |
| Borders.ShareIsPercentage | backend/power/borders.py:124-136 | a share is a percentage to one decimal, and missing without hours |
| Borders.SidesAreSymmetric | backend/power/borders.py:77-116 | swapping the zones and turning the flow round changes no count |
| GasDay.GasDaysTile | backend/gas/gasday.py:32-42 | an instant is in gas day D exactly when it lies between D's beginning and the next, so gas days are contiguous and disjoint |
| GasDay.OffsetDoesNotMatter | backend/gas/gasday.py:32-42 | an instant has one gas day, whatever offset it is written with |
| GasDay.GasDayMonotone | backend/gas/gasday.py:32-42 | later instants never fall in earlier gas days, across both clock changes |
| GasDay.GasDayLength | backend/gas/gasday.py:15-42 | a gas day has 23 hours before the last Sunday of March, 25 before the last Sunday of October, otherwise 24 |
| PowerBurn.ParseGeneration | backend/gas/entsoe.py:94-146 | the nested loops give the energy of the accepted points by gas day, in GWh |
| PowerBurn.ParsePeriod | backend/gas/entsoe.py:130-144 | the innermost loop adds exactly the points whose position and quantity parse |
| PowerBurn.PointMeans | backend/gas/entsoe.py:136-137 | a point lies so many of its own minutes after the start and carries their part of an hour's energy |
| PowerBurn.FourQuartersAreAnHour | backend/gas/entsoe.py:126-137 | four quarter-hour points of one power begin with, and carry the energy of, one hourly point |
| PowerBurn.AcceptedExactly | backend/gas/entsoe.py:108-142 | accepted samples are exactly those of produced gas or untyped series, timed periods and points that parse |
| PowerBurn.BucketIsDayEnergy | backend/gas/entsoe.py:143-144 | a day has a bucket exactly when an accepted point falls in it, with exactly their energy |
| PowerBurn.GenerationIsConserved | backend/gas/entsoe.py:94-146 | the days add up to a thousandth of the accepted MWh: no energy is lost or counted twice |
| PowerBurn.SampleInItsGasDay | backend/gas/entsoe.py:136-143 | a point lands in the gas day whose interval holds its instant |
| Demand.Calibrate | backend/gas/demand.py:66-75 | the line over the months present in both tables, from six months on, with its number of months |
| Demand.NormalEquations | backend/gas/demand.py:71-75 | both normal equations hold, with or without spread in the degree days |
| Demand.ResidualsVanish | backend/gas/demand.py:71-75 | the residuals of the line sum to zero |
| Demand.WeightedResidualsVanish | backend/gas/demand.py:71-75 | and so do the residuals weighted by degree days |
| Demand.NoLineFitsBetter | backend/gas/demand.py:71-75 | no other line leaves a smaller sum of squared residuals |
| Demand.LeastNorm | backend/gas/demand.py:71-75 | where all months are alike, the line returned is the one of least norm among those through the mean |
| Demand.MonthlyTotals | backend/gas/demand.py:58-63 | daily values added up by calendar month, for exactly the months that have days |
| Demand.DemandModel.ComputeDemand | backend/gas/demand.py:78-118 | nothing is written without enough months; otherwise every day with degree days gets its clamped and rounded heating and industrial demand and other rows stay |
| Demand.RowMeans | backend/gas/demand.py:108-114 | heating is the slope's share of the degree days and none without them; industry is the intercept spread over the month, whatever the weather |
| Demand.SumsBack | backend/gas/demand.py:93-113 | with every calibration day covered, unclamped heating plus industrial plus measured burn over the calibration months is exactly the Eurostat total |
| Demand.SumsBackUnlessClamped | backend/gas/demand.py:112-113 | with the clamps the sum never falls short, and is exact if and only if no clamp takes effect on any day |
| Demand.ClampTakesEffect | backend/gas/demand.py:112-113 | six fully covered months whose fitted slope is negative, so that a clamp acts and the model exceeds the Eurostat total |
| Demand.StoredWithinRounding | backend/gas/demand.py:114 | storing one decimal moves the sum over any days by at most 0.05 for each component and day |
| Supply.LargestReports | backend/gas/validation.py:62-68 | the loop's map after all reports is the fold that `BestIsWinner` characterises |
| Supply.BestIsWinner | backend/gas/validation.py:62-68 | a key is held exactly when reported, with the first of its largest reports |
| Supply.SmallerReportChangesNothing | backend/gas/validation.py:44-48 | a further report, anywhere in the list, strictly smaller in magnitude than another of its point, day and direction changes nothing |
| Supply.OrderMattersExactly | backend/gas/validation.py:62-68 | some order of the rows changes what is held for some point if and only if a largest report is tied with one of another class or sign |
| Supply.DaysDependOnOrderExactly | backend/gas/validation.py:62-78 | some order of the rows changes some day's sums if and only if there is such a tie that is not of zeros |
| Supply.GatherByDay | backend/gas/validation.py:70-78 | pipeline, production and both UK directions are summed by day over the points that count |
| Supply.ComputeDailySupply | backend/gas/validation.py:70-103 | one row for exactly the days with a report or LNG, by date, each from that day's sums, with UK flow counted only when it delivers |
| Supply.RowFromReports | backend/gas/validation.py:61-103 | every number of a day's row from the reports: within 0.05, the sums over the largest report of each point, the UK's counted up on entry and down on exit, and supply with the UK only when it delivers |
| Supply.WeeklySupply | backend/gas/validation.py:111-116 | the loop's weekly map is the fold that `WeekIsMondayToSunday` characterises |
| Supply.WeekIsMondayToSunday | backend/gas/validation.py:106-116 | a week exists exactly when a day from its Monday to its Sunday does, with exactly those days' supply |
| Supply.WeeksConserve | backend/gas/validation.py:111-116 | weekly totals add up to the daily supply |
| Balance.TrailingMeans | backend/gas/balance.py:115-119 | fills the array of seven-row trailing means |
| Balance.ZScores | backend/gas/balance.py:121-133 | fills the array of deviations from the up to ninety trailing means before |
| Balance.ZFromResiduals | backend/gas/balance.py:115-132 | a z-score from the residuals: thirty weekly means among the ninety rows before, not all alike; the distance from their mean, and their population variance |
| Balance.ZSign | backend/gas/balance.py:121-132 | a weekly mean above all those it is compared with has a positive z-score, and one below all a negative one |
| Balance.RaisedLast | backend/gas/balance.py:115-132 | raising the last residual by c raises its distance by c / 7 and leaves the variance |
| Balance.AtLeastMeans | backend/gas/balance.py:132-142 | the comparison of squares is the comparison of the quotient by the standard deviation |
| Balance.AddSmoothingAndFlags | backend/gas/balance.py:110-148 | writes smoothed residual, z-score and flag of every row in place, touching no other column |
| Balance.OffsetsAreAbsorbed | backend/gas/balance.py:31-33 | constants added to the residuals and to the components change no z-score, no flag and no named component |
| Balance.LaterDaysChangeNothing | backend/gas/balance.py:110-148 | appending days changes no earlier row |
| Balance.RunCounts | backend/gas/balance.py:137-147 | the run is at least k exactly when the last k rows all have absolute z of three or more |
| Balance.SignalMeans | backend/gas/balance.py:137-148 | a flag exactly where absolute z is two or more, and SIGNAL exactly when the last three rows are all defined with absolute z of three or more |
| Balance.SignalDays | backend/gas/balance.py:14-15 | three consecutive calendar days have absolute z of three or more if and only if the last is a SIGNAL and both days before it are in all three tables |
| Balance.SignalAcrossGap | backend/gas/balance.py:69-148 | an input with a missing day and a SIGNAL right after it |
| Balance.ZDefinedMeans | backend/gas/balance.py:122-132 | a z-score exists exactly from the 37th row on and when the trailing means before are not all equal |
| Balance.MoverIsLargest | backend/gas/balance.py:151-166 | the named component deviates at least as far as every other, in its own direction |
| Balance.LargerMeans | backend/gas/balance.py:163-165 | deviations are compared in standard deviations |
| Balance.FlagPointsRight | backend/gas/balance.py:151-166 | the named component points up when it lies above its last seven values, and down when it lies below all of them, unless they are all alike |
| Balance.ComputeBalance | backend/gas/balance.py:69-107 | one flagged row for each day with supply, demand and storage |
| Balance.RowsAreComputableDays | backend/gas/balance.py:80-82 | the rows are exactly the computable days, strictly by date |
| Balance.RowsFromTables | backend/gas/balance.py:83-95 | each row is made of its own day's tables, a missing export or burn counting as none |
| Balance.WrittenRow | backend/gas/balance.py:137-148 | the engine writes the smoothed residual, the z-score and the flag, and leaves every other column |
| Balance.ColumnsFromReports | backend/gas/balance.py:83-102 | all six columns of a row from the operators' reports and the other tables, the residual within 0.15 of the exact identity |
| Balance.ResidualIdentity | backend/gas/balance.py:83-102 | through all rounding the stored residual is within 0.15 GWh of the exact identity, in which the signed UK flow appears once |
| Balance.ResidualBoundIsAttained | backend/gas/balance.py:83-102 | inputs for which the difference is exactly 0.15 |
| RateLimit.Limiter.Allow | backend/auth/ratelimit.py:22-38 | result and deques after both loops of a call that nobody interrupts, with the early stop at the first full rule |
| RateLimit.AllowRefines | backend/auth/ratelimit.py:22-38 | such a call decides as a full, unpruned history does and keeps agreeing with it |
| RateLimit.PruningIsInvisible | backend/auth/ratelimit.py:22-38 | over every run of such calls under a clock that never goes back all answers are those of the full history |
| RateLimit.NoWindowOverLimit | backend/auth/ratelimit.py:22-38 | in such a run, as of the callers on one event loop, no interval of one window length ever holds more accepted hits than the limit |
| RateLimit.MagicLinkKeysDistinct | backend/auth/ratelimit.py:60-68 | the three rules of a request never share a deque, whatever email and address |
| RateLimit.MagicLinkExactly | backend/auth/ratelimit.py:60-68 | under a clock that does not go back a magic link is sent if and only if the address got none in the last minute and fewer than five in the last hour, and the client fewer than ten |
| RateLimit.SharedKeysExceedExactly | backend/auth/ratelimit.py:29-38 | an accepted call takes a key's window above its limit if and only if the hits there and the call's own uses of the key exceed it; with distinct keys never |
| RateLimitThreads.AloneIsAllow | backend/auth/ratelimit.py:22-38 | the steps of a thread that nobody interrupts add up to one call of the limiter above |
| RateLimitThreads.StepKeepsBound | backend/auth/ratelimit.py:28-38 | every atomic step of every thread, stale pops and pops of an empty deque among them, keeps the bound on what a window can hold |
| RateLimitThreads.OverlapBound | backend/auth/ratelimit.py:22-38 | in every interleaving of at most T calls at a time, with clock readings, head tests, pops, length tests and appends of all threads mixed, a window holds at most limit + (T - 1) * (T + 2) accepted hits |
| RateLimitThreads.OneAtATime | backend/auth/ratelimit.py:22-38 | so calls that do not overlap keep every window within its limit |
| RateLimitExcess.BoundIsAttained | backend/auth/ratelimit.py:22-38 | for every limit of at least one, every window and every T, an interleaving that leaves exactly that many in one window |
| RateLimitExcess.BoundIsExact | backend/auth/ratelimit.py:22-38 | so no interleaving of at most T calls leaves more than b hits in a window if and only if b is at least limit + (T - 1) * (T + 2) |
| RateLimitExcess.LimitHoldsExactly | backend/auth/ratelimit.py:22-38 | and every window keeps within the limit in all of them if and only if T is 1 |
| RateLimitExcess.JumpBack | backend/auth/ratelimit.py:32-38 | two threads, limit one, window 60: four accepted hits in one window, where a thread stalls before a pop only if it has just popped |
| SingleUse.Guard.Prune | backend/auth/single_use.py:18-21 | drops exactly the expired ids |
| SingleUse.Guard.Consume | backend/auth/single_use.py:24-34 | answer and table after one use |
| SingleUse.TableMeans | backend/auth/single_use.py:18-34 | under any clock, the table holds an id exactly as long as no clock reading has reached the expiry it was accepted with |
| SingleUse.AcceptedExactly | backend/auth/single_use.py:18-34 | under any clock, a use is accepted if and only if every earlier acceptance of its id has been followed by a clock reading that had reached its expiry |
| SingleUse.ReplayExactly | backend/auth/single_use.py:18-34 | a live id is accepted a second time if and only if some reading in between had passed its expiry and the clock was set back |
| SingleUse.ReplayHappens | backend/auth/single_use.py:18-34 | three uses in which a live id is accepted twice |
| SingleUse.PruningIsInvisible | backend/auth/single_use.py:18-34 | under a clock that never goes back the guard accepts exactly what a full log of accepted uses lets through |
| SingleUse.AtMostOncePerLife | backend/auth/single_use.py:24-34 | no id is accepted again before the expiry it was accepted with |
| AisHygiene.ValidatePosition | backend/collectors/ais_hygiene.py:39-90 | no reason exactly for reports that pass every plausibility rule |
| AisHygiene.Hygiene.ShouldStore | backend/collectors/ais_hygiene.py:93-112 | answer and cache after one report, with the size-triggered prune |
| AisHygiene.Hygiene.FilterAndCount | backend/collectors/ais_hygiene.py:126-148 | every counter, and that the reasons account for all rejections |
| AisHygiene.BumpAddsOne | backend/collectors/ais_hygiene.py:140 | counting a reason raises the sum over all reasons by one |
| AisHygiene.CacheMeans | backend/collectors/ais_hygiene.py:97-110 | the cache holds exactly each vessel's last stored report, unless a prune has taken it |
| AisHygiene.StoredExactly | backend/collectors/ais_hygiene.py:97-110 | in whatever order reports come, one is stored if and only if its vessel's last stored report is 120 seconds older or a prune in between had dropped it |
| AisHygiene.LateReportIsStored | backend/collectors/ais_hygiene.py:97-110 | 50002 plausible reports, the last stored one second after a stored report of its vessel |
| AisHygiene.PruningIsInvisible | backend/collectors/ais_hygiene.py:97-110 | with no report more than 120 seconds late, prunes change no decision |
| AisHygiene.StoredReportsAreSpaced | backend/collectors/ais_hygiene.py:97-105 | stored reports of one vessel are at least 120 seconds apart |
| TtlCache.Cache.CachedValue | backend/api_guard.py:60-81 | alone, recomputes exactly when the slot is not fresh, and does what the five atomic steps of a reader add up to |
| TtlCache.Cache.WarmValue | backend/api_guard.py:84-98 | alone, does what the two atomic steps of a warmer add up to, and makes the key fresh for exactly the readings before sample plus ttl |
| TtlCache.RunKeepsInv | backend/api_guard.py:60-99 | mutual exclusion, slot expiry and freshness of answers survive every step of every interleaving |
| TtlCache.SpacedUnlessLate | backend/api_guard.py:60-98 | with readers and warmers under a clock that is never set back, recomputations of one key have samples at least one ttl apart in every interleaving in which no warmer stores late |
| TtlCache.LateExactly | backend/api_guard.py:84-98 | a warmer's store is late, by the clock and the readings under way, if and only if readers alone can then go on to recompute a key twice within one ttl |
| TtlCache.LateStoreBreaksSpacing | backend/api_guard.py:60-98 | after a late store, a reader that waits, or a new one whose reading is not before the last, goes on to break the spacing |
| TtlCache.WarmerStoresLate | backend/api_guard.py:84-98 | an interleaving, with nothing late before, that reaches such a store |
| TtlCache.RecomputedOncePerTtl | backend/api_guard.py:60-81 | with readers alone the spacing holds in every interleaving, whatever the clock does |
| TtlCache.AnswersAreNeverStale | backend/api_guard.py:60-99 | with warmers too, every value handed out was sampled less than its ttl before the reader's sample |
| TtlCache.OneComputationAtATime | backend/api_guard.py:74-81 | at most one reader computes at any time |
| Metering.Meter.Record | backend/metering.py:37-46 | adds to one counter in place, writing only lists that are in memory now |
| Metering.Meter.UsageToday | backend/metering.py:49-54 | reads one counter |
| Metering.Meter.Drain | backend/metering.py:62-65 | hands the lists over, so that no later recording reaches them |
| Metering.StepKeepsWriter | backend/metering.py:67-83 | only the one writing transaction has executed rows, and sees the ledger with exactly those added |
| Metering.StepConserves | backend/metering.py:37-85 | every atomic step conserves recorded usage |
| Metering.UsageIsConserved | backend/metering.py:37-85 | in every interleaving recorded usage of a key is in memory, in flight, committed or lost |
| Metering.LedgerNeverOvercounts | backend/metering.py:57-85 | ledger plus memory never exceed what was recorded |
| Metering.QuietLedgerIsExact | backend/metering.py:57-85 | with no flush under way, ledger and memory are what was recorded less exactly what failing flushes had drained and restarts found in memory |
| Metering.FlushMovesAll | backend/metering.py:57-85 | a flush that runs through undisturbed moves all that is in memory into the ledger |
| ApiKeys.KeyStore.CountActive | backend/auth/api_keys.py:43-47 | counts the owner's live keys |
| ApiKeys.KeyStore.CreateKey | backend/auth/api_keys.py:41-57 | a request that nobody interrupts mints below the cap of live keys, otherwise refuses and changes nothing |
| ApiKeys.KeyStore.RevokeKey | backend/auth/api_keys.py:89-100 | revokes only the caller's own live key |
| ApiKeys.KeyStore.ResolveRequestKey | backend/auth/api_keys.py:68-86 | the first call looks up and meters, later calls repeat its answer |
| ApiKeys.CapExceededExactly | backend/auth/api_keys.py:43-55 | an insert takes its owner above five live keys if and only if it goes through, another mint of the owner has committed since its count, and the owner has five by then |
| ApiKeys.OnlyInsertsRaise | backend/auth/api_keys.py:41-100 | no other statement raises anybody's number of live keys |
| ApiKeys.OverlapBound | backend/auth/api_keys.py:41-57 | in every interleaving of counts, inserts and revocations, an owner of whose mints at most c overlap has at most 4 + c live keys |
| ApiKeys.OverlapExceedsCap | backend/auth/api_keys.py:41-57 | n requests that all count before any inserts all go through |
| ApiKeys.CapHolds | backend/auth/api_keys.py:41-57 | over every run, an owner whose mints do not overlap never has more than five live keys, and no two rows share a hash |
| ApiKeys.MintAlone | backend/auth/api_keys.py:41-57 | the two statements of a request that is alone add up to `CreateKey` |
| ApiKeys.FindMeaning | backend/auth/api_keys.py:77-82 | a raw key resolves to a row exactly when the row has its hash and is not revoked |
| ApiKeys.RevokedStaysRevoked | backend/auth/api_keys.py:89-100 | a revoked key resolves to nothing in every later state |
| ApiKeys.RevokedExactly | backend/auth/api_keys.py:89-100 | over every run a key is revoked if and only if it was before or its own owner asked for it |
| ApiKeys.ActiveCounts | backend/auth/api_keys.py:43-47 | the count is the number of the address's rows that are not revoked |
| ApiKeys.MintedResolves | backend/auth/api_keys.py:41-100 | a minted key resolves to its row until it is revoked |
| ApiKeys.RequestIsMeteredOnce | backend/auth/api_keys.py:68-86 | however many dependencies ask, and whatever changes in between, a request is metered at most once and all get one answer |
| ApiKeys.ServedFromStart | backend/auth/api_keys.py:68-86 | from its beginning a request is charged for the live key of its first answer and for nothing else |
| RawCache.Entry.WriteCached | backend/gas/raw_cache.py:73-93 | the exact sequence of disk states a write goes through |
| RawCache.Entry.FetchOrCache | backend/gas/raw_cache.py:96-109 | returns a readable payload without touching the disk, else the fetched one after a write |
| RawCache.ReadExactly | backend/gas/raw_cache.py:48-70 | the compressed payload, or the legacy one where there is no compressed file at all; a torn compressed file hides an intact legacy one |
| RawCache.CrashSeesOldOrNew | backend/gas/raw_cache.py:73-93 | at every crash point of a write a reader sees the old payload up to the replace and the whole new one from then on; an entry is left alone without overwrite, and a completed overwrite leaves no other file |
| RawCache.NewStaysVisible | backend/gas/raw_cache.py:82-91 | once visible, the new payload stays visible for the rest of the write |
| RawCache.OnlyOfferedPayloads | backend/gas/raw_cache.py:48-109 | through any number of crashes only whole payloads that were offered are ever seen |
| RawCache.ReadableForever | backend/gas/raw_cache.py:48-109 | a readable entry never becomes unreadable |
| RawCache.WriteOnce | backend/gas/raw_cache.py:73-109 | without overwrite a readable entry never changes |
| RawCache.FetchPersists | backend/gas/raw_cache.py:96-109 | what a fetch returned is what the next reader gets, if and only if the entry was readable or absent, or is overwritten |
| Archive.ArchiveRoot.BuildYearFile | backend/power/archive.py:80-124 | writes the slice and returns its entry, or leaves everything alone for an empty slice |
| Archive.ArchiveRoot.BuildSeries | backend/power/archive.py:159-167 | the inner loop: skips, builds and counts year by year |
| Archive.ArchiveRoot.BuildArchive | backend/power/archive.py:127-182 | files, manifest and counters after a build |
| Archive.BuildByFile | backend/power/archive.py:157-170 | file by file: which files a build writes and with what, which it keeps, and which entries it carries forward |
| Archive.YearsListed | backend/power/archive.py:139-143 | the years gone through are those given, or all from the oldest hour's to the current one |
| Archive.UnforcedChangesExactly | backend/power/archive.py:144-168 | a build without force changes an existing file if and only if its year is the current or the previous one, it is in the listed series and years, and its slice has rows and differs |
| Archive.StatsCount | backend/power/archive.py:157-182 | with distinct series and years, the counts of a build are the files it writes and those it passes over |
| Archive.ManifestVouches | backend/power/archive.py:127-182 | after any history of builds, removals and manifest losses that ends with a build, every entry is for an existing file and right about it |
| Archive.SlicesPartition | backend/power/archive.py:66-69 | each named zone's hour up to the end of the current year is in exactly one default year slice, later hours in none |
| Archive.HotSlicesEqualStore | backend/power/archive.py:139-167 | a default build leaves every slice of the current and previous year that has rows equal to the store, file and entry |
| Archive.OldFilesStand | backend/power/archive.py:161-163 | without force an existing file of an older year is unchanged |
| Archive.StoppedIsHonestExactly | backend/power/archive.py:115-179 | a build stopped after any file leaves the manifest right if and only if every listed file written by then is still described by its old entry |
| Archive.StopBreaks | backend/power/archive.py:115-179 | a stop that leaves a right manifest wrong: the store has changed, and the file has been replaced |
| Archive.RepairedExactly | backend/power/archive.py:157-179 | a completed build repairs exactly the wrong entries of the files it writes anew |
| Archive.HotEntriesAreRepaired | backend/power/archive.py:139-167 | a default build repairs every entry of the current and previous year that has rows |
| Archive.OlderEntriesStayWrong | backend/power/archive.py:161-163 | a wrong entry of an older year stays wrong through any number of builds without force |
| Entsog.PointTable.SyncPoints | backend/gas/entsog.py:59-113 | the whole point table after a sync, listed and unlisted points |
| Entsog.FirstMember | backend/gas/entsog.py:79-81 | the first of a group in the sort by missing data and operator key |
| Entsog.OneActivePerPoint | backend/gas/entsog.py:73-89 | of the listed classified points exactly one is active at each physical point and direction, and no unclassified one is |
| Entsog.OneActiveUnlessDropped | backend/gas/entsog.py:84-110 | in the whole table there is one if and only if no active point that the registry dropped sits there |
| Entsog.ActiveExactly | backend/gas/entsog.py:68-99 | a listed point is active if and only if it is classified, has data whenever a rival has, and its operator key comes before those of the rivals alike in that |
| Entsog.SyncedFields | backend/gas/entsog.py:93-111 | what a sync writes besides: the class, and the labels unless they are empty |
| Entsog.BeforeMeans | backend/gas/entsog.py:80 | operator keys compare at the first place where they differ |
| Entsog.RegistryOrderDoesNotMatter | backend/gas/entsog.py:62-81 | any order of distinct points collapses to the same registry, on which alone a sync depends |
| Entsog.FlowTable.ForwardFill | backend/gas/entsog.py:211-245 | the whole flow table after the pass over chronological days, and the number of rows added |
| Entsog.CarryIsNewest | backend/gas/entsog.py:231-237 | the carried value is the newest reported one of its own point and direction in range |
| Entsog.FillsExactlyShortGaps | backend/gas/entsog.py:233-244 | a missing day is filled if and only if an active line has a reported value one or two days before, with the nearer of them |
| Entsog.FillingOnlyAdds | backend/gas/entsog.py:240-244 | no row is changed or removed, and added rows are marked interpolated and provisional |
| Entsog.NewRowsExactly | backend/gas/entsog.py:218-245 | a pass adds exactly the rows of active points one or two days after a reported value, with the nearer value |
| Entsog.FillingTwiceAddsNothing | backend/gas/entsog.py:211-245 | repeating the pass changes nothing |
| Entsog.PassKeepsNearestExactly | backend/gas/entsog.py:211-245 | after a pass every filled row carries the nearest reported value if and only if every row filled earlier still did |
| Entsog.RevisionKeepsNearestExactly | backend/gas/entsog.py:150-168 | a late or revised report keeps that so if and only if the filled rows that lean on it already carry its value |
| AskYears.CompressYears | backend/power/ask.py:383-393 | the ranges expand to exactly the years given, and no two neighbours could be joined |
| AskYears.NoShorterList | backend/power/ask.py:383-393 | no list of ranges for the same years is shorter |
| AskYears.ReadAllPrinted | backend/power/ask.py:383-393 | the printed text reads back as the ranges |
| AskYears.PrintedYearsComeBack | backend/power/ask.py:383-393 | and so as the years |
| AskYears.GapsAre | backend/power/ask.py:396-406 | the gap years are exactly those of the interval that are not present, in order |
| AskYears.GapNote | backend/power/ask.py:396-406 | a note exactly when a year is missing, naming exactly the missing years |

## Left out

- BorderMetrics: mean and 95th-percentile spread, latest values and timestamps, and the rounding of the threshold; the percentile itself is treated separately.
- ComputeCapture: one fuel at a time; the running month, names, freshness text and the comparison between fuels are not included.
- ComputeBorder: one border at a time, without the aggregate over borders and the zone registry.
- GasDaysTile: from 2 January of year 1 on, with the clock-change rule of Directive 2000/84/EC in force in every year; the historical entries of the time-zone database are not included.
- ParseGeneration: starts from time series already read from the XML, for instants that `datetime` can represent; `ingest_power_burn` and the efficiency factor are not included.
- ComputeDemand: starts from the daily degree days; the weighting of countries in `eu_daily_hdd` and the version text are not included.
- Calibrate: numpy's least squares in exact arithmetic, without its cut-off for nearly singular systems.
- LargestReports: rows come as the query returns them, with the physical name already stripped of its operator suffix by the regular expression.
- WeeklySupply: a week is named by its number, not by its label; the comparison with the Bruegel reference is finite arithmetic on the result.
- ZScores: the z-score is kept as a difference and a variance; its rounding to two decimals is not included.
- ComputeBalance: exports to Ukraine come summed by day; persisting the rows is an overwrite at their date.
- Allow: `client_ip` and the proxy headers are not included.
- CreateKey: generation of the random key, labels and prefixes; SHA-256 is an injective constructor.
- FetchOrCache: one fetch of a key at a time; of two that overlap, the later write is skipped.
- WriteCached: gzip and JSON are one encoding that either decodes or does not; the path functions are not included.
- BuildYearFile: Parquet, sorting and byte counts; a digest stands for the content it digests, and zones are ids.
- BuildArchive: a manifest is read whole or not at all, where the source keeps the entries before a malformed one; its timestamp and schema note are not included.
- SyncPoints: `classify_point` is an input and the counts by class are not included; point ids are triples.
- ForwardFill: requires chronological days as its docstring does; the fetch and the upserts of `ingest_flows` are not included.
- GapNote: the fixed words around the years.
- RevisionKeepsNearestExactly: a revision is an overwrite at the key; a key repeated among the new rows of one day is added twice, because `db.get` does not see rows that are not flushed (backend/database.py:21, backend/gas/entsog.py:160-178), and that day's commit fails.
- ValidatePosition: digits are the ten ASCII ones, while `str.isdigit` also accepts those of other scripts; such an MMSI of nine is rejected here and may pass there.
- `heavy_query_guard`: a counting semaphore around a request, with no state beyond its count.
- `rail_thresholds_cached`, `ntc_utilization` and `loop_flow`: a time-to-live slot, and per-hour differences and ratios.
- Collectors, schedulers, HTTP routes, e-mail, report texts, natural-language parsing, the frontend and constant tables.
- Visit: the event's payload and the e-mail are not included.
- StoreConvergence: the returned number of points is not included.
- ComputeDailySupply: the filters of the query by date, activity and class are applied before.
- AddSmoothingAndFlags: the z-score column is exact; its rounding is not included.
- RunKeepsInv: readers and warmers with a time to live that is not positive take no step.
- OverlapBound: a test of a deque's head, with the length test that follows it when the head stays, is one step, and so is reading a key's deque out of the dictionary; CPython 3.11 and 3.12 do not switch threads within either.
- ProcessAlertRules: e-mail, payloads and `emailed` are not included, and a run that fails before its commit writes nothing.
- BuildArchive: a manifest that is malformed part of the way counts as unreadable as a whole.
- UsageIsConserved: the `last_used_at` stamps of a flush are not included.
- Floating point: all arithmetic is exact.
