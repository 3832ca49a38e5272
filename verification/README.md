# KRX auto-trading service: a Dafny model of its core

The service watches stocks on the Korea Exchange through a broker's REST and
WebSocket interface, keeps a per-stock *baseline* (decision price, quantity,
price band) and a *step manager* record for every position, tracks the
extremes of each stock's price since it was bought, and turns the broker's
order, fill and balance reports and the live tick stream into buy and sell
orders. This project models that core as pure functions over immutable
records, maps and sequences:

- **Order processing** (`Processor`, `BackupProcessor`): reading report
  fields (`safe_int_convert`), fill-quantity bookkeeping, holding updates,
  the sweep that sorts stale orders into cancel targets and removals, the
  buy-quantity rounding of the first tick, account parsing and grouping.
- **Record stores** (`StepManagerStore`, `BaselineTable`,
  `BaselineCacheModel`, `RealtimeGroups`, `PriceTracker`, `FirstAccess`,
  `OrderConditions`): the database tables, the Redis hashes and the JSON
  condition file, each as a map or a sequence with pure transitions.
- **Trading decisions** (`SmartTrading`, `SmartTradingVariant`,
  `BackupStrategy`, `TradingStrategy`): time zones, scores, holding and
  profit zones, the first-matching-rule decision tables and the order gates.
- **Analytics** (`StockAnalysis`, `PriceConfidence`, `PatternPrediction`,
  `LongTrading`, `MarketUtils`): volume, momentum and strength over recent
  ticks, open-price confidence, the tomorrow-open pattern, moving-average
  crossings, pivots, rankings, resistance and support.
- **Schedules and validators** (`ServerSchedule`, `TradingCalendar`,
  `KstTime`, `NumericTransform`, `BaselineApi`, `StepManagerApi`): the
  start/stop windows, the trading-day calendar, time-string parsing, the
  numeric normaliser of broker replies, and the checks and statistics of
  the HTTP endpoints.

Shared helpers model Python's semantics where the code relies on them:
`PyNum` (truncating `int()`, `round`, percentages), `PyStr` (`strip`,
`split`, `isdigit`), `Decimal` (reading decimal text as `float` does),
`Sorting` (a sort by key) and `Wrappers` (`Option`, `Result`).

The clock, the database and Redis, the broker and all other I/O are
parameters: "now" is a number of seconds or a day number, a stored table
is a map or a sequence, and a failing store call is a `failing` flag.
Python floats are modelled as exact reals; where the code relies on
integer truncation or rounding, that is written out.

## Model

| member | source | states |
|---|---|---|
| Processor.SafeIntConvert | module/processor_module.py:924-956 | None and unsupported values give the default; an int passes through and a float truncates; blank text gives the default; any other answer than the default comes from text that, stripped and without commas, holds only digits and `.-+` and reads as that number truncated |
| Processor.SafeIntConvertRejectsForeign | module/processor_module.py:938-941 | text holding any character other than a digit, `.`, `-`, `+` or `,`, wherever it stands, converts to the default |
| Processor.SafeIntConvertReadsIntegers | module/processor_module.py:924-956 | the decimal text of every integer converts back to that integer |
| Processor.SafeIntConvertIgnoresGrouping | module/processor_module.py:943-946 | digits grouped with a comma read as the one number they write, so `"1,234"` gives 1234 |
| Processor.CleanDeposit | module/processor_module.py:208-217 | the deposit text, without commas and stripped, raises exactly when it passes the digit test after its leading minus signs yet `int` refuses it; any answer is non-negative, and a non-zero one is the absolute value of a number `int` reads |
| Processor.CleanDepositReadsAmounts | module/processor_module.py:213-216 | the amount written by `str(n)` reads back as the absolute value of `n` |
| Processor.CleanDepositRaisesOnDoubleMinus | module/processor_module.py:214 | two leading minus signs pass the digit test yet make `int` raise |
| Processor.TrackOrderExecution | module/processor_module.py:218-254 | the fill increment is never negative, is at least the cumulative fill less what was counted, and when positive brings the counted total to the cumulative fill; the order's entry is dropped exactly when the order completes and otherwise holds the new report; other orders' entries are unchanged |
| Processor.IncrementsTelescope | module/processor_module.py:218-254 | over reports whose cumulative fill never falls and that complete the order at most on the last one, the increments add up to the last cumulative fill less what was already counted |
| Processor.Classify | module/processor_module.py:485-488 | a cancel word in status or state makes the order cancelled, a reject word (without a cancel) rejected; neither kind is a buy or a sell; otherwise the buy and sell words of the status decide, a buy first |
| Processor.ApplyFill | module/processor_module.py:525-526 | a buy adds the increment to the quantity to sell and takes it from the quantity to buy, a sell the mirror image, both floored at 0 |
| Processor.FillConservesQuantities | module/processor_module.py:547-548 | a buy that needs no flooring keeps the sum of the two quantities, and a sell of the same increment restores both |
| Processor.ReadOrderReport | module/processor_module.py:464-471 | the report's numbers are read with `safe_int_convert` defaulting to 0, its status texts are stripped and its code loses the exchange prefix |
| Processor.OnOrderReport | module/processor_module.py:473-549 | a report without a stock code or with an order number that is empty or `"0"` changes nothing; otherwise the execution tracker takes the report; only a buy or a sell can touch the price tracker, and then only the stock's own entry |
| Processor.FillRecordedInTracker | module/processor_module.py:504-548 | a fill with a positive increment and price on a readable tracker reads back as the moved quantities, the execution price and time and the side, every other field as it was |
| Processor.FillRewritesTracker | redis_util/price_tracker_service.py:127-236 | an update that gives the trade price, both quantities and the side succeeds and reads back as the old record with exactly those fields and the update time replaced |
| Processor.TradeUpdateWrites | redis_util/price_tracker_service.py:127-236 | such an update rewrites exactly the six hash fields it gives and no other |
| Processor.ReadAfterTrade | redis_util/price_tracker_service.py:61-79 | a readable hash with those six fields rewritten reads as the old record with them replaced |
| Processor.AbsQuantity | module/processor_module.py:616 | missing or empty text is 0; any answer is non-negative; other text raises exactly when `int` refuses it once the commas are gone |
| Processor.OnBalance | module/processor_module.py:598-638 | with a stock code and numbers that parse, a positive held quantity is stored under the code without its `A` and a zero one removes it, every other code untouched; otherwise nothing changes; stored quantities stay positive |
| Processor.FirstTickQty | module/processor_module.py:658 | the first-tick buy quantity is a multiple of 10, covers the assigned amount at the price, and 10 fewer would not |
| Processor.OnPriceTickAsWritten | module/processor_module.py:640-675 | as written, no price tick changes any tracker: the missing `update_price` raises before anything is stored and the error is caught |
| Processor.TickPrice | module/processor_module.py:651 | the price is never negative and is 0 when field 10 is missing |
| Processor.OnPriceTick | module/processor_module.py:640-675 | the intended handler: no code or a price that is not positive changes nothing, and any tick changes at most the stock's own tracker |
| Processor.FirstTickTracker | module/processor_module.py:657-668 | a first tick rewrites only the stock's own tracker, which is then present |
| Processor.FirstTickTrackerReadsBack | module/processor_module.py:657-668 | the restarted tracker reads back with a buy quantity that covers the assigned amount in lots of ten, 10 fewer would not, and the first-run flag cleared |
| Processor.TickPriceReadsBack | module/processor_module.py:651 | a non-negative price written in decimal reads back as itself |
| Processor.FirstTickStartsTracking | module/processor_module.py:651-668 | a positive tick on a stock whose first-run flag is set leaves a tracker whose buy quantity covers the assigned amount in lots of ten, 10 fewer would not, and whose flag reads back cleared |
| Processor.LaterTickMovesExtremes | module/processor_module.py:669-671 | a positive tick on a stock past its first run with readable extremes records the current price and moves the extremes outward to take it in |
| Processor.FirstTickIsLost | module/processor_module.py:654-671 | on a stock with its first-run flag set, the handler as written leaves the store alone while the intended one gives it a buy quantity covering the budget in lots of ten and clears the flag |
| Processor.RemainingQty | module/processor_module.py:274-283 | the remaining quantity is never negative and is 0 unless the stripped text without commas is all digits |
| Processor.CollectHoldings | module/processor_module.py:287-291 | the holdings built from the rows hold only positive quantities |
| Processor.HoldingsKeys | module/processor_module.py:287-291 | the holdings list exactly the codes, without their `A`, of the rows with a code and a positive remaining quantity |
| Processor.HoldingsTakeLastRow | module/processor_module.py:287-291 | each code holds the quantity of its last qualifying row |
| Processor.AccountReturn | module/processor_module.py:255-304 | without the return list nothing changes and the answer is empty; with it the holdings are rebuilt from its rows alone and returned |
| Processor.ConditionCode | module/processor_module.py:741-755 | an item contributes a code exactly when it is an object whose code is longer than one character and six digits once the `A` goes |
| Processor.AcceptedCodes | module/processor_module.py:741-755 | every accepted code is a six-digit code |
| Processor.AcceptedCodesAreContributed | module/processor_module.py:741-755 | a code is accepted exactly when some item contributes it |
| Processor.StockCodesGrouping | module/processor_module.py:694-767 | sequence 0 adds the accepted codes to the KOSPI set and sequence 1 to the KOSDAQ set, the other set unchanged; a missing or unreadable sequence, a missing or empty item list, or any other sequence changes nothing; only six-digit codes are added |
| Processor.AddCodesToGroup | module/processor_module.py:785-830 | adding a set's codes to a realtime group keeps the group's other fields, leaves the other groups alone, leaves an unknown group unknown, and makes the group hold its old codes and the new ones, still without duplicates |
| Processor.ScanEntries | module/processor_module.py:1000-1036 | the walk over the window drops only unparsable entries inside it, and keeps per order number the index of one of its reports |
| Processor.ScanAbortsOnNonObject | module/processor_module.py:1000-1036 | the walk over a set gives up exactly when some entry in the window parses to something other than an object |
| Processor.ScanDropsUnparsable | module/processor_module.py:1035-1040 | an unparsable entry in the window is dropped exactly when no earlier entry ended the walk |
| Processor.ScanKeepsNewest | module/processor_module.py:1024-1031 | the report kept for an order number has the highest score among its reports, the first of equal ones |
| Processor.Decide | module/processor_module.py:1051-1097 | a completed order is fully traded; a closed one is cancelled or rejected and not completed; the order is a cancel target exactly when it is at least 300 seconds old, still has unfilled quantity and is neither cancelled nor rejected; it is kept exactly when it is neither completed, closed nor overdue |
| Processor.SweepKey | module/processor_module.py:1000-1097 | only entries in the window are removed, every unparsable entry the walk reaches is removed, every cancel target is also removed, each one a report at least 300 seconds old with unfilled quantity and no cancel or reject; for each order's kept report, it is removed exactly when the decision is not to keep it and cancelled exactly when the decision is to cancel; a set whose walk gave up yields no cancel |
| Processor.SweepActsOnNewest | module/processor_module.py:1014-1097 | on a set with no non-object entry in the window, the newest report of each order number (first of equal scores) is removed exactly when it is completed, closed or overdue, and its order is cancelled exactly when it is overdue, unfilled and neither cancelled nor rejected |
| Processor.SweepOrders | module/processor_module.py:977-1132 | every order report set keeps its key and loses exactly its removed entries, and the cancel requests are exactly the cancel targets of each set |
| Processor.ShareCount | module/processor_module.py:886-887 | the deposit is split over at least one stock: the count, or 50 when there are none |
| Processor.AssignedPerStock | module/processor_module.py:888 | for a non-negative deposit each stock's share is the largest non-negative amount that all the stocks can spend within it |
| Processor.MarketTimeWindow | module/processor_module.py:169-174 | the market is open from second 32400 of the day (09:00) through second 55800 (15:30), both included |
| BackupProcessor.SafeInt | backup_code/processor_module.py:497-509 | None and other values give the default; an int passes through and a float truncates; blank text gives the default; any other answer is the number the stripped text writes |
| BackupProcessor.SafeIntReadsIntegers | backup_code/processor_module.py:497-509 | the decimal text of every integer reads back as that integer |
| BackupProcessor.SafeIntRefusesGrouping | backup_code/processor_module.py:500-502 | digits grouped with a comma cannot be read here and give the default |
| BackupProcessor.OnFill | backup_code/processor_module.py:518-592 | a report counts as cancelled exactly when its unfilled quantity is reset; a cancelled report, or a fill without a positive quantity and price, without cached baseline data or of neither side, changes no holding; a buy adds the quantity; a sell takes it off and removes the holding when nothing stays; holdings stay positive |
| BackupProcessor.SellUndoesBuy | backup_code/processor_module.py:539-582 | selling what a buy just added restores the holdings |
| BackupProcessor.Judge | backup_code/processor_module.py:253-272 | an old report is a cancel target exactly when its unfilled quantity reads as positive and neither status holds a cancel, and is removed exactly when the quantity is unreadable or zero or a status holds a cancel |
| BackupProcessor.See | backup_code/processor_module.py:245-277 | reports younger than 60 seconds are not looked at; an old entry that parses to something other than an object ends the sweep; an old unparsable entry is removed; an old report is judged |
| BackupProcessor.WalkSeen | backup_code/processor_module.py:250-277 | every removed index and every target index is an entry judged so |
| BackupProcessor.WalkAbortsOnBroken | backup_code/processor_module.py:250-290 | the walk gives up exactly when an old entry parses to something other than an object |
| BackupProcessor.WalkMeetsEntries | backup_code/processor_module.py:250-277 | an entry is removed, or collected as a target, exactly when it is judged so and nothing before it ended the walk |
| BackupProcessor.SeeAll | backup_code/processor_module.py:245-250 | every entry is looked at once, in order |
| BackupProcessor.Sweep | backup_code/processor_module.py:228-290 | only old entries are removed, every cancel target is removed too, each one a report judged a target that names an order and a stock, and a sweep that gave up cancels nothing |
| BackupProcessor.SweepActsOnOldReports | backup_code/processor_module.py:228-290 | on a store with no malformed old entry, an old report judged a target is removed with a cancel request exactly when it names an order and a stock, one judged for removal goes without a request, and the rest stay |
| BackupProcessor.Grouping | backup_code/processor_module.py:704-714 | an unreadable sequence number changes nothing; sequence 0 adds the gathered codes to the KOSPI set and leaves the KOSDAQ set alone, sequence 1 the mirror case, any other number changes nothing; every item before the first one without a code lands in the chosen set without its first character |
| BackupProcessor.CodesUntilMissing | backup_code/processor_module.py:709-710 | a code is gathered exactly when it is, without its first character, the code of an item that comes before the first item without a code |
| BackupProcessor.GroupingAcceptsShortCodes | backup_code/processor_module.py:710 | an `A`-prefixed code of fewer than seven characters goes into the KOSPI set, where the later grouping refuses it |
| BackupProcessor.HoldingBand | backup_code/processor_module.py:789-790 | a new holding's band is 97% and 103% of the price, each truncated, and the price lies inside it |
| BackupProcessor.SeedQty | backup_code/processor_module.py:801-842 | a new condition baseline gets at least one share; with money and a positive predicted open it gets the money over the open, truncated, or 1 when that is not positive, and one share fewer costs no more than the money |
| BackupProcessor.Unheld | backup_code/processor_module.py:778 | the codes to clear are exactly the baseline codes that are not held |
| BackupProcessor.DeleteCodes | backup_code/processor_module.py:779-780 | deleting each listed code leaves exactly the rows of the other codes |
| BackupProcessor.ClearUnheldAsWritten | backup_code/processor_module.py:779-780 | as written the deletions are never awaited, so the baseline table is unchanged |
| BackupProcessor.ClearUnheld | backup_code/processor_module.py:776-780 | the intended clean-up keeps exactly the rows of held codes |
| BackupProcessor.RowCodes | backup_code/processor_module.py:776 | the table's codes, one per row in row order |
| BackupProcessor.UnheldBaselineSurvives | backup_code/processor_module.py:778-780 | a baseline of a code no longer held survives the clean-up as written and is gone after the intended one |
| SmartTrading.ZoneAt | services/smart_trading_service.py:93-109 | every time of day falls in exactly one zone: closed before 09:05, gap trading until 09:30, main trading until 13:00, afternoon until 14:40, forced selling from 14:40 on |
| SmartTrading.ZonesFollowTheClock | services/smart_trading_service.py:93-109 | zones never go back as the day goes on |
| SmartTrading.SafePct | services/smart_trading_service.py:87-91 | a zero base gives 0; otherwise the result is the change from the base as a percentage of it |
| SmartTrading.RecordFirstError | services/smart_trading_service.py:111-121 | the stock gets an error time, the current moment only when it had none, and every time already recorded is kept |
| SmartTrading.ClearError | services/smart_trading_service.py:123-131 | exactly the stock's error time is dropped |
| SmartTrading.ClearUndoesRecord | services/smart_trading_service.py:111-131 | clearing a stock's first error time restores the table it was recorded in |
| SmartTrading.ShouldEmergencySell | services/smart_trading_service.py:133-149 | an emergency sell is due exactly when the stock has an error time at least 300 seconds ago |
| SmartTrading.RepeatedErrorsKeepTheClock | services/smart_trading_service.py:111-149 | a second error does not restart the timer: the sell is due 300 seconds after the first one |
| SmartTrading.IncrementDailyCount | services/smart_trading_service.py:165-170 | the stock's trade count for the day goes up by one and nothing else changes |
| SmartTrading.UpdateHighest13 | services/smart_trading_service.py:184-192 | the afternoon high becomes the larger of the old high and the price, other stocks' highs and the trade counts unchanged, and a price not above the high changes nothing |
| SmartTrading.PositiveSum | services/smart_trading_service.py:204-208 | the sum of the positive amounts is never negative |
| SmartTrading.LastTicks | services/smart_trading_service.py:205 | the last 60 amounts, or all of them when there are fewer, in order |
| SmartTrading.FiveMinTradeAmount | services/smart_trading_service.py:197-210 | the five-minute trade amount is never negative and is 0 when no amount is positive |
| SmartTrading.NonPositiveSumsToZero | services/smart_trading_service.py:204-208 | amounts none of which is positive add nothing |
| SmartTrading.OlderTicksDoNotCount | services/smart_trading_service.py:205 | an amount older than the last 60 does not change the five-minute amount |
| SmartTrading.GapConditions | services/smart_trading_service.py:215-242 | a gap buy needs an execution strength of at least 150, a positive open, a price at least 1% above the open and a five-minute amount of at least 100,000,000 |
| SmartTrading.MainScore | services/smart_trading_service.py:248-266 | the score is 3, 2, -2 or 0; 3 exactly for strength above 120, momentum up and buy ratio above 60; at least 2 exactly for strength above 100 and ratio above 55; -2 exactly for strength below 80, momentum down and ratio below 40 |
| SmartTrading.InHoldingZone | services/smart_trading_service.py:272-283 | the holding zone is a positive trade price with the current price within 2% of it either way |
| SmartTrading.ProfitZoneSell | services/smart_trading_service.py:289-313 | a profit sell needs a price at least 2% above the trade price; it is a trailing stop exactly when the price is also at least 2% below a positive high, and a profit return exactly when, without a trailing stop, the price is exactly 2% above |
| SmartTrading.AfternoonSell | services/smart_trading_service.py:319-337 | an afternoon sell is due from the afternoon high exactly when the price is at least 1% below a positive high, and otherwise from the trade price exactly when it is at least 1% below a positive trade price |
| SmartTrading.MainSessionSignal | services/smart_trading_service.py:402-431 | a main-session sell needs shares to sell and a profit exit; a buy needs shares to buy and a score of at least 2; a position with shares to sell inside the holding zone is never bought |
| SmartTrading.ZoneSignal | services/smart_trading_service.py:383-446 | the signal carries its zone and the position's quantity; buys happen only in gap and main trading; forced selling sells exactly when there are shares to sell; the afternoon records the high and sells exactly on an afternoon exit; gap trading buys exactly when the gap conditions hold; closed and gap zones never sell |
| SmartTrading.GenerateSignal | services/smart_trading_service.py:343-452 | a stock that traded today gets a neutral signal and no change; missing analysis records the first error time and sells exactly when the error is at least 300 seconds old and there are shares to sell; analysis clears the error time; buys need analysis and a buying zone; trade counts are untouched |
| SmartTrading.Place | services/smart_trading_service.py:460-482 | an order is placed exactly for a non-neutral signal with a positive quantity, a positive current price and an accepted order, and only a placed order counts toward the day |
| SmartTrading.ExecuteTradeOrder | services/smart_trading_service.py:454-486 | an order goes through exactly for a non-neutral signal with a positive current price and an accepted order, the day's count goes up by one exactly then, and it only goes through for a stock that had not traded that day |
| SmartTrading.OneTradePerDay | services/smart_trading_service.py:350-352 | after an order goes through, no other order for that stock goes through the same day |
| SmartTradingVariant.GenerateSignal | test.py:295-386 | the variant gives a neutral signal and changes nothing for a stock that traded today or when analysis is missing; buys only in gap and main trading; forced selling sells exactly when there are shares to sell; trade counts are untouched |
| SmartTradingVariant.ExecuteTradeOrder | test.py:388-420 | an order goes through only with analysis, for a stock that had not traded that day, and when accepted, and the day's count goes up by one exactly then |
| SmartTradingVariant.AgreesWithServiceOnData | test.py:295-386 | with analysis data the variant and the service give the same signal and the same stored highs and counts |
| SmartTradingVariant.ServiceAloneSellsOnStaleData | services/smart_trading_service.py:366-376 | after five minutes without analysis the service sells the position while the variant stays neutral |
| PriceTracker.CellReadsItsText | redis_util/price_tracker_service.py:44-79 | a stored value read with `int` gives the number it was written from, and read as a flag gives whether its text is `true` in any case; a value is non-empty exactly when its text is |
| PriceTracker.NumberReadsBack | redis_util/price_tracker_service.py:44-79 | a number written with `str` reads back with `int` as itself and is never read as a true flag |
| PriceTracker.FlagReadsBack | redis_util/price_tracker_service.py:344 | a flag written with `str` is not a number and reads back as itself |
| PriceTracker.Key | redis_util/price_tracker_service.py:40-42 | a tracker key is `redis:PT:` followed by the code |
| PriceTracker.KeyInjective | redis_util/price_tracker_service.py:40-42 | two stocks share a key exactly when they are the same stock |
| PriceTracker.ToHash | redis_util/price_tracker_service.py:44-59 | the written hash has every field but the afternoon flag |
| PriceTracker.FromHash | redis_util/price_tracker_service.py:61-79 | an empty hash reads as no tracking data |
| PriceTracker.HashRoundTrip | redis_util/price_tracker_service.py:44-79 | a record written as a hash reads back as the same record |
| PriceTracker.FromHashIgnoresAfternoon | redis_util/price_tracker_service.py:61-79 | the afternoon flag plays no part in reading a record |
| PriceTracker.Over | redis_util/price_tracker_service.py:224-225 | a field given in an update replaces the stored one; a field not given keeps it |
| PriceTracker.MergeNothing | redis_util/price_tracker_service.py:224-225 | writing no fields leaves the hash as it was |
| PriceTracker.InitializeTracking | redis_util/price_tracker_service.py:81-125 | a new tracker holds the given prices, quantities, flags and side, with both extremes at the trade price or, without one, the current price, and both times now; only the stock's own key changes, it reads back as that record, and an existing afternoon flag is kept |
| PriceTracker.GetTrackingData | redis_util/price_tracker_service.py:278-291 | a stock with no key has no tracking data; data read carries the stored code |
| PriceTracker.TrackingReadsBackAfterStart | redis_util/price_tracker_service.py:81-125 | right after tracking starts, reading the tracker gives the record just written |
| PriceTracker.StoredExtremes | redis_util/price_tracker_service.py:185-189 | the stored extremes are unknown when either is empty, unreadable when either is not a number, and otherwise their values |
| PriceTracker.Given | redis_util/price_tracker_service.py:200-222 | a field is written exactly when its value is given, as that value |
| PriceTracker.ResetExtremes | redis_util/price_tracker_service.py:155-171 | a trade with the reset flag sets both extremes to the trade price; otherwise a forced update sets them to the current price; otherwise they are not forced |
| PriceTracker.UpdateFields | redis_util/price_tracker_service.py:150-223 | an update fails exactly when it has a current price and the stored extremes are not numbers; otherwise it writes something exactly when some field is given, and then stamps the update time |
| PriceTracker.UpdateStore | redis_util/price_tracker_service.py:127-236 | an update fails exactly when the key is missing or the fields cannot be computed; otherwise only the stock's key changes, to the old hash overwritten by the update's fields, and an update giving nothing changes nothing |
| PriceTracker.UpdateTrackingData | redis_util/price_tracker_service.py:127-236 | an update of an unknown stock changes nothing and answers None; a failed one changes nothing; a successful one answers the tracker as read after the write |
| PriceTracker.LastUpdatedOnlyOnUpdate | redis_util/price_tracker_service.py:224-227 | the update time is stamped exactly when some field is given; otherwise the hash is unchanged |
| PriceTracker.UpdateWritesGivenFields | redis_util/price_tracker_service.py:160-222 | each given field is written as given, a trade price also stamps the trade time, and every field not given keeps its stored value |
| PriceTracker.ExtremesFollowCurrentPrice | redis_util/price_tracker_service.py:176-197 | without a forced update or a reset, a current price raises the stored high or lowers the stored low when it passes them |
| PriceTracker.ForceUpdateResetsExtremes | redis_util/price_tracker_service.py:155-158 | a forced update without a trade reset sets both extremes to the current price |
| PriceTracker.TradeResetsExtremes | redis_util/price_tracker_service.py:163-171 | a trade with the reset flag and no current price sets both extremes to the trade price |
| PriceTracker.ResetThenCurrentUsesStoredExtremes | redis_util/price_tracker_service.py:163-197 | with both a reset trade and a current price, the extremes compare the current price with the extremes stored before the update, so a high of 100 and low of 80 with current price 95 and trade price 90 end as 90 and 90 |
| PriceTracker.ChangePct | redis_util/price_tracker_service.py:269-271 | the change from the trade price is the percentage difference when the trade price is positive and 0 otherwise; it is positive exactly above the trade price and zero exactly at it |
| PriceTracker.GetPriceInfo | redis_util/price_tracker_service.py:238-276 | price information exists exactly when the four price fields are non-empty numbers, and then holds them with the three changes from the trade price |
| PriceTracker.FreshTrackerShowsNoGain | redis_util/price_tracker_service.py:81-125 | a tracker just started at a positive trade price shows its prices, both extremes at the trade price and no gain or loss |
| PriceTracker.GetIsFirst | redis_util/price_tracker_service.py:293-321 | the first-run flag is known exactly when stored, and reads true exactly when its text is `true` in any case |
| PriceTracker.GetIsAfternoon | redis_util/price_tracker_service.py:323-351 | the afternoon flag is known exactly when stored, and reads true exactly when its text is `true` in any case |
| PriceTracker.SetIsFirst | redis_util/price_tracker_service.py:383-411 | setting the first-run flag succeeds exactly for a tracked stock and then writes only that field; otherwise nothing changes |
| PriceTracker.SetIsAfternoon | redis_util/price_tracker_service.py:353-381 | setting the afternoon flag succeeds exactly for a tracked stock and then writes only that field; otherwise nothing changes |
| PriceTracker.FlagsReadBack | redis_util/price_tracker_service.py:293-411 | a flag set on a tracked stock reads back as set |
| PriceTracker.FreshTrackerHasNoAfternoonFlag | redis_util/price_tracker_service.py:44-59 | tracking started for a new stock writes no afternoon flag, whatever flag is passed |
| PriceTracker.StartSetsFirstFlag | redis_util/price_tracker_service.py:81-125 | the first-run flag given when tracking starts reads back as given |
| RealtimeGroups.CreateNew | module/realtimegroup_module.py:21-45 | creating a group fails exactly when the number is taken; otherwise exactly that group is added, holding the given strategy, data types and codes |
| RealtimeGroups.UpdateByGroup | module/realtimegroup_module.py:47-73 | an unknown group changes nothing; otherwise exactly that group changes, each given field replaced and the others kept |
| RealtimeGroups.DeleteByGroup | module/realtimegroup_module.py:89-101 | the group is gone afterwards, every other group is kept, and the answer says whether it existed |
| RealtimeGroups.UpdateStrategy | module/realtimegroup_module.py:103-122 | an unknown group changes nothing; otherwise only that group's strategy changes |
| RealtimeGroups.AddStockToGroup | module/realtimegroup_module.py:124-141 | an unknown group changes nothing; otherwise the code is in the group afterwards, appended when it was missing and the list untouched when present |
| RealtimeGroups.Without | module/realtimegroup_module.py:153-155 | the list without the code holds every other code and is unchanged when the code was absent |
| RealtimeGroups.RemoveStockFromGroup | module/realtimegroup_module.py:143-161 | an unknown group changes nothing; otherwise the code is gone and every other code stays |
| RealtimeGroups.WithoutKeepsNoDuplicates | module/realtimegroup_module.py:153-155 | removing a code from a list without duplicates leaves none |
| RealtimeGroups.MembershipKeepsNoDuplicates | module/realtimegroup_module.py:124-161 | adding or removing a code keeps a group's list free of duplicates |
| RealtimeGroups.RemoveUndoesAdd | module/realtimegroup_module.py:124-161 | removing a code just added restores the group |
| RealtimeGroups.WithoutAppend | module/realtimegroup_module.py:153-155 | removing a code appended to a list without it gives the list back |
| StepManagerStore.CreateNew | module/step_manager_module.py:25-69 | creating a record fails exactly when the code is taken; otherwise only that record is added, with the given fields, the held quantity defaulting to total less traded, the price list defaulting to empty, and an empty list stored as no column |
| StepManagerStore.Pick | module/step_manager_module.py:119-137 | a given value replaces the current one; an absent one keeps it |
| StepManagerStore.UpdateByCode | module/step_manager_module.py:109-143 | an unknown code changes nothing; otherwise only that record changes, each given field replaced and every other field, the code, kind and market kept |
| StepManagerStore.UpdateTradeInfo | module/step_manager_module.py:145-169 | an unknown code changes nothing; otherwise the traded quantity and step are set, the time stamped, the held quantity made total less traded, and the price appended after the earlier prices |
| StepManagerStore.AddTradePrice | module/step_manager_module.py:171-189 | an unknown code changes nothing; otherwise the price is appended after the earlier ones, the step goes up by exactly one and the quantities are kept |
| StepManagerStore.DeleteTradePrice | module/step_manager_module.py:191-218 | an unknown code or an empty list changes nothing; otherwise the last price is removed and a positive step goes down by one, a step of 0 or less staying as it is |
| StepManagerStore.RemoveAt | module/step_manager_module.py:233-234 | removing an index keeps the prices before it and shifts those after it down by one |
| StepManagerStore.DeleteTradePriceByIndex | module/step_manager_module.py:220-246 | an unknown code or an index outside the list changes nothing; otherwise exactly that price is removed and the step becomes the new length |
| StepManagerStore.UpdateTradePriceByIndex | module/step_manager_module.py:248-272 | an unknown code or an index outside the list changes nothing; otherwise only that price changes, the length and step kept |
| StepManagerStore.SyncTradeStepWithPrices | module/step_manager_module.py:274-288 | an unknown code changes nothing; otherwise the step becomes the number of prices and the prices are kept |
| StepManagerStore.ResetTradePrices | module/step_manager_module.py:290-304 | an unknown code changes nothing; otherwise the prices are emptied, stored as no column, and the step is 0 |
| StepManagerStore.DeleteByCode | module/step_manager_module.py:314-330 | the record is gone afterwards, every other record is kept, and the answer says whether it existed |
| StepManagerStore.DeleteUndoesAdd | module/step_manager_module.py:171-218 | deleting the price just added restores the price list, and the whole record when its step was not negative |
| StepManagerStore.SyncIdempotent | module/step_manager_module.py:274-288 | after a sync the step equals the number of prices, and a second sync changes nothing |
| StepManagerStore.StepTracksPrices | module/step_manager_module.py:171-272 | a record whose step equals its number of prices keeps that after adding, deleting or updating a price |
| StepManagerStore.ColumnReadsBack | models/models.py:138-154 | the stored column of any record reads back as its price list |
| StepManagerStore.FullyTradedPositionsAsWritten | module/step_manager_module.py:345-350 | the query as written lists exactly the records whose held quantity is at least the total |
| StepManagerStore.FullyTradedPositions | models/models.py:199-201 | the intended query lists exactly the records whose traded quantity is at least the total |
| StepManagerStore.FullyTradedQueryDisagrees | module/step_manager_module.py:345-350 | a record holding all 10 of 10 shares with none traded is listed by the query as written and not by the intended one |
| StepManagerStore.FullyTradedMeansNothingHeld | models/models.py:193-201 | on a record whose held quantity is total less traded, it is fully traded exactly when nothing is held |
| BaselineTable.Count | module/baseline_module.py:54-59 | a code's number of rows is at most the table's size and is 0 exactly when the code has none |
| BaselineTable.LastStep | module/baseline_module.py:61-69 | a code's last step is absent exactly when it has no rows, and otherwise is a step it has that no other of its steps exceeds |
| BaselineTable.CreateNew | module/baseline_module.py:25-52 | creating fails exactly when the code has a row; otherwise one row at step 0 with the given prices is appended |
| BaselineTable.NextStep | module/baseline_module.py:132-133 | the next step is above every step the code has, and is at least 1 unless the last step is negative |
| BaselineTable.AddStep | module/baseline_module.py:123-148 | adding a step appends one row with the given prices, which becomes the code's last step |
| BaselineTable.FindStep | module/baseline_module.py:80-88 | the first row with that code and step, or none exactly when there is no such row |
| BaselineTable.GetByStep | module/baseline_module.py:80-88 | the row of that code and step, absent exactly when there is none |
| BaselineTable.UpdateByStep | module/baseline_module.py:150-170 | an absent step changes nothing; otherwise exactly that row is overwritten with the new price, quantity and band, absent band ends included |
| BaselineTable.DeleteByStep | module/baseline_module.py:106-121 | deleting reports whether the row existed; an absent one changes nothing; otherwise exactly one row with that code and step is removed |
| BaselineTable.DeleteLastStep | module/baseline_module.py:172-194 | deleting the last step fails exactly when the code has no rows; otherwise exactly one row at the code's last step is removed |
| BaselineTable.WithoutCode | module/baseline_module.py:96-101 | the rows of every other code, which are the table less the code's count |
| BaselineTable.DeleteByCode | module/baseline_module.py:90-104 | deleting a code removes all its rows, keeps every other row, and answers how many went |
| BaselineTable.Codes | module/baseline_module.py:212-217 | the codes that have rows |
| BaselineTable.MaxCountFrom | module/baseline_module.py:251 | the largest number of rows any code in the table has, attained by one of them |
| BaselineTable.MinCountFrom | module/baseline_module.py:252 | the smallest number of rows any code in the table has, attained by one of them |
| BaselineTable.GetBaselineSummary | module/baseline_module.py:227-254 | the summary counts the rows and the distinct codes; every code's number of steps lies between the minimum and maximum, both of which some code attains, and both are 0 on an empty table |
| BaselineTable.MinStepsPositive | module/baseline_module.py:252 | on a non-empty table every code has at least one step |
| BaselineTable.AddStepKeepsUnique | module/baseline_module.py:123-148 | adding a step never duplicates a (code, step) pair |
| BaselineTable.CreateThenAdd | module/baseline_module.py:25-148 | a created code is at step 0 and the next step added is step 1 |
| BaselineTable.DeleteLastUndoesAdd | module/baseline_module.py:123-194 | deleting the last step just added restores the table |
| BaselineCacheModel.EntryOf | services/baseline_cache_service.py:30-42 | a loaded row's entry holds its step, prices and quantity, is marked first with an open price of 0, and has update time 0 |
| BaselineCacheModel.MaxKey | services/baseline_cache_service.py:134 | the largest step key of a stock |
| BaselineCacheModel.GetLastStep | services/baseline_cache_service.py:113-141 | the last step is -1 for a stock that is absent or has no steps, and otherwise its largest step key |
| BaselineCacheModel.GetBaselineInfo | services/baseline_cache_service.py:74-85 | an entry is found exactly when the stock has that step, and is that entry |
| BaselineCacheModel.DecisionPriceByDict | services/baseline_cache_service.py:68-72 | the decision price read from the nested dictionary is the entry's |
| BaselineCacheModel.DecisionPriceByList | services/baseline_cache_service.py:57-66 | the decision price read from the list is absent exactly when no row has the stock and step, and otherwise is such a row's |
| BaselineCacheModel.GetLatestDecisionPrice | services/baseline_cache_service.py:91-102 | the latest decision price is that of the largest step, and absent for a stock that is absent or empty |
| BaselineCacheModel.GetIsFirst | services/baseline_cache_service.py:334-338 | the first-access flag is true exactly for an entry present and marked first; an absent entry gives false |
| BaselineCacheModel.PriceRangeOf | services/baseline_cache_service.py:164 | the range is known exactly when both band ends are non-zero, and is the high less the low |
| BaselineCacheModel.GetOpenPriceStatus | services/baseline_cache_service.py:310-332 | a missing entry is reported as not existing; otherwise the open price counts as set exactly when positive, and an open price is needed exactly for an entry marked first without one |
| BaselineCacheModel.LoadRows | services/baseline_cache_service.py:27-42 | loading keeps every stock already there and gives every loaded row's stock an entry |
| BaselineCacheModel.Initialize | services/baseline_cache_service.py:21-56 | a failed load empties both the list and the dictionary; a successful one replaces the list and keeps every stock already in the dictionary |
| BaselineCacheModel.LoadRowsLookup | services/baseline_cache_service.py:27-42 | after loading rows with distinct (code, step) pairs, each row's entry is the loaded one, and entries for pairs no row names stay as they were |
| BaselineCacheModel.ListAndDictAgree | services/baseline_cache_service.py:57-72 | after loading, the list lookup and the dictionary lookup give the same decision price for every loaded pair |
| BaselineCacheModel.StepFor | services/baseline_cache_service.py:434-438 | a given step is used as it is; otherwise the step is 0 for a stock without steps and is above every non-negative step it has |
| BaselineCacheModel.AddBaselineCache | services/baseline_cache_service.py:395-498 | adding succeeds exactly with a code, the four required fields, and a (stock, step) pair not yet cached; a failure changes nothing; a success stores the given prices with the first-access flag defaulting to true and the open price to 0, appends one row, and keeps every other entry |
| BaselineCacheModel.UpdateBaselineCache | services/baseline_cache_service.py:177-220 | as written, an update succeeds exactly for a cached pair and otherwise changes nothing; it stamps the update time, and each of the decision price, quantity and band ends it is given receives the open price argument instead |
| BaselineCacheModel.UpdateBaselineCacheIntended | services/baseline_cache_service.py:177-220 | the intended update succeeds exactly for a cached pair, stamps the time and replaces each given field with its own argument, keeping the rest |
| BaselineCacheModel.UpdateDecisionPriceErases | services/baseline_cache_service.py:201-202 | updating only the decision price leaves it absent as written and sets it under the intended update |
| BaselineCacheModel.RemoveFromCache | services/baseline_cache_service.py:376-393 | removal drops the matching rows from the list, drops the whole stock when no step is given or the step only, removes the stock once it has no steps left, and leaves every other stock alone |
| BaselineCacheModel.KeepRows | services/baseline_cache_service.py:379-381 | the rows kept are exactly those not matching the stock and step |
| BaselineCacheModel.RemoveUndoesAdd | services/baseline_cache_service.py:346-498 | removing the step just added to a stock with steps restores its steps |
| Models.BaseLine.PriceRange | models/models.py:52-58 | the range is known exactly when both band ends are, and is the high less the low |
| Models.BaseLine.PriceRangePercentage | models/models.py:59-65 | the range percentage is known exactly when both ends are and the decision price is positive, and is the range as a percentage of the decision price |
| Models.BaseLine.IsPriceInRange | models/models.py:66-72 | the in-range answer is known exactly when both ends are; it is true only when the decision price lies between them and false only when it lies outside |
| Models.BaseLine.EstimatedLowValue | models/models.py:78-84 | the low estimate is known exactly when the low end is |
| Models.BaseLine.EstimatedHighValue | models/models.py:85-89 | the high estimate is known exactly when the high end is |
| Models.ValueWithinEstimates | models/models.py:66-89 | for a decision price inside its band and a non-negative quantity, the range is not negative and the total value lies between the low and high estimates |
| Models.StepManager.Column | models/models.py:148-154 | the stored column is empty exactly for an empty price list, and the getter reads any stored column back as the list |
| Models.StepManager.LastTradeValue | models/models.py:178-184 | the last trade value is known exactly when there is a price, and is the last price times the traded quantity |
| Models.StepManager.AddTradePrice | models/models.py:204-208 | adding a price appends exactly one element after the earlier ones, which becomes the last trade price, and changes no other field |
| Models.ReadColumn | models/models.py:139-146 | a missing column reads as the empty list |
| Models.LastOf | models/models.py:157-161 | the last trade price is the last element, known exactly when there is one |
| Models.ProfitLossOf | models/models.py:185-193 | profit or loss is known exactly when there is a price, and is the final price less the last one, times the traded quantity |
| Models.AverageOf | models/models.py:210-213 | the average is known exactly when there is a price, and times the count equals the sum |
| Models.PriceAt | models/models.py:215-218 | the price of a step is known exactly for a step inside the list, and is that element |
| Models.FullyTradedIffNothingRemains | models/models.py:194-203 | a record is fully traded exactly when nothing remains, and the remaining and traded quantities add up to the total |
| Models.ValueSplit | models/models.py:163-177 | with a non-zero final price, the total value is the held value plus the traded value exactly when the total quantity is held plus traded |
| Models.AverageWithinPrices | models/models.py:210-213 | the average of prices within bounds lies within the same bounds |
| PriceListJson.Encode | models/models.py:154 | the written column is bracketed |
| PriceListJson.DecodeItem | models/models.py:144 | an item is read exactly when, stripped, it has no plus sign, no leading zero before another digit, and is an optionally negative run of digits, and then it is that integer |
| PriceListJson.LeadingZeroRejected | models/models.py:144-146 | a list whose only item has a leading zero, such as `[01]`, is a decode error |
| PriceListJson.DecodeItems | models/models.py:144 | decoded items are as many as the pieces read |
| PriceListJson.IntToStrDecodes | models/models.py:144 | a written integer reads back as itself |
| PriceListJson.SpacedIntToStrDecodes | models/models.py:144 | a written integer after the separator's space reads back as itself |
| PriceListJson.DecodePieces | models/models.py:144 | the pieces of a written non-empty list read back as the list |
| PriceListJson.DecodeBracketed | models/models.py:144 | a bracketed text reads as the empty list when blank inside, and otherwise as its comma-separated items |
| PriceListJson.SplitEncodeItems | models/models.py:154 | splitting the written items at commas gives one piece per number |
| PriceListJson.RoundTrip | models/models.py:139-154 | every list of integers written as JSON reads back as itself |
| BackupStrategy.ZoneOf | backup_code/smart_trading_service.py:117-127 | a position up to 0.1 is the strong-buy zone, up to 0.3 the buy zone, up to 0.7 neutral, up to 0.9 the sell zone, and above it the strong-sell zone |
| BackupStrategy.PctOrFail | backup_code/smart_trading_service.py:132-135 | a percentage over a zero base raises; otherwise it is the difference as a percentage of the base |
| BackupStrategy.CalculatePricePosition | backup_code/smart_trading_service.py:101-140 | the analysis succeeds exactly when the band is positive and the decision, low and current prices are non-zero; the position is the price's place in the band clamped to 0 and 1, and its zone follows it |
| BackupStrategy.LevelOf | backup_code/smart_trading_service.py:149-164 | a strength of 200 or more is very strong, 150 strong, 120 normal, 80 weak, and below 80 very weak |
| BackupStrategy.LevelIsMonotone | backup_code/smart_trading_service.py:149-164 | a greater strength never has a lower level |
| BackupStrategy.TrendOf | backup_code/smart_trading_service.py:165-227 | the trend is never recovering or correcting; it is strongly rising exactly when short over long over day with a lead above 20, upward exactly when short leads long or long leads day by more than 10, strongly falling and downward in the mirror cases, and stable exactly when short equals long and long is within 10 of day |
| BackupStrategy.AnalyzeStrength | backup_code/smart_trading_service.py:142-227 | the analysis carries the level and trend of its strengths; the strength score is half the short strength capped at 100, the momentum score lies in 0 to 100 and is 50 when short equals day, and the overall score is the mean of the two |
| BackupStrategy.DecideWith | backup_code/smart_trading_service.py:229-350 | the first rule that holds decides: strength 95 exactly for a confident buy or sell, HOLD with quantity 0 and strength 10 exactly when no rule holds, any other action with the baseline quantity and strength at least 80, and a weak sell only when no earlier rule holds |
| BackupStrategy.Decide | backup_code/smart_trading_service.py:239-256 | the price analysis lacks the confidence-band keys, so every figure reads as 0 and the confident rules of strength 95 never fire |
| BackupStrategy.GenerateSignal | backup_code/smart_trading_service.py:60-99 | a failed price analysis gives HOLD of strength 0; otherwise the decision over the price position and strength analysis |
| BackupStrategy.CheckOpportunity | backup_code/smart_trading_service.py:555-609 | a signal is produced only when the last step's cached entry has all five baseline figures non-zero and the current price is positive, and is then the signal of those figures and the three strengths |
| BackupStrategy.ForwardedExactlyWhenActing | backup_code/smart_trading_service.py:539-553 | a signal reaches execution exactly when it exists and is not HOLD, since every other action has strength at least 80 and HOLD has at most 10 |
| TradingStrategy.DetermineTradingState | services/trading_strategy.py:118-132 | 09:00 to 09:30 is observation, 09:30 to 12:00 active trading, 12:00 to 15:30 conservative, and any other time inactive |
| TradingStrategy.TradingTimeAndState | services/trading_strategy.py:668-677 | it is trading time exactly when the state is not inactive, or at 15:30 itself |
| TradingStrategy.BaseDiscount | services/trading_strategy.py:143-148 | the base discount is 1.5% when the KOSPI change is 1.5 or more, 2.5% when it is -1.5 or less, and 2% between |
| TradingStrategy.ExtraDiscount | services/trading_strategy.py:151-161 | another 0.5% off when the price is more than 1% above a positive open, 0.5% less off when more than 1% below it, and none otherwise |
| TradingStrategy.ReferencePrice | services/trading_strategy.py:165 | the reference is the lower of the price and a positive open, or the price when there is no open |
| TradingStrategy.UnifiedBuyPrice | services/trading_strategy.py:135-177 | the buy price never exceeds a positive tracker price or a non-negative reference price, and when the tracker does not undercut it lies between 97% less one won and 99% of the reference |
| TradingStrategy.DiscountedNotAbove | services/trading_strategy.py:166 | a discounted non-negative price, truncated, is not above the price |
| TradingStrategy.DiscountBounds | services/trading_strategy.py:164-166 | a discount between 1% and 3% leaves between 97% less one won and 99% of the price |
| TradingStrategy.TargetProfit | services/trading_strategy.py:189-199 | the target is 3% for a long-term stock in observation or in active trading with a known KOSPI change of -1.5 or more, and 2% otherwise |
| TradingStrategy.ShouldSellForProfit | services/trading_strategy.py:179-213 | a profit sell is due exactly when the trade price is positive, the gain reaches the target and, with a positive high, the price is at least 0.5% below it |
| TradingStrategy.ShouldSellForLoss | services/trading_strategy.py:215-231 | a loss sell is due exactly when the trade price is positive and the price has fallen 10% for a long-term stock, 5% otherwise |
| TradingStrategy.ExitsExclude | services/trading_strategy.py:179-231 | no price is both a profit exit and a loss exit |
| TradingStrategy.AbsField | services/trading_strategy.py:83-86 | a price field is read exactly when `int()` accepts its text, as the absolute value of that number, and a missing field reads as 0 |
| TradingStrategy.PrintedPriceReads | services/trading_strategy.py:83-86 | a price field holding the decimal text of a number reads back as its absolute value |
| TradingStrategy.Strength | services/trading_strategy.py:87 | a tick without field 228 has strength 0 |
| TradingStrategy.ReadMarketData | services/trading_strategy.py:72-89 | a tick is read exactly when its code without the `A` is non-empty, `int()` accepts fields 10, 16, 17 and 18 and `float()` accepts field 228; it then carries that code, the four prices as absolute values and the strength; any other tick does nothing, since the raise is caught at :110-113 |
| TradingStrategy.UnreadableStrengthDropsTick | services/trading_strategy.py:87 | a tick whose field 228 is text `float()` rejects is dropped, whatever its prices |
| TradingStrategy.PrintedTickReads | services/trading_strategy.py:72-89 | a tick whose four prices are written as decimal integers and which has no strength field reads as those prices made non-negative with strength 0 |
| TradingStrategy.ValidateMarketDataAsWritten | services/trading_strategy.py:595-604 | as written, validation compares the code text with 0 first and raises on every tick |
| TradingStrategy.ValidateMarketData | services/trading_strategy.py:595-604 | the intended validation accepts a tick exactly when its four prices are positive |
| TradingStrategy.WrittenValidationRejectsGoodTicks | services/trading_strategy.py:92-93 | a tick with four positive prices raises in the validation as written and passes the intended one |
| TradingStrategy.SellLogic | services/trading_strategy.py:272-398 | over a view of the tracker's trade price and quantities (the view's source is fixed by HandleTickOnPriceInfo and HandleTickOnTracking): a sell needs a view with a positive trade price and sells exactly the quantity to sell; a stop-loss sell meets the loss rule; a take-profit sell has gained at least 2%; the sell logic never buys |
| TradingStrategy.EmergencyBuy | services/trading_strategy.py:402-427 | an emergency buy happens exactly for a planned buy with positive price and quantity, a price at or below the planned one and a code not traded today, at the planned price and quantity |
| TradingStrategy.ActiveBuy | services/trading_strategy.py:429-482 | over a view of the tracker: an active buy happens exactly when the KOSPI change is above -3, the code is long-term and not traded today, the tracker has a quantity to buy, the price is at or below the unified buy price and within 2% of a positive low, at that price and quantity |
| TradingStrategy.ConservativeBuy | services/trading_strategy.py:484-524 | over a view of the tracker: a conservative buy happens exactly for a long-term code not traded today whose tracker has a positive quantity and price with the current price at or below it, at the tracker's price |
| TradingStrategy.Strategy | services/trading_strategy.py:234-271 | over a view of the tracker: sells go only to held codes and buys only to codes neither held nor traded today, outside the inactive state; past observation only long-term codes are bought; the inactive state orders nothing |
| TradingStrategy.RemoveFirst | services/trading_strategy.py:533-534 | removing a code present takes out exactly one occurrence; an absent code changes nothing |
| TradingStrategy.RemoveFirstAppended | services/trading_strategy.py:572-573 | removing a code just appended to a list without it restores the list |
| TradingStrategy.RemoveAppendedWhenAbsent | services/trading_strategy.py:572-573 | appending a missing code then removing it gives the list back |
| TradingStrategy.AfterSell | services/trading_strategy.py:525-550 | a sent sell takes the code out of the holdings; a failed one leaves the code held and keeps every holding |
| TradingStrategy.AfterBuy | services/trading_strategy.py:552-575 | a sent buy appends the code to the traded-today list; a failed one leaves a list without it unchanged |
| TradingStrategy.HandleTick | services/trading_strategy.py:63-116 | over a view of the tracker: an invalid tick orders nothing; otherwise the state's strategy decides; no order changes nothing; a buy records the code as traded today only when sent; a sell drops the code from the holdings only when sent |
| TradingStrategy.NoSecondBuy | services/trading_strategy.py:420-517 | after a buy is sent for a code, no later tick buys it again |
| TradingStrategy.PriceInfoView | redis_util/price_tracker_service.py:262-272 | the view read from `get_price_info` exists exactly when the price information does, carries its trade price, and reads every quantity and the buy price as 0 |
| TradingStrategy.TrackingView | redis_util/price_tracker_service.py:278-290 | the view read from the full tracker record exists exactly when the record does and carries its trade price and both quantities, with the buy price 0 |
| TradingStrategy.NoQuantityNoTrackerOrder | services/trading_strategy.py:272-524 | a view without quantities stops the sell logic and both tracker-driven buys, leaving only the observation phase's emergency buy |
| TradingStrategy.HandleTickOnPriceInfo | services/trading_strategy.py:283-506 | with the view as written, no tick is sold on, and the only buy is the observation phase's emergency buy |
| TradingStrategy.HandleTickOnTracking | services/trading_strategy.py:63-116 | with the tracker's record as the view, a sell is of the record's whole positive quantity to sell at a positive trade price, an active buy of its quantity to buy, and no conservative buy happens |
| TradingStrategy.StopLossNeedsTheRecord | services/trading_strategy.py:283-292 | a held stock past its stop-loss with shares to sell is kept with the view as written and sold with the tracker's record |
| PriceConfidence.Rank | redis_util/price_confidence_service.py:11-19 | the five levels are ranked 0 to 4 |
| PriceConfidence.LevelOf | redis_util/price_confidence_service.py:221-232 | a score of 90 or more is very high, 70 to 90 high, 30 to 70 medium, 10 to 30 low, and below 10 very low |
| PriceConfidence.LevelIsMonotone | redis_util/price_confidence_service.py:221-232 | a higher score never has a lower level |
| PriceConfidence.AccuracyScore | redis_util/price_confidence_service.py:186-196 | the accuracy score lies in 0 to 100; it is full exactly when the open misses the decision price by at most 1%, at most 90 beyond that, and 0 exactly from a 30% miss on |
| PriceConfidence.AccuracyNeverRisesWithTheMiss | redis_util/price_confidence_service.py:186-196 | a larger miss never scores higher accuracy |
| PriceConfidence.RangeScore | redis_util/price_confidence_service.py:202-210 | the range score is 100 up to a 50% miss of the half-range, 80 up to 100%, 60 up to 200%, and 40 beyond |
| PriceConfidence.PositionScore | redis_util/price_confidence_service.py:198-200 | within the range the position score lies in 0 to 100; it is 100 exactly at the centre and 0 exactly at either end |
| PriceConfidence.PositionScoreIsSymmetric | redis_util/price_confidence_service.py:198-200 | positions mirrored about the centre score alike |
| PriceConfidence.ConfidenceScore | redis_util/price_confidence_service.py:174-219 | the score is half the accuracy, three tenths the position and a fifth the range score, clamped to 0 to 100 |
| PriceConfidence.PerfectPredictionScoresFull | redis_util/price_confidence_service.py:174-232 | an open on the decision price at the centre of the range scores 100, very high |
| PriceConfidence.PositionInRange | redis_util/price_confidence_service.py:127-133 | the position lies in 0 to 1; it is 0 exactly at or below the low, 1 exactly at or above the high, and in between the open's share of the range |
| PriceConfidence.PositionIsMonotone | redis_util/price_confidence_service.py:127-133 | a higher open never sits lower in the range |
| PriceConfidence.AnalyzeConfidence | redis_util/price_confidence_service.py:102-172 | an empty range or a zero price gives the fallback analysis; otherwise the position is the open's place in the range and the level follows the score, which lies in 0 to 100; accuracy is full exactly when the open is within 1% of a positive decision price |
| PriceConfidence.WithinOnePercent | redis_util/price_confidence_service.py:137 | the miss ratio is at most 1% exactly when a hundred times the miss is at most the decision price |
| PriceConfidence.RecordOpenPrice | redis_util/price_confidence_service.py:44-100 | the intended service, whose stored record reads back (StoredRecordReadsBack): a code already recorded returns its record and changes nothing; otherwise the current price is stored as the open with its analysis |
| PriceConfidence.FirstWriteWins | redis_util/price_confidence_service.py:64-67 | in the intended service, a second record for a code returns the first and leaves the store unchanged; as written the second call answers None (SecondRecordIsLost) |
| PriceConfidence.PositionBandOf | redis_util/price_confidence_service.py:337-349 | below 0.2 is the bottom of the range, then 0.2 bands up to the top from 0.8 |
| PriceConfidence.MiddleOpenReadsAsMiddle | redis_util/price_confidence_service.py:337-349 | an open between 40% and 60% of the range reads as the middle |
| PriceConfidence.LevelText | redis_util/price_confidence_service.py:13-17 | every level has non-empty text |
| PriceConfidence.LevelName | redis_util/price_confidence_service.py:382-389 | every level has a non-empty statistics key |
| PriceConfidence.NamesAreTheKeys | redis_util/price_confidence_service.py:382-389 | each level's name is one of the five statistics keys, and distinct levels have distinct names |
| PriceConfidence.Underscored | redis_util/price_confidence_service.py:398 | replacing spaces with underscores keeps the length and every other character and leaves no space |
| PriceConfidence.KeyAsWritten | redis_util/price_confidence_service.py:398 | the key made from a level's stored text is never a statistics key |
| PriceConfidence.CountKeys | redis_util/price_confidence_service.py:382-398 | counting succeeds exactly when every key is a statistics key, and then counts each key's occurrences |
| PriceConfidence.KeysOf | redis_util/price_confidence_service.py:396-398 | one key per record, made from the level as written or from its name |
| PriceConfidence.CountLevelsAsWritten | redis_util/price_confidence_service.py:382-398 | the counting loop as written, over the levels of the records that parsed: any level makes it raise; with none every count is 0 |
| PriceConfidence.CountLevels | redis_util/price_confidence_service.py:382-398 | the intended statistics count each level's records under its name |
| PriceConfidence.NamesCount | redis_util/price_confidence_service.py:382-398 | the keys made from names count each level as often as it occurs |
| PriceConfidence.OneRecordBreaksTheStatistics | redis_util/price_confidence_service.py:398 | one very-high record makes the statistics as written raise, and the intended ones count it once |
| PriceConfidence.LevelByValue | redis_util/price_confidence_service.py:240-244 | `ConfidenceLevel(text)` gives a level exactly when the text is some level's value, and then that level |
| PriceConfidence.LevelTexts | redis_util/price_confidence_service.py:11-17 | each level's value names that level alone, and the `str()` text of a member is no level's value |
| PriceConfidence.ParseRecord | redis_util/price_confidence_service.py:235-260 | a stored record reads back exactly when its level text is some level's value, and then with that level and every other field as stored |
| PriceConfidence.StoredRecordReadsBack | redis_util/price_confidence_service.py:89 | a record stored through `default=str` never reads back, while one stored with its level's value reads back as itself |
| PriceConfidence.RecordOpenPriceAsWritten | redis_util/price_confidence_service.py:44-100 | as written, a code already recorded answers its stored record parsed (None when it does not parse) and writes nothing; otherwise the current price is stored as the open, through `default=str`, with its analysis |
| PriceConfidence.SecondRecordIsLost | redis_util/price_confidence_service.py:64-67 | as written, the first call for a new code answers its record and the second answers None and writes nothing |
| PriceConfidence.ParsedStored | redis_util/price_confidence_service.py:392-399 | records stored as written all drop out of the statistics; records stored by value give their levels in order |
| PriceConfidence.ConfidenceStatistics | redis_util/price_confidence_service.py:368-412 | the statistics over the stored records: under the meant keys they count each parsed level; under the written keys they succeed exactly when no record parsed |
| PriceConfidence.StatisticsOfStoredRecords | redis_util/price_confidence_service.py:368-412 | as written no stored record parses, so every count is 0 and the key error is never reached; with records stored by value one record reaches it, and the meant keys count every level |
| StockAnalysis.ParseExecutionTime | redis_util/stock_analysis.py:25-50 | text not six characters long gives the current moment; any result is the current moment or a moment of today |
| StockAnalysis.ReadsTheClock | redis_util/stock_analysis.py:30-46 | six digits naming a valid clock read as today's midnight plus that many seconds |
| StockAnalysis.ParseTick | redis_util/stock_analysis.py:52-85 | a tick is read exactly when the fields are readable: all fourteen integer fields are accepted by `int()` and fields 12, 228, 311 and 1032 by `float()`; a tick read carries the code without its `A`, the price (field 10), the volume (field 15) and the strength (field 228) |
| StockAnalysis.BadStrengthDropsTick | redis_util/stock_analysis.py:76 | a tick whose field 228 is text `float()` rejects is dropped, whatever the other fields hold |
| StockAnalysis.AbsentFieldIsZero | redis_util/stock_analysis.py:60-79 | a missing field reads as 0 |
| StockAnalysis.RecentTicks | redis_util/stock_analysis.py:87-124 | a tick is returned exactly when some member scored within the window is of type 0B and parses to it; nothing is returned exactly when no member qualifies |
| StockAnalysis.WiderWindowHoldsMore | redis_util/stock_analysis.py:243-244 | the one-minute window never holds more ticks than the five-minute window |
| StockAnalysis.WeighingVolumeZero | redis_util/stock_analysis.py:131-140 | the weighing volume is never negative, and is 0 exactly when no tick has both a volume and a positive strength |
| StockAnalysis.WeightedSumBounded | redis_util/stock_analysis.py:131-140 | with no weighing tick stronger than `m`, the weighted sum is at most what it would be with every weighing strength set to `m` |
| StockAnalysis.TickBound | redis_util/stock_analysis.py:138-140 | a tick no stronger than `m` adds at most what a tick of strength `m` and the same volume would |
| StockAnalysis.CappedSumIsProduct | redis_util/stock_analysis.py:131-140 | the weighted sum with every strength set to `m` is `m` times the weighing volume |
| StockAnalysis.ExecutionStrength | redis_util/stock_analysis.py:126-145 | the strength is 0 without weighing volume, and otherwise the positive volume-weighted mean strength |
| StockAnalysis.StrengthAtMostStrongest | redis_util/stock_analysis.py:126-145 | the weighted strength never exceeds the strongest weighing tick |
| StockAnalysis.WeightedSumPositive | redis_util/stock_analysis.py:131-140 | the weighted sum is never negative, and positive when there is weighing volume |
| StockAnalysis.VolumeMetrics | redis_util/stock_analysis.py:147-165 | the total is buy plus sell; buy volume is 0 exactly when no tick is a buy, and sell volume 0 exactly when no tick is a sell |
| StockAnalysis.VolumeMetricsAdd | redis_util/stock_analysis.py:147-165 | the volumes of two runs of ticks add up |
| StockAnalysis.PriceMomentumOf | redis_util/stock_analysis.py:167-204 | fewer than two ticks or a zero first price is flat with no change; otherwise the change is last minus first price and the rate its percentage of the first; the momentum is up exactly for a rise and down exactly for a fall |
| StockAnalysis.VolumeExtremes | redis_util/stock_analysis.py:220-223 | the extremes bound every tick's absolute volume and are attained, and are 0 without ticks |
| StockAnalysis.AverageStrength | redis_util/stock_analysis.py:216-218 | the average is 0 without positive strengths and otherwise their mean |
| StockAnalysis.Ratio | redis_util/stock_analysis.py:272-276 | a ratio over a zero total is 0, otherwise the part's percentage of the total, within 0 to 100 for a part not above the total |
| StockAnalysis.RatiosSumToHundred | redis_util/stock_analysis.py:272-276 | with any volume the buy and sell ratios add up to 100 |
| StockAnalysis.Summarise | redis_util/stock_analysis.py:259-311 | a window counts its ticks and volumes, and its buy and sell ratios add up to 100 when there is volume and are both 0 when there is none |
| StockAnalysis.AnalyzeStock | redis_util/stock_analysis.py:241-323 | the analysis fails exactly without five-minute ticks, and otherwise reports the latest tick and both windows' point counts |
| StockAnalysis.AnalyzeStored | redis_util/stock_analysis.py:241-254 | the analysis fails exactly when no readable 0B member lies in the last 300 seconds, and the one-minute window never has more points than the five-minute one |
| PatternPrediction.ParsePrice | utils/patten_expectation.py:19-26 | a number is kept, empty text or a non-text value reads as 0, and other text is read as a float once its commas are removed |
| PatternPrediction.CommasDoNotMatter | utils/patten_expectation.py:25 | text with thousands separators reads as the same text without them |
| PatternPrediction.LoneCommaIsRejected | utils/patten_expectation.py:25 | a lone comma leaves empty text, which `float()` rejects |
| PatternPrediction.ChangeRate | utils/patten_expectation.py:28-32 | the rate is 0 for a zero open and otherwise the change as a percentage of the open |
| PatternPrediction.RisingOnPositiveOpen | utils/patten_expectation.py:34-37 | on a positive open a stock is rising exactly when the close is at least 102% of the open |
| PatternPrediction.AfterRisingDay | utils/patten_expectation.py:77-107 | after a rising day the prediction is today's mid-price, yesterday's close, today's close or yesterday's open; a gap above yesterday's close is reported exactly when today opens above it, and the mid-price goes with the gap, inside and default cases; climbing from inside or below predicts yesterday's close, which today's close exceeds |
| PatternPrediction.AfterFallingDay | utils/patten_expectation.py:109-139 | after a falling day the prediction is today's close, yesterday's open or yesterday's close; a gap is reported exactly when today opens above yesterday's close; climbing from inside or below predicts yesterday's open |
| PatternPrediction.RisingTableIsComplete | utils/patten_expectation.py:77-107 | on a truly rising yesterday some named case always applies |
| PatternPrediction.RisingDayPredictionAtLeastYesterdayOpen | utils/patten_expectation.py:77-107 | after a rising yesterday, a rising today is never predicted to open below yesterday's open |
| PatternPrediction.FallingDayPredictionAtLeastYesterdayClose | utils/patten_expectation.py:109-139 | after a falling yesterday, a rising today is never predicted to open below yesterday's close |
| PatternPrediction.PredictTomorrowOpen | utils/patten_expectation.py:52-75 | a prediction is made exactly when today is rising, from the rising table when yesterday's close is above its open and from the falling table otherwise |
| PatternPrediction.Extract | utils/patten_expectation.py:39-50 | a day is read exactly when all six of open, close, high, low, volume and trade amount parse, and then carries all six |
| PatternPrediction.Codes | utils/patten_expectation.py:151-157 | the group keys are exactly the rows' codes, each once |
| PatternPrediction.Filter | utils/patten_expectation.py:153-157 | a code's group holds exactly the rows with that code |
| PatternPrediction.RowsOf | utils/patten_expectation.py:153-157 | a code's rows are the rows with that code, as many times as they occur |
| PatternPrediction.Group | utils/patten_expectation.py:141-163 | a group holds each row of its code as often as it occurs, ordered by date |
| PatternPrediction.GroupsPartitionRows | utils/patten_expectation.py:141-163 | the group sizes add up to the number of rows: every row lands in exactly one group |
| PatternPrediction.GroupSizesAreFilterSizes | utils/patten_expectation.py:159-161 | sorting each group by date keeps its size, so the group sizes add up as the unsorted selections do |
| PatternPrediction.FiltersPartitionRows | utils/patten_expectation.py:151-157 | the rows selected for the distinct codes, one selection per code, add up to all the rows |
| PatternPrediction.PredictGroup | utils/patten_expectation.py:180-216 | a group predicts only from at least two rows, from its last two days, with a change of at least 2% and the pattern tables' prediction; two readable last days with a rising today always predict |
| PatternPrediction.BadVolumeSkipsGroup | utils/patten_expectation.py:180-216 | a volume that `parse_price` rejects in either of the last two rows skips the code, as the ValueError handler does |
| PatternPrediction.Somes | utils/patten_expectation.py:188-216 | the kept predictions are exactly the groups that produced one |
| PatternPrediction.Candidates | utils/patten_expectation.py:180-216 | one candidate per code, from that code's date-ordered group |
| PatternPrediction.BatchPredict | utils/patten_expectation.py:165-221 | the batch holds exactly the predictions the groups produce |
| Sorting.StrLeTotal | utils/patten_expectation.py:161 | any two strings are ordered one way or the other |
| Sorting.StrLeTrans | utils/patten_expectation.py:161 | the string order is transitive |
| Sorting.Insert | utils/patten_expectation.py:161 | inserting into a sorted list keeps it sorted and adds exactly the one element |
| Sorting.SortBy | utils/patten_expectation.py:161 | sorting by a string key yields a permutation in key order |
| Sorting.InsertReal | utils/long_trading.py:394 | inserting into an ascending list keeps it ascending and adds exactly the one number |
| Sorting.SortReals | utils/long_trading.py:394 | the ascending sort is a permutation in ascending order |
| Sorting.Reverse | utils/long_trading.py:398 | the reversal holds the same elements in the opposite order |
| Sorting.SortRealsDescending | utils/long_trading.py:398 | the descending sort is a permutation in descending order |
| Sorting.ReversedAscending | utils/long_trading.py:398 | reversing an ascending list gives a descending one |
| LongTrading.Head | utils/long_trading.py:387 | the first `n` rows, or all but the last `-n` for a negative `n` |
| LongTrading.CrossStates | utils/long_trading.py:446-452 | one state per bar of the latest twenty, oldest first, true exactly when the five-day average is at or above the ten-day one |
| LongTrading.ExpandLength | utils/long_trading.py:438-442 | the runs expand to as many days as their lengths add up to |
| LongTrading.MaCrossAnalysis | utils/long_trading.py:431-471 | the runs expand back to the latest twenty states, alternate in sign, cover all of them, and are empty exactly for an empty chart |
| LongTrading.RunLengths | utils/long_trading.py:455-471 | the signed run lengths expand back to the states, alternate in sign and cover every state |
| LongTrading.ClosedRuns | utils/long_trading.py:455-467 | the closed runs followed by the open run expand back to the states, alternate in sign, and the open run's state differs from the last closed run's |
| LongTrading.LastRunIsTrailing | utils/long_trading.py:469-470 | the last run is the length of the trailing stretch of equal states |
| LongTrading.RunsAreUnique | utils/long_trading.py:438-442 | two alternating run lists with the same expansion are equal, so the runs are determined by the states |
| LongTrading.Step | utils/long_trading.py:304-345 | a step keeps every pivot found so far and adds at most one, only when a rise reverses by more than 3% below its high or a fall by more than 3% above its low, flipping the trend |
| LongTrading.StepKeepsInvariant | utils/long_trading.py:304-345 | each step keeps the scan's pivots alternating between peaks and troughs |
| LongTrading.ScanUpTo | utils/long_trading.py:284-345 | the scan over any prefix keeps its invariant |
| LongTrading.Finish | utils/long_trading.py:347-358 | finishing keeps the pivots found and adds at most the last extreme |
| LongTrading.FinishKeepsZigZag | utils/long_trading.py:347-358 | the finished pattern alternates between peaks and troughs |
| LongTrading.Points | utils/long_trading.py:285-302 | each bar contributes its date and its close truncated to an integer |
| LongTrading.PricePattern | utils/long_trading.py:274-372 | fewer than three bars give no pattern; otherwise it starts at the earliest bar's truncated close and alternates between peaks and troughs |
| LongTrading.EarliestFirst | utils/long_trading.py:282-286 | after sorting by date the first bar is a bar of the chart with the earliest date |
| LongTrading.Closes | utils/long_trading.py:236-250 | the closes column, bar by bar |
| LongTrading.DecisionFor | utils/long_trading.py:233-257 | with too few earlier closes the decision is the average itself, floored at 0; otherwise it is the integer close that, with the previous closes, keeps the average's total, floored at 0 |
| LongTrading.DecisionPrice | utils/long_trading.py:188-264 | fewer than two bars give zeros; otherwise each of the 5, 10 and 20 day decisions is that average's decision from the latest closes, never negative |
| LongTrading.DecisionKeepsFiveDayAverage | utils/long_trading.py:233-240 | a positive five-day decision together with the last four closes averages to within 0.2 of today's five-day average |
| LongTrading.PriceExpectation | utils/long_trading.py:266-271 | an empty chart has no expectation; fewer than twenty bars expect the latest close three times; otherwise the closes 5, 10 and 20 bars back |
| LongTrading.ExpectationsAreRecentCloses | utils/long_trading.py:266-271 | every expectation is one of the latest twenty closes |
| LongTrading.Highs | utils/long_trading.py:392-398 | the highs column, bar by bar |
| LongTrading.Lows | utils/long_trading.py:392-394 | the lows column, bar by bar |
| LongTrading.PriceRankings | utils/long_trading.py:374-401 | the highs of the first `periods` bars from highest and their lows from lowest, each a permutation of that column |
| LongTrading.CountIsVolatileDays | utils/long_trading.py:485 | the count is the number of days whose absolute column value reaches the threshold |
| LongTrading.HighVolatilityDays | utils/long_trading.py:473-485 | the result is the number of days whose absolute column value reaches the threshold, at most the number of days |
| LongTrading.CountBounded | utils/long_trading.py:485 | the count never exceeds the number of days |
| LongTrading.HighRangeDays | utils/long_trading.py:487-498 | the result is the number of days whose absolute high-low range reaches the threshold |
| LongTrading.HigherThresholdFewerDays | utils/long_trading.py:485 | raising the threshold never counts more days |
| OrderConditions.NewBook | services/order_condition_manager.py:84 | a new stock has empty up and down lists |
| OrderConditions.FirstWith | services/order_condition_manager.py:132-134 | the search finds the first condition holding the key, or reports that none holds it |
| OrderConditions.Initialize | services/order_condition_manager.py:25-55 | after initialising, the book is the one loaded from the file, or empty when there is none |
| OrderConditions.Shutdown | services/order_condition_manager.py:382-396 | shutting down keeps the book and marks the manager uninitialised |
| OrderConditions.AddStock | services/order_condition_manager.py:75-88 | before initialising it raises; a known code is refused and changes nothing; a new code gets an empty book and the save's outcome |
| OrderConditions.EnsureStock | services/order_condition_manager.py:124-126 | a missing code gets an empty book; a known code is left alone |
| OrderConditions.DeleteStock | services/order_condition_manager.py:317-330 | before initialising it raises; an unknown code is refused; a known code is removed with the save's outcome |
| OrderConditions.StockConditions | services/order_condition_manager.py:332-336 | before initialising it raises; otherwise the code's book when it has one, changing nothing |
| OrderConditions.NewCondition | services/order_condition_manager.py:139-152 | a new condition holds its key and a timestamp, keeps every extra field, and maps its key to the price unless an extra field overrides it |
| OrderConditions.AddCondition | services/order_condition_manager.py:90-156 | before initialising it raises; a bad direction, number or price is refused; otherwise the code gets a book, and the first condition with the key is replaced, or the new one appended, with the save's outcome |
| OrderConditions.AddConditionLength | services/order_condition_manager.py:132-156 | a list keeps its length exactly when a condition with the key was already present, and grows otherwise |
| OrderConditions.GetCondition | services/order_condition_manager.py:223-248 | before initialising it raises; an unknown code gives nothing; otherwise the first condition holding the key, or nothing when none does |
| OrderConditions.AddThenGet | services/order_condition_manager.py:90-156 | after adding a condition, reading its number back gives that condition |
| OrderConditions.UpdateCondition | services/order_condition_manager.py:199-221 | before initialising it raises; without the code, direction or key nothing changes; otherwise only the first condition with the key gets the new value and an update time |
| OrderConditions.DirectionKeys | services/order_condition_manager.py:176-183 | the keys of a condition that start with the direction |
| OrderConditions.AddConditionDict | services/order_condition_manager.py:158-197 | before initialising it raises; the code gets a book; a bad direction, a condition with no key of that direction or a key outside 1 to 7 is refused; otherwise the condition is appended with a timestamp |
| OrderConditions.NumberOfConditionKey | services/order_condition_manager.py:290-300 | the number read back from a condition key is the number it was made from |
| OrderConditions.FreeFrom | services/order_condition_manager.py:268-315 | the free numbers from `n` to 7 in ascending order, exactly those no condition uses |
| OrderConditions.AvailableNums | services/order_condition_manager.py:268-315 | before initialising it raises; an unknown code has all of 1 to 7 free; otherwise the ascending numbers from 1 to 7 that no condition of the direction uses |
| OrderConditions.AddedNumberIsTaken | services/order_condition_manager.py:90-156 | after adding a condition its number is no longer free |
| OrderConditions.DeleteConditionByNumAsWritten | services/order_condition_manager.py:250-266 | as written, an initialised manager raises AttributeError for a method the class does not define, and changes nothing |
| OrderConditions.DeleteCondition | services/order_condition_manager.py:250-266 | the intended deletion removes the first condition holding the key with the save's outcome, and changes nothing when there is none |
| OrderConditions.DeleteConditionByNum | services/order_condition_manager.py:250-266 | before initialising it raises; otherwise the intended deletion by key always reports an outcome |
| OrderConditions.AddThenDeleteRestores | services/order_condition_manager.py:90-266 | adding a new condition and deleting it by number restores the book |
| OrderConditions.UninitializedRefusesEverything | services/order_condition_manager.py:104-105 | before initialising, every public operation raises and changes nothing |
| ServerSchedule.ParseTime | utils/scheduler_manager.py:47-52 | a time read from `H:M` text is a whole minute of the day, and the text has exactly two parts |
| ServerSchedule.ReadClock | utils/scheduler_manager.py:47-52 | a clock is read exactly when both numbers are accepted and in range, as that many seconds since midnight |
| ServerSchedule.ParseTimeReadsClock | utils/scheduler_manager.py:47-52 | printed hours and minutes read back as that time of day when in range, and are rejected otherwise |
| ServerSchedule.WithinSchedule | utils/scheduler_manager.py:61-66 | for a window that does not cross midnight, now is inside exactly between start and end inclusive |
| ServerSchedule.WrappedWindowIsTheGapsComplement | utils/scheduler_manager.py:61-66 | a window crossing midnight covers every time outside the gap from end to start |
| ServerSchedule.TimeUntilStart | utils/scheduler_manager.py:68-74 | the wait is positive, at most a day, and ends at the start time |
| ServerSchedule.TimeUntilStartIsTheFirstStart | utils/scheduler_manager.py:68-74 | no shorter positive wait reaches the start time |
| ServerSchedule.WeekdayWithinSchedule | utils/scheduler_manager.py:159-163 | on Saturday and Sunday it is never within the schedule; on weekdays the daily window decides |
| ServerSchedule.WeekdayTimeUntilStart | utils/scheduler_manager.py:165-174 | on a weekday the wait is the daily wait; on a weekend it is positive, under three days, and ends at the start time |
| ServerSchedule.FormatWait | utils/scheduler_manager.py:84-93 | an hour or more is shown as hours and minutes, a minute or more as minutes, and less as seconds, each rounded down |
| TradingCalendar.Weekday | trading_scheduler.py:74 | the weekday lies in 0 to 6 |
| TradingCalendar.TemporaryClosure | trading_scheduler.py:92-101 | no date is a temporary closure |
| TradingCalendar.IsTradingDay | trading_scheduler.py:69-90 | a date is a trading day exactly when it is a weekday and not a 2025 holiday |
| TradingCalendar.NextDayIsOneLater | trading_scheduler.py:74 | the next calendar day is one day later and one weekday later |
| TradingCalendar.OtherYearsOnlyWeekendsClose | trading_scheduler.py:28-44 | outside 2025 only weekends are closed |
| TradingCalendar.StartProgram | trading_scheduler.py:112-148 | the program is launched exactly on a trading day when it exists, is not running and the launch works; the start succeeds exactly on a trading day when it exists and is running or launches |
| TradingCalendar.StopProgram | trading_scheduler.py:150-164 | the program is killed exactly when running and the kill works; stopping succeeds exactly when it was not running or the kill worked |
| TradingCalendar.StartAndStopAreIdempotent | trading_scheduler.py:112-164 | starting a running program launches nothing, and stopping a stopped one succeeds doing nothing |
| BaselineApi.CheckBand | api/baseline.py:665-683 | the band check fails only with status 400; a decision price outside the band fails, a zero midpoint fails, and otherwise it passes exactly when the decision lies within the allowed share of the midpoint |
| BaselineApi.RelativeBound | api/baseline.py:676-678 | over a positive midpoint, the relative deviation is within the bound exactly when the deviation is within the bound times the midpoint |
| BaselineApi.CreateWithValidation | api/baseline.py:654-697 | every failure is status 400; a created row is the one the table's create gives; without band validation it succeeds exactly for a code the table lacks; with validation it succeeds exactly when the band check passes and the code is new, and a success has the decision inside the band |
| BaselineApi.CentredDecisionPasses | api/baseline.py:665-683 | a decision at the centre of a positive band for a new code is always created |
| BaselineApi.Search | api/baseline.py:701-742 | the search returns exactly the rows that pass every given bound |
| BaselineApi.SameFilterSameSearch | api/baseline.py:718-731 | two queries that pass the same rows return the same result |
| BaselineApi.ZeroBoundIsIgnored | api/baseline.py:720-731 | a bound of 0 is falsy and is ignored like a missing bound |
| BaselineApi.RowsOf | api/baseline.py:497-500 | a code's rows, as many as the table counts for it |
| BaselineApi.Prices | api/baseline.py:504 | the decision prices, row by row |
| BaselineApi.Quantities | api/baseline.py:502 | the quantities, row by row |
| BaselineApi.Values | api/baseline.py:503 | the row values, row by row |
| BaselineApi.Ranged | api/baseline.py:507 | exactly the rows that have both a low and a high price |
| BaselineApi.GetStats | api/baseline.py:492-546 | an unknown code fails with 404; otherwise the step count, total quantity and value are those of the code's rows; the average is their mean price and lies between the extremes, which bound every decision price and are attained; the band count is the number of rows carrying both ends, and the band averages are the means over those rows |
| BaselineApi.MeanPrice | api/baseline.py:504 | the mean decision price times the number of rows is the summed decision price |
| BaselineApi.BandAverages | api/baseline.py:507-513 | the mean lower and upper band ends are present exactly when some row carries a band, and then each times the number of such rows is the summed end |
| BaselineApi.PricesOfRows | api/baseline.py:504 | a price is listed exactly when some row has it |
| BaselineApi.DistinctCodes | api/baseline.py:555 | each code of the table once |
| BaselineApi.DeleteCodes | api/baseline.py:556-561 | deletion leaves none of the codes, keeps only existing rows, and counts what it removed |
| BaselineApi.DeleteAll | api/baseline.py:547-579 | without confirmation it fails with 400; with it the table is emptied, counting every row and every distinct code |
| BaselineApi.RiskOf | api/baseline.py:619-626 | an average spread under 5000 is low risk, 15000 or more high risk, and between medium |
| BaselineApi.RiskMonotone | api/baseline.py:619-626 | a wider average spread never means lower risk |
| BaselineApi.Spreads | api/baseline.py:606 | each banded row's high minus low |
| BaselineApi.PriceRangeAnalysis | api/baseline.py:580-653 | an unknown code fails with 404 and a zero-midpoint band fails; a code without banded rows has no data; otherwise the risk is that of the banded rows' average spread |
| BaselineApi.GroupCodes | api/baseline.py:309-313 | the codes of all groups, each once |
| BaselineApi.AddCodes | api/baseline.py:309-313 | the union of the codes, each once |
| BaselineApi.SyncCodes | api/baseline.py:322-347 | every code is created, skipped or an error; the table grows by the created rows and keeps its old ones; every code that does not fail ends up in the table |
| BaselineApi.SyncFromGroups | api/baseline.py:299-366 | every group code is created, skipped or an error, the success rate is the created share, and every code that does not fail ends up in the table |
| BaselineApi.KnownCodesCreateNothing | api/baseline.py:324-328 | codes already in the table are all skipped and change nothing |
| BaselineApi.SecondSyncCreatesNothing | api/baseline.py:299-366 | a second sync without failures skips every code and changes nothing |
| BaselineApi.NoFailuresNoErrors | api/baseline.py:322-347 | without failures no code is counted as an error |
| BaselineApi.DeleteAllLeavesNothing | api/baseline.py:547-579 | after a confirmed delete-all, any code's statistics fail with 404 |
| StepManagerApi.Band | backup_code/step_manager.py:570-575 | a volatility rate under 5 is low risk, 15 or more high, and between medium |
| StepManagerApi.PriceRisk | backup_code/step_manager.py:566-578 | one price or none is unknown risk; otherwise, over a positive total, low exactly when the spread is under 5% of the mean price and high exactly when it is 15% or more |
| StepManagerApi.VolatilityRate | backup_code/step_manager.py:567-568 | the rate is the spread as a percentage of the mean price: under 5 or 15 exactly when the spread is under that share of the mean |
| StepManagerApi.RateBands | backup_code/step_manager.py:567-575 | the rate bands compare the spread times a hundred times the count with 5 and 15 times the total |
| StepManagerApi.ReturnRate | backup_code/step_manager.py:553-558 | no prices or a zero total gives 0; otherwise the current price's gain over the mean trade price, as a percentage |
| StepManagerApi.AnalysePerformance | backup_code/step_manager.py:525-590 | the completion rate is the traded share of the total quantity, 0 without a total; the risk is unknown exactly with at most one price, and is the price risk; the return rate is the mean-price return |
| StepManagerApi.Recommend | backup_code/step_manager.py:836-876 | a manager that has not started should start buying with high priority; under half done it should add with high priority when the price is 5% below the mean and otherwise continue with medium; from half to 80% it is monitored at low priority; fully done it should consider selling at medium priority when 10% above the mean and otherwise hold at low; from 80% it holds at low priority |
| StepManagerApi.CompletionBands | backup_code/step_manager.py:848-867 | the completion percentage is 0 exactly before starting, and is under 50, 80 or 100 exactly when the traded quantity is under that share of the total |
| StepManagerApi.WithPriority | backup_code/step_manager.py:880-881 | the recommendations of one priority, in their order |
| StepManagerApi.SortByPriority | backup_code/step_manager.py:880-881 | sorting puts higher priorities first, is a permutation, and keeps the order within each priority |
| StepManagerApi.PartsMakeWhole | backup_code/step_manager.py:880-881 | the three priority parts together hold every recommendation |
| StepManagerApi.Rebalance | backup_code/step_manager.py:820-910 | one recommendation per manager, highest priority first, the same recommendations as made one by one, and those of each priority in the order of their managers (the sort is stable) |
| StepManagerApi.RecommendAll | backup_code/step_manager.py:836-878 | each manager's recommendation, in order |
| StepManagerApi.FullAtAverageHolds | backup_code/step_manager.py:867-875 | a fully traded manager priced at its mean trade price holds |
| StepManagerApi.CountKnown | backup_code/step_manager.py:602-619 | the bulk successes never outnumber the items |
| StepManagerApi.BulkAdd | backup_code/step_manager.py:591-649 | every item is a success or an error; successes are the items naming a known code with a price; the set of codes is unchanged, and a code no item names keeps its manager |
| StepManagerApi.BulkSuccessRate | backup_code/step_manager.py:628-629 | the success rate is the successful share of the items as a percentage |
| StepManagerApi.CompareStocks | backup_code/step_manager.py:911-1001 | fewer than two codes fails with 400; otherwise every code is found or missing according to the store |
| StepManagerApi.Partition | backup_code/step_manager.py:924-932 | every code lands in exactly one of found and missing, by whether the store has it |
| StepManagerApi.StepCount | backup_code/step_manager.py:782-795 | a step's count is positive exactly when some manager is on that step |
| StepManagerApi.DistinctSteps | backup_code/step_manager.py:782-795 | each step some manager is on, once |
| StepManagerApi.StepDistribution | backup_code/step_manager.py:774-819 | the distribution holds exactly the steps in use, each with its positive count |
| StepManagerApi.CountsCoverManagers | backup_code/step_manager.py:782-795 | the step counts add up to the number of managers |
| StepManagerApi.StepProgression | backup_code/step_manager.py:806-811 | the counts of steps 0, 1, 2 and 3 and more, with the negative steps, cover every manager |
| StepManagerApi.ProgressionCovers | backup_code/step_manager.py:806-811 | the progression counts and the negative steps add up to the number of managers |
| StepManagerApi.MostCommonStep | backup_code/step_manager.py:805 | without managers there is none; otherwise a step in use with the highest count, the first such in order of appearance |
| StepManagerApi.FirstMax | backup_code/step_manager.py:805 | the first position holding the highest count |
| StepManagerApi.CountLevel | backup_code/step_manager.py:1026-1044 | the managers of one risk level never outnumber the managers |
| StepManagerApi.LevelsCoverManagers | backup_code/step_manager.py:1026-1044 | the four risk levels' counts add up to the number of managers |
| StepManagerApi.OverallOf | backup_code/step_manager.py:1062-1072 | without managers the overall risk is low; otherwise high exactly when more than 30% are high risk and low exactly when at most 15% are |
| StepManagerApi.ShareBands | backup_code/step_manager.py:1062-1072 | the high-risk share is over 30% or 15% exactly when the count is over that fraction of the total |
| StepManagerApi.OverallMonotone | backup_code/step_manager.py:1062-1072 | more high-risk managers never lower the overall risk |
| StepManagerApi.OverallRisk | backup_code/step_manager.py:1002-1084 | the overall risk is unknown exactly without managers, and high exactly when more than 30% of them are high risk |
| StepManagerApi.HoldValues | backup_code/step_manager.py:1022 | each manager's holding value, in order |
| StepManagerApi.ConcentratedMeans | backup_code/step_manager.py:1047-1048 | a manager is concentrated exactly when the total is positive and its holding is over 20% of it |
| StepManagerApi.ConcentratedManagers | backup_code/step_manager.py:1047-1051 | the flagged managers are exactly the concentrated ones |
| StepManagerApi.AtMostFourConcentrated | backup_code/step_manager.py:1022-1051 | with non-negative holdings at most four managers are flagged as concentrated |
| StepManagerApi.FlaggedShareBounded | backup_code/step_manager.py:1022-1051 | the flagged managers hold no more than the whole portfolio |
| NumericTransform.FormatCode | utils/transformers.py:11-13 | a numeric stock code becomes text zero-filled to at least six characters, which reads back as the integer it was; booleans count as numbers; any other value is kept |
| NumericTransform.ZFilledIntegerReadsBack | utils/transformers.py:12 | an integer printed and zero-filled to six characters reads back as that integer |
| NumericTransform.ToNumber | utils/transformers.py:44-47 | a whole value becomes an integer of that value, any other value a float of it |
| NumericTransform.TransformText | utils/transformers.py:29-50 | text not matching the signed-decimal pattern is kept; matching text becomes the number it denotes |
| NumericTransform.Transform | utils/transformers.py:5-52 | objects keep their keys in order, keep the time and date fields, pass the stock code through the code formatting and transform every other field; lists keep their length and transform each item; non-text scalars are kept; text becomes what the text conversion gives, so it is kept or becomes a number |
| NumericTransform.TextSettles | utils/transformers.py:29-50 | text kept as text no longer matches the numeric pattern |
| NumericTransform.TransformIdempotent | utils/transformers.py:5-52 | transforming twice gives the same value as transforming once |
| NumericTransform.WholeTextIsInteger | utils/transformers.py:31-46 | optionally signed digits become the integer they denote |
| NumericTransform.IntegerTextReadsBack | utils/transformers.py:31-46 | a printed integer becomes that integer |
| NumericTransform.PlusSignReadsPositive | utils/transformers.py:35-40 | a plus sign is dropped and the digits read as a positive integer |
| NumericTransform.FractionText | utils/transformers.py:31-47 | digits with a fraction become a float of their value, or an integer when the fraction is zero |
| NumericTransform.FinalNewlineIgnored | utils/transformers.py:31 | a single trailing newline, which the pattern's end anchor allows, does not change the result |
| MarketUtils.Levels | utils/utils.py:25-40 | the ten levels of one side, read from their price and volume fields |
| MarketUtils.Keep | utils/utils.py:36-40 | the kept levels pair each price with its volume; all readable levels are kept, and none when none is readable |
| MarketUtils.KeptLevelsAreLevels | utils/utils.py:36-40 | every kept price and volume is one of the levels read |
| MarketUtils.ReadSide | utils/utils.py:22-61 | a side holds at most ten levels, a volume for each price |
| MarketUtils.EmptyQuoteHasNoLevels | utils/utils.py:29-38 | missing fields read as price 0, so an empty quote has no levels |
| MarketUtils.FirstAbove | utils/utils.py:71-74 | the first level whose volume exceeds the mean, or none when no volume does |
| MarketUtils.Line | utils/utils.py:63-95 | the line is 0 exactly for an empty side; otherwise it is the price of the first level above the mean volume, or the last price when none is above |
| MarketUtils.NoneAboveIffAllEqual | utils/utils.py:71-78 | no volume exceeds the mean exactly when all volumes are equal |
| MarketUtils.ResistanceSupport | utils/utils.py:8-103 | resistance is the sell side's line and support the buy side's line, neither negative |
| MarketUtils.EvenBookTakesLastLevel | utils/utils.py:76-78 | a side with equal volumes takes its last price |
| MarketUtils.BuySellRatio | utils/utils.py:105-119 | without sell remainder the ratio is 100; otherwise it is the buy total as a percentage of the sell total, at least 100 exactly when buying is at least selling |
| MarketUtils.ConvertToTimestamp | utils/utils.py:121-164 | a result on today's date has a valid clock; text that is neither six digits nor holds a colon is the current moment; six digits give that clock when valid and the current moment otherwise |
| MarketUtils.ConvertAgreesWithKstReader | utils/utils.py:121-164 | the converter gives what the KST reader gives, with the current moment in place of every error |
| KstTime.MakeClock | utils/kst_util.py:26-36 | a clock is made exactly when the three numbers were read and lie in range, and every failure is a ValueError |
| KstTime.PairValue | utils/kst_util.py:25-28 | `int()` of each two-character slice of six digits is the two-digit value of those characters |
| KstTime.TimeStringToKst | utils/kst_util.py:22-36 | six digits read as that clock when valid; colon text has at least two parts, is a ValueError when its first or second part is not an integer, and is an IndexError exactly when both are integers and there is no third part; text that is neither is the current moment; every clock read is valid |
| KstTime.TwoParts | utils/kst_util.py:29-31 | text of two colon-free parts joined by a colon is an IndexError when both parts are integers and a ValueError otherwise |
| KstTime.HoursAndMinutesAlone | utils/kst_util.py:29-31 | two-digit hours and minutes with no seconds, such as `12:30`, are an IndexError |
| KstTime.LoneColon | utils/kst_util.py:29-31 | a lone colon is a ValueError, because `int('')` fails before the missing third part is reached |
| KstTime.ColonFormReadsBack | utils/kst_util.py:29-31 | a clock printed as `h:m:s` reads back as itself when valid and is a ValueError otherwise |
| KstTime.CompactFormReadsBack | utils/kst_util.py:25-28 | a valid clock printed as six zero-padded digits reads back as itself |
| KstTime.KstToNaive | utils/kst_util.py:12-16 | the zone is dropped and the wall clock kept; a naive value is returned as it is |
| FirstAccess.FindFirst | utils/isfirst.py:23-24 | the first row for a date, or none when no row has it |
| FirstAccess.CheckAndUpdateFirst | utils/isfirst.py:11-42 | the answer is 1 exactly when today has no row or its row is still marked first, and 0 otherwise without changing the table; a row is added only when today had none; other dates' rows keep their place; afterwards today's row is marked seen |
| FirstAccess.SecondCallAnswersZero | utils/isfirst.py:11-42 | a second call on the same date answers 0 and changes nothing |
| FirstAccess.OtherDatesUnaffected | utils/isfirst.py:11-42 | a call on one date does not change the answer for another date |


## Left out

- Broker, database, Redis, WebSocket and HTTP plumbing: the network calls, the asyncio tasks and loops, the routers that only forward, and the schema declarations. Stores are maps or sequences, and a failed store call is a `failing` input.
- The wall clock: "now" is a parameter everywhere (seconds since midnight, a timestamp in whole seconds, or a day number). `get_kst_now` and `timestamp_to_kst` are left out because they only read the clock.
- Floating point: floats are exact reals. Rounding of displayed values to two decimals is not modelled in the price tracker's `get_price_info`, the baseline statistics endpoint, the step-manager reports or the confidence summaries.
- Decimal.ParseFloat: reads signed decimal text only. Exponents, `inf` and `nan` are not modelled.
- PyStr.IsDigit: only ASCII digits count, so Unicode digits in `isdigit`, in `int()` and in the transformer's `\d` are not modelled, and neither are underscores inside `int()` text.
- NumericTransform.Transform: how Python prints a float is an input to the model, not computed.
- Sorting.SortBy: orders by key, but stability between equal keys is not stated.
- MarketUtils.ConvertToTimestamp: the date part comes from the local clock and is an input.
- MarketUtils.ResistanceSupport: the catch-all `except` that answers (0.0, 0.0) cannot fire on the modelled inputs, so it is not modelled.
- MarketUtils.BuySellRatio: the stray `self` parameter of `calculate_buy_sell_ratio` is dropped.
- FirstAccess.CheckAndUpdateFirst: the date is a day number, and the database session and its commit are left out.
- PriceTracker: timestamps are whole seconds, and `last_updated` is the `now` input.
- SmartTrading.ZoneAt: follows the constants (force-sell from 14:40). A nearby comment says 15:00.
- BackupStrategy.TrendOf: the RECOVERING and CORRECTING trends are unreachable as written, and the model keeps them unreachable.
- BackupStrategy.Decide: reads the confidence band as zero, because `calculate_price_position` never emits the keys the band rules read. Those rules therefore never fire.
- The backup service's `_can_trade` interval and `_record_trade` bookkeeping are left out (clock and logging only). The same holds for the `analysis_data.het` and `trade_count_today` paths, which cannot run.
- The `Trading_Handler` quantity fields and its constructor are left out: the constructor assigns a read-only property and never sets `self.processor`.
- TradingStrategy: the clock of `is_trading_time` and all logging are left out.
- PriceConfidence.AnalyzeConfidence: `analyze_open_price_confidence` always reports `is_first_record` as true. The partial `SmartTradingStrategy` and `TradingIntegration` classes are left out.
- StockAnalysis: `get_multiple_stock_analysis` and `get_data_status` are left out. JSON decoding of a stored tick is the `tick: Option` field. The Redis sorted set of `get_recent_0b_data` is an input sequence in score order.
- StockAnalysis: both windows of an analysis, and the receive times they are compared with, are read at one `now`. The source calls `time.time()` afresh for each window, so a tick that arrives between the two calls is not modelled.
- LongTrading: `average_slope`, `calculate_open_close_stats`, the volatility (square root) metrics and the `analyze_*_details` reports are left out. So is chart loading (`daily_chart_to_df`, `process_daychart_df`, `process_minchart_df`), because it is pandas rolling arithmetic.
- LongTrading.PricePattern: the final re-sort of the pivots by date is left out. Pivots carry the date string of their bar.
- PatternPrediction: the dictionary-input path of the prediction is left out. Only the row-list path is modelled.
- PatternPrediction.Row: a row always carries a code. A source row without `stk_cd` is grouped under `''`, and `predict_tomorrow_open` then reads that raw dictionary's `open` and `close` keys instead of extracting it (utils/patten_expectation.py:55-61). A raw row without those keys fails there, and the group is skipped. The row type cannot express such a row.
- ServerSchedule: `_time_until_end` is left out. The weekday variant waits from Friday evening until Saturday's start time, as written. The all-day scheduler treats 23:59:01 to 23:59:59 as outside the window, as written.
- TradingCalendar: process spawning and `pgrep` are left out. Start and stop only change a running flag.
- BaselineApi.SyncFromGroups: the order in which a set is walked and the database exceptions are the `failing` input.
- BaselineApi.GetStats: the averages are exact reals. The `round(…, 2)` applied to the reported averages and the per-step `steps` list are not modelled.
- StepManagerApi: these parts are left out:
  - the statistics of `compare_stocks` beyond its 400 guard;
  - the portfolio summary;
  - the market-exposure and step-concentration texts;
  - `search_by_price_range` and `get_trade_details`;
  - the database exceptions of the bulk add, which is why success plus errors always equals the number requested.
- BaselineCacheModel: the thin wrappers (`set_open_price`, `set_isfirst`, `get_price_analysis`, `get_multiple_decision_prices`, `get_all_steps_for_stock`, `add_to_cache`) are left out. So is `mark_as_accessed`, which calls `get_price_info` with keyword arguments it does not accept.
- StepManagerStore: the read-only queries (`get_by_*`, `count_by_*`, `get_summary_statistics`, `get_recent_trades`, `get_trade_history_summary`) are left out, except the fully-traded query. The read-only queries of the realtime groups (`get_by_group`, `get_all_groups`) are left out too.
- PriceListJson.Decode: only lists of integers are read. Text that `json.loads` accepts as some other value, such as a float, a string, a nested list or an object, is a decode error here. Whitespace is Python's `strip` set rather than JSON's four characters.
- OrderConditions: `print_summary`, `main`, `get_all_conditions` and `get_order_dic` are left out. Reading and writing the JSON file is the `saved` input.

## Findings

| source | as written | input that shows it | evidently intended | confidence | as-written member | corrected member |
|---|---|---|---|---|---|---|
| services/baseline_cache_service.py:201-210 | `update_baseline_cache` stores `open_price` under `decision_price`, `quantity`, `low_price` and `high_price` | an update that gives only `decision_price` leaves the decision price absent (`None`) | each given field stores its own argument | not executed | BaselineCacheModel.UpdateBaselineCache | BaselineCacheModel.UpdateBaselineCacheIntended |
| module/step_manager_module.py:345-350 | `get_fully_traded_positions` selects `hold_qty >= total_qty` | a record with total 10, held 10 and traded 0 is listed, although its own `is_fully_traded` is false | the records whose `trade_qty >= total_qty` (models/models.py:199-201) | not executed | StepManagerStore.FullyTradedPositionsAsWritten | StepManagerStore.FullyTradedPositions |
| module/processor_module.py:654 | the price tick calls `self.PT.update_price`, which the price tracker does not define | any tick with a positive price raises before the first-run quantity is stored, and the caught error leaves the tracker unchanged | the first tick sets the buy quantity and later ticks update the extremes | not executed | Processor.OnPriceTickAsWritten | Processor.OnPriceTick |
| backup_code/processor_module.py:779-780 | `self.baseline_module.delete_by_code(code)` is called without `await` | a stored baseline for a code that is no longer held survives the clean-up | the baselines of codes no longer held are deleted | not executed | BackupProcessor.ClearUnheldAsWritten | BackupProcessor.ClearUnheld |
| services/trading_strategy.py:595-604 | `validate_market_data` compares the text `stock_code` with `0` | every tick with a code raises TypeError, including one with four positive prices | only the price fields are checked for being positive | not executed | TradingStrategy.ValidateMarketDataAsWritten | TradingStrategy.ValidateMarketData |
| redis_util/price_confidence_service.py:89 | `json.dumps(..., default=str)` stores the plain `Enum` level as `str()` of the member, such as `ConfidenceLevel.VERY_HIGH`, which `ConfidenceLevel(...)` at line 242 rejects | a second `record_open_price` for a code answers None instead of the stored record, and every summary is None, so the statistics count nothing | the level's value is stored and read back | not executed | PriceConfidence.RecordOpenPriceAsWritten | PriceConfidence.RecordOpenPrice |
| redis_util/price_confidence_service.py:398 | the statistics key is `level.replace(' ', '_').upper()` of the Korean level text | once records read back (the row above corrected), one record with level "매우 높음" raises KeyError, which the call turns into its error result | each record counts once under its level's key | not executed | PriceConfidence.CountLevelsAsWritten | PriceConfidence.CountLevels |
| services/trading_strategy.py:283 | every sell and buy logic reads the tracker through `get_price_info`, whose dictionary has no `qty_to_sell`, `qty_to_buy` or `price_to_buy` (redis_util/price_tracker_service.py:262-272), so each reads as 0 | a held stock past its stop-loss, whose tracker holds shares to sell, is never sold; no active or conservative buy is ever placed | the quantities are read from the full tracker record of `get_tracking_data`, as the smart trading service does (no buy price is stored there either, so the conservative buy still never fires) | not executed | TradingStrategy.HandleTickOnPriceInfo | TradingStrategy.HandleTickOnTracking |
| services/order_condition_manager.py:250-266 | `delete_condition_by_num` calls `self.delete_condition`, which the class does not define | any call on an initialised manager raises AttributeError | the condition with that direction and number is removed | not executed | OrderConditions.DeleteConditionByNumAsWritten | OrderConditions.DeleteConditionByNum |
