# Verified model of the market-data client

The repository is a Go client for a market-data protocol, with local storage and a small research service on
top. This project models its stateful and arithmetic cores in Dafny and proves what they promise, over all
inputs and over all runs:

* **Minute history** (`Calendar`, `MinuteStore`, `MinuteFallback`, `RebuiltDays`, `MinuteRuns`, `MinuteHistory`,
  `MinuteTakeUp`). One table of minute bars and one coverage mark per year; runs plan the years to work on, fetch
  the exchange's bars, rebuild older missing days from trades, replace the tail of a table and set its mark in one
  transaction. Failures of every kind are inputs of a run. Main results: over any sequence of rebuilding runs
  nothing stored is lost, no bar of the exchange turns into a synthesized one, and whatever a mark claims was
  processed and is complete in the table; a covered past year is never touched again; a scan leaves exactly the rows
  before its fresh bars and those; and what each rebuilt row says follows from the trades delivered for its minute.
* **Price adjustment** (`AffineAdjust`, `AdjustedBars`, `HistoryPaging`, `AdjustOrder`, `ExRights`, `HistoryAnswers`,
  `ResearchStore`). One backward sweep composes ex-days into affine maps; it is proved to be the chronological
  composition of exactly the later ex-days, its re-anchored form to be the inverse of the earlier ones and to ignore
  the future; on stored actions it is what their own terms, cash, rights and bonus shares, amount to. Cursor paging
  over raw or adjusted history returns the one-shot answer, each bar once, and every answer of the store is sound as
  long as no action takes away more than all shares.
* **Trading sessions** (`Sessions`). Overlap checking modulo a day, the search for a bar's session, and a streaming
  group-by equal to the true one, whose groups are the n-minute stretches of a session.
* **Engine cache** (`EngineCache`). A reference-counted LRU cache under one mutex, with safety over every interleaving
  of borrowing, releasing and closing, and eviction in the order of the last borrowings.
* **Job ledger and retries** (`JobLedger`, `RetrySchedule`). Progress records, the circuit breaker, crash recovery,
  and the scheduler's attempts per date as a state machine over whole histories of the service.
* **Bars** (`TradeBars`, `Klines`). Trades to 241 bars a day, and the merge of bars into longer ones.
* **Files, connections, cipher** (`MinuteFile`, `TcpClient`, `GbbqCipher`). A writer/reader pair of a binary format,
  request/response correlation on one connection, and a Feistel network.

`Results`, `Sorting`, `Grouping` and `LittleEndian` hold what the others share. Code that changes state step by step
is a class or a method with loops, proved equal to a function on values; the theorems are lemmas about that
function. Concurrency is a state machine whose steps are the critical sections and channel operations.

Assumptions, throughout: wall-clock time at one fixed offset, in whole seconds; prices and factors that are floating
point in the program are exact reals; integers are unbounded except where a width matters to a format (words, file
fields, the cipher); the bars of one history have distinct times; the minute puller's start date is not
before 1970. The meaning of the adjustment coefficients is proved for at most one ex-day record a day, since the
program's sort is unstable and records of one day do not commute; what holds without that is stated beside it.

Some things the code promises or lets one expect turned out not to hold for every input. `XRXD.mc` is said to be
equivalent to `XRXD.Pre`; `AffineAdjust.PreIsCutExPrice` gives the exact condition and
`AffineAdjust.AnEventWherePreAndMcDiffer` an input. `Adjust` takes bars in any order but pairs them by position;
`AdjustOrder.AdjustIsRightExactlyInOrder` says on which orders that is right. A cancelled import leaves files out of
its retry list: `JobLedger.ImportPlanIsComplete` proves that for files of distinct names the list is complete exactly
when the context does not end before any file, and what sharing a name changes; `JobLedger.ACancelledImport` is an
input. The minute files are said to read back what was written; `MinuteFile.OneMinuteRoundTrip` and
`MinuteFile.FiveMinuteRoundTrip` prove for which bars exactly they do, and `MinuteFile.ABarOf2036` and
`MinuteFile.ABarOfTooManyLots` are bars for which they do not.

`dafny verify dfyconfig.toml` checks the whole project.

## Model

| member | source | states |
|---|---|---|
| Calendar.InOneYear | extend/pull/market/minute.go:29-38 | every instant lies in exactly one calendar year, the one the puller books its row to |
| Calendar.YearLength | extend/pull/market/minute.go:30-35 | the year starts used as interval ends follow the Gregorian leap rule |
| MinuteStore.InsertedInTwo | extend/pull/store.go:112-130 | splitting an insertion into statements at any point changes neither its result nor whether the primary key refuses it |
| MinuteStore.InsertBatch | extend/pull/store.go:112-130 | inserting in batches of 990/columns rows does exactly what one insertion would, and fails exactly when a key is taken or repeated |
| MinuteStore.WriteMin | extend/pull/store.go:102-110 | the tail from the given time on is replaced as a whole, or the write is refused |
| MinuteStore.MinuteTables.QueryMinCoverage | extend/pull/coverage.go:23-41 | the year's mark, none for a missing file, or an error |
| MinuteStore.MinuteTables.LastMinUnix | extend/pull/pull.go:346-356 | the greatest time stored for the year, 0 for an empty table, or an error |
| MinuteStore.MinuteTables.QueryMin | extend/pull/pull.go:393-425 | the rows within two bounds, either of which may be missing, year by year and in time order, or an error |
| MinuteStore.QueryFindsAll | extend/pull/pull.go:393-425 | the query finds exactly the stored rows within its bounds, if tables keep to their years and nothing is stored before 1990 or after this year |
| MinuteStore.MinuteTables.SaveMin | extend/pull/pull.go:374-384 | one year's table has its tail replaced, or nothing changes; other years are untouched and empty data writes nothing |
| MinuteStore.MinuteTables.SaveMinCoverage | extend/pull/coverage.go:69-108 | rows and mark change together or not at all; the mark takes in the older one only when both are of one kind and, for rebuilding marks, touch |
| MinuteStore.MinuteTables.SaveMinComplete | extend/pull/coverage.go:51-53 | an exchange scan is saved with its open-ended mark |
| MinuteStore.MinuteTables.SaveMinFallbackComplete | extend/pull/coverage.go:57-67 | a rebuilt interval is saved with its mark; an empty interval is refused, empty data writes neither rows nor mark |
| MinuteFallback.HasMinuteDay | extend/pull/market/fallback.go:94-105 | a day counts as present exactly when all 241 grid minutes are there |
| MinuteFallback.TradesToMinutes | extend/pull/market/fallback.go:109-147 | refuses empty, unusable or volumeless trades; otherwise gives the day's bars of the trades in stable time order |
| MinuteFallback.MinutesCoverTheDay | extend/pull/market/fallback.go:136-145 | a synthesized day has exactly the 241 grid minutes that the presence test looks for, all marked as synthesized |
| MinuteFallback.MinutesConserve | extend/pull/market/fallback.go:109-147 | the shares of a synthesized day are those of all its trades |
| RebuiltDays.RowWithTrades | extend/pull/market/fallback.go:134-145 | a rebuilt row that trades fall to, by the clock, opens at the first of them and closes at the last in stable time order; its high and low are bounds some of them attain; all in yuan |
| RebuiltDays.RowWithoutTrades | protocol/model_trade.go:207-236 | a rebuilt row that no trade falls to is flat at the close of the row before, the first row at the price of the day's first trade, without volume or amount |
| RebuiltDays.RowTotals | extend/pull/market/fallback.go:140-144 | a rebuilt row has a hundred shares for each lot of the trades that fall to it, and their turnover in yuan |
| RebuiltDays.RowTime | extend/pull/market/fallback.go:138-145 | row i of a rebuilt day is stamped 9:30 plus i minutes, from row 121 on with the lunch break added, and marked as synthesized |
| RebuiltDays.RebuiltExactlyWhen | extend/pull/market/fallback.go:109-133 | a day is rebuilt exactly when every trade delivered is there, of that day, priced, not negative and within 9:25 to 11:30 or 13:00 to 15:00, and some trade has volume |
| RebuiltDays.FillSucceedsExactlyWhen | extend/pull/market/fallback.go:65-85 | filling succeeds exactly when each date has its 241 minutes already or was delivered well enough to be rebuilt |
| MinuteFallback.PickDates | extend/pull/market/fallback.go:53-63 | the dates looked at are the days with volume from the start up to before the native boundary, each once, in order |
| MinuteFallback.FillRows | extend/pull/market/fallback.go:21-86 | what filling returns, in time order, and whether it succeeded; nothing if the local rows cannot be read |
| MinuteFallback.FilledDays | extend/pull/market/fallback.go:65-85 | filling changes no row that is there, adds only synthesized rows of the dates not before the start, and on success leaves every minute of the dates present |
| MinuteRuns.PlanYear | extend/pull/market/minute.go:29-66 | whether a year needs work, and from when, given its mark and newest row |
| MinuteRuns.MakePlan | extend/pull/market/minute.go:27-73 | the targets of a run in year order and the earliest time among them, or an error if anything cannot be read |
| MinuteRuns.FillTargets | extend/pull/market/minute.go:97-113 | all targets filled from the tables as they were, and the years for which that failed |
| MinuteRuns.ByYear | extend/pull/market/minute.go:116-120 | the merged bars split by calendar year, order kept |
| MinuteRuns.SaveTargets | extend/pull/market/minute.go:121-141 | each target saved by the rule for its mode; without rebuilding the first failure ends the run, with it every target is tried |
| MinuteRuns.PullMinutes | extend/pull/market/minute.go:21-143 | the tables, the success and the marks set by one run, for every combination of failures |
| MinuteHistory.OneFile | extend/pull/market/minute.go:121-141 | a run's saves touch each year's file at most once, each as if it were saved alone |
| MinuteHistory.OwnPart | extend/pull/market/minute.go:97-127 | merging all targets and splitting them by year and start again gives each target back exactly what was filled for it |
| MinuteHistory.FallbackFile | extend/pull/market/minute.go:87-141 | a rebuilding run does to each file what it would do if that were the only year |
| MinuteHistory.RowsAreKept | extend/pull/market/minute.go:97-141 | a rebuilding run, whatever fails in it, loses no row stamped before its time, and a bar of the exchange stays one |
| MinuteHistory.KeptExactlyUpToTheEnd | extend/pull/store.go:102-110 | when a year's mark is set, a row is kept if and only if it lies before the end of the target |
| MinuteHistory.RealBarsAreNotReplaced | extend/pull/market/fallback.go:27-45 | in either mode a run never replaces a stored bar of the exchange by a synthesized one |
| MinuteHistory.RealBarsAreNeverReplaced | extend/pull/market/fallback.go:79-83 | that holds at every step of any sequence of runs, modes mixed |
| MinuteHistory.FreshBarsReplace | extend/pull/market/minute.go:115-134 | in either mode a fetched bar of a target's year is stored in place of whatever was there: in a scan that succeeds, and in a rebuilding run even if rebuilding other days fails |
| MinuteHistory.FreshBarsAlwaysReplace | extend/pull/market/fallback.go:35-37 | that holds after any sequence of runs, modes mixed |
| MinuteHistory.EarlierRowsStay | extend/pull/store.go:102-110 | in either mode and whatever fails, a run leaves every row before its year's target, and every year that is no target, as it is |
| MinuteHistory.TidyAfter | extend/pull/market/minute.go:116-127 | in either mode every table keeps to rows of its own year |
| MinuteHistory.CoverageIsProcessed | extend/pull/coverage.go:87-107 | over any sequence of runs in either mode, a rebuilding mark lies within the union of the intervals processed successfully |
| MinuteHistory.MarkedDaysAreComplete | extend/pull/market/fallback.go:55-84 | a run that sets a mark leaves all 241 minutes from the target's start on stored, for every day with volume before the target's end, today and every bar fetched, and the mark covers the target |
| MinuteHistory.NothingIsLost | extend/pull/market/minute.go:97-141 | over any sequence of rebuilding runs with a clock that does not go back: no row is lost, no bar of the exchange is downgraded, and every day a mark was ever set over stays complete |
| MinuteHistory.MarksTellTheTruth | extend/pull/coverage.go:10-17 | starting from no tables, every instant a mark claims was looked at by some successful run, all of whose days are complete in the table now |
| MinuteHistory.OpenYearsAreTakenUp | extend/pull/market/minute.go:29-66 | a rebuilding run takes up the current year, and a past year if and only if its mark does not cover it from the wanted start to its end |
| MinuteHistory.SuccessLeavesNoGap | extend/pull/market/minute.go:97-142 | a rebuilding run that reports success has marked every target from its start to its end, unless there is no row at all in that stretch |
| MinuteHistory.CoveredYearIsFinal | extend/pull/market/minute.go:43-48 | a past year covered by its mark is never touched again by runs of either mode |
| MinuteHistory.FinishedYearIsFinal | extend/pull/market/minute.go:43-48 | one successful rebuilding run over a past year is enough for good, as long as the start date is not moved back |
| MinuteHistory.CoverageGrows | extend/pull/market/minute.go:54-64 | a rebuilding run resumes no later than its mark ends, so the mark is extended without a gap and never given up |
| MinuteTakeUp.ScanTakesUp | extend/pull/market/minute.go:43-48 | without rebuilding the current year is always taken up, and a past year exactly when no mark reaches back to where it is wanted from and, if it is a rebuilding mark, to the end of the year |
| MinuteTakeUp.ScanFetchesFrom | extend/pull/market/minute.go:29-74 | without rebuilding, bars are asked for from the earliest of the instants at which the open years are taken up: start of year, start date or, in the current year, newest row, whichever is last |
| MinuteTakeUp.ScanKeeps | extend/pull/market/minute.go:49-66 | whatever fails, a run without rebuilding leaves the rows before what is wanted, the rows of the current year before its newest, and every past year a mark spares |
| MinuteTakeUp.ScanStores | extend/pull/market/minute.go:120-134 | in a run without rebuilding that succeeds, every fetched bar of an open year that is wanted and not before the current year's newest row is stored |
| MinuteTakeUp.ScanExactly | extend/pull/coverage.go:69-91 | such a run leaves of an open year exactly its fresh bars and the rows before them, in a past year those before the first fresh bar, in the current one those before where it was taken up; without a fresh bar all |
| MinuteTakeUp.ScanSpares | extend/pull/coverage.go:51-53 | a past year of which such a run stored anything is spared by its mark afterwards |
| MinuteTakeUp.ScanLeavesTheMark | extend/pull/market/minute.go:130-134 | the current year's mark is not touched without rebuilding |
| MinuteTakeUp.SuccessMarksTheWholeYear | extend/pull/market/minute.go:54-64 | a rebuilding run that reports success leaves every year of its range marked from where it is wanted to its end, although it worked on a part of it only, unless there is no row in that stretch |
| MinuteTakeUp.RebuildStoresNews | extend/pull/market/minute.go:97-106 | a rebuilding run stores every fetched bar from the current year's newest row on and before its own time |
| MinuteTakeUp.DatesLookedAt | extend/pull/market/minute.go:78-84 | the dates a mark stands for are exactly the days with volume from the target's start on, before its end, before today and before every bar fetched |
| AffineAdjust.PreIsCutExPrice | protocol/model_gbbq.go:193-219 | on whole milli-yuan, the reference price is the affine ex-price cut to milli-yuan for every price if and only if the share terms do not cancel to zero or no net cash is paid |
| AffineAdjust.AnEventWherePreAndMcDiffer | protocol/model_gbbq.go:206-219 | an ex-day and a price for which the two results differ by half a yuan, against the comment's claim |
| BackwardSweep.Sweep | protocol/model_gbbq.go:350-368 | the two-finger walk gives each day the composition of exactly the events after it |
| AffineAdjust.Factors | protocol/model_gbbq.go:314-385 | the coefficients of every trading day in time order, from days and ex-days in any order, whichever way the sort puts equal times |
| AffineAdjust.QfqFollowsTheSort | protocol/model_gbbq.go:346-368 | with several events on one day, each day's forward coefficients carry a price through the later events in the order the sort left them in |
| AffineAdjust.ComposedIsThrough | protocol/model_gbbq.go:353-360 | the composed coefficients carry a price through the events one after the other, oldest first |
| AffineAdjust.QfqIsThroughLaterEvents | protocol/model_gbbq.go:337-368 | each day's forward coefficients are the chronological composition of exactly the ex-days after it and not after the latest day, suspension gaps included; the latest day is the identity |
| AffineAdjust.HfqInvertsEarlierEvents | protocol/model_gbbq.go:370-378 | each day's back coefficients undo, and are undone by, the ex-days after the first day up to that day |
| AffineAdjust.HfqIgnoresTheFuture | protocol/model_gbbq.go:337-382 | later trading days and later ex-days never change an earlier day's back coefficients |
| AdjustedBars.ApplyFQ | protocol/model_gbbq.go:428-450 | each bar is adjusted by the factor of its own time and left alone without one |
| AdjustedBars.RoundIsRounded | protocol/model_gbbq.go:413-418 | rounding gives the nearest whole number, of two equally near the one farther from zero, and no other number is that |
| AdjustedBars.AdjustedPriceIsNear | protocol/model_gbbq.go:403-418 | an adjusted price is a whole cent within 5 milli-yuan of the exact affine value |
| AdjustedBars.AdjustKeepsOrder | protocol/model_gbbq.go:436-446 | a positive multiplier keeps low <= open, close <= high through rounding, and each of the five prices lands on the nearest cent |
| AdjustedBars.AdjustedHistoryIsSound | protocol/model_gbbq.go:428-450 | if no action takes away more than all shares, in a whole adjusted history every bar meets its own day's factor, stays sound and lands within half a cent |
| HistoryPaging.Adjust | extend/research/model.go:92-152 | for bars of distinct dates in any order: refused if a share conversion is in force, else prices written over the kept bars by position, for stocks after sorting, for funds from the input |
| HistoryPaging.InOrderIsAdjusted | extend/research/model.go:92-152 | on bars in date order that is the adjustment of the bars up to a date by the ex-days up to that date |
| AdjustOrder.AdjustIsRightExactlyInOrder | extend/research/model.go:99-150 | on given distinct dates the result is each bar adjusted by its own day's factor, for all prices, actions and modes, if and only if the bars up to the date are in order and, for a fund, no later bar comes before them |
| ExRights.EventExchanges | protocol/model_gbbq.go:155-219 | the event of a stored action takes price x to the price at which 10 + bonus + rights shares are worth ten at x, less the cash, plus what the rights cost, each term to two decimals |
| ExRights.ForwardByTheActions | extend/research/model.go:115-127 | forward adjustment carries each stored bar through exactly the category 1 actions after its day up to the latest bar, in date order and by their own four terms, and rounds to the cent, for funds to the milli-yuan |
| ExRights.BackByTheActions | extend/research/model.go:115-130 | back adjustment gives each stored bar the prices that the category 1 actions after the first bar up to its own day would carry to its own, rounded |
| ExRights.NothingHappened | extend/research/model.go:115-150 | without such an action a price that is a whole cent, for funds any price, stays |
| HistoryPaging.RefreshOverlays | extend/research/store.go:125-140 | an upsert of bars leaves, per date, the last new bar, else the old one |
| HistoryPaging.UpsertKeepsKeys | extend/research/store.go:90-163 | an upsert keeps bars in date order and one action per date and category, for all symbols |
| ResearchStore.BarsLetIn | extend/research/model.go:34-50 | validation lets in exactly the bars of a good symbol and date at positive prices with open and close between low and high and no negative volume or amount |
| ResearchStore.UpsertStoresBars | extend/research/store.go:125-140 | each bar that came in is stored under its date, at prices rounded to the milli-yuan, unless a later one of the upsert has its date |
| ResearchStore.UpsertStoresActions | extend/research/store.go:141-150 | each action that came in is stored with its four terms, unless a later one has its date and category |
| ResearchStore.IssuesStay | extend/research/store.go:151-158 | a quarantined issue on record stays, and of new ones with one key the first is kept |
| ResearchStore.Store.Upsert | extend/research/store.go:90-163 | malformed symbols, bars, actions and issues are refused; otherwise bars, actions, quarantined issues and the revision change together or not at all, and every stored bar stays sound |
| ResearchStore.UpsertKeepsSound | extend/research/model.go:34-50 | what validation lets in, rounded to milli-yuan, keeps every stored bar within its own low and high |
| ResearchStore.AnswerIsSound | extend/research/model.go:125-150 | every bar of every raw answer is the stored one; if no known action takes away more than all shares, every bar of every adjusted answer is the one of its place, spans its own open and close, and lands within half a cent, for funds half a milli-yuan, of the exact affine value of its own day |
| ResearchStore.Store.QueryBarsPage | extend/research/history.go:27-125 | the page for a request, cursor and expected version, and an error for a malformed symbol, date, cursor, adjustment or limit |
| HistoryPaging.CursorLeavesTheRest | extend/research/history.go:114-123 | what lies before a page's cursor is exactly what the page left out |
| HistoryPaging.PagesAreTheAnswer | extend/research/history.go:107-123 | pages followed by cursor to the end join to the one-shot answer, each bar once |
| HistoryPaging.FollowingEnds | extend/research/history.go:114-123 | following the cursor ends, after as many pages as the limit requires |
| HistoryAnswers.AnsweredExactlyWhen | extend/research/history.go:60-105 | a raw answer is always given, an adjusted one exactly when the symbol's last commit brought checked actions, none of them a share conversion by the end date, and a bar is stored up to then |
| HistoryAnswers.PageIsServed | extend/research/history.go:34-61 | a page is served exactly for a window that is not upside down, a limit of 1 to 1000, the current version or none, and a history that has an answer; it holds at most as many bars |
| HistoryAnswers.AnswerHoldsTheBars | extend/research/model.go:99-103 | an answer has a bar of a date exactly when one is stored and the date is not after the end |
| HistoryAnswers.PagesHoldTheWindow | extend/research/history.go:107-123 | the pages from the newest on hold exactly the bars of the answer that are not before the start |
| HistoryPaging.RevisionCounts | extend/research/store.go:159-162 | the revision counts the upserts |
| HistoryPaging.PagingIsStable | extend/research/history.go:24-61 | pages that all passed the version check are pages of one unchanged dataset, whatever was attempted in between |
| HistoryPaging.AnswerIgnoresTheFuture | extend/research/model.go:91-128 | any number of commits for other symbols, or of later bars and actions, change no answer as of the end date |
| Sessions.Validate | extend/pull/calendar.go:87-106 | accepts exactly the lists of well-formed sessions that share no minute of the day, overnight and full-day ones included |
| Sessions.OneOccurrence | extend/pull/calendar.go:87-106 | if sessions are accepted, an instant lies in at most one occurrence of one session, but for the midnight a full day closes and opens with |
| Sessions.LookingBackOneDay | extend/pull/calendar.go:125-135 | an occurrence that contains an instant began that day or the day before |
| Sessions.SearchFindsHome | extend/pull/calendar.go:124-147 | the first-match search finds the one occurrence an instant belongs to, and finds none only if there is none |
| Sessions.OrderDoesNotMatter | extend/pull/calendar.go:124-147 | the bucket found does not depend on the order of the sessions |
| Sessions.Locate | extend/pull/calendar.go:121-150 | the bucket of an instant: anchor, session and index |
| Sessions.SortedIsContiguous | extend/pull/calendar.go:113-165 | in time order no bucket is taken up again after another began |
| Sessions.Stream | extend/pull/calendar.go:118-165 | streaming aggregation equals grouping by bucket |
| Sessions.MinuteToSessions | extend/pull/calendar.go:77-167 | succeeds exactly for a positive period, accepted sessions and bars that are all there and within them, and then gives one bar per bucket |
| Sessions.AggregateEnds | extend/pull/calendar.go:151-163 | a bucket's bar has the first open, the last close, time and non-empty source |
| Sessions.AggregateExtremes | extend/pull/calendar.go:155-157 | a bucket's bar has the greatest high and least low of its bars |
| Sessions.AggregateTotals | extend/pull/calendar.go:158-159 | a bucket's bar has the volume and amount of its bars |
| Sessions.GroupingConserves | extend/pull/calendar.go:113-166 | one bar per non-empty bucket, and volume and amount in total are conserved |
| Sessions.SharedBuckets | extend/pull/calendar.go:136-141 | two instants share a bucket exactly when they lie in one occurrence of a session, which begins at b, and both are b or one k has b + k*n*60 < t <= b + (k+1)*n*60 for both |
| Sessions.GroupedIsSliced | extend/pull/calendar.go:142-165 | each output bar is the aggregate of the input bars of one such slice, no slice comes out twice, and every input bar is in one |
| Sessions.OutputInOrder | extend/pull/calendar.go:112-165 | the output is in time order, each bar later than the one before |
| EngineCache.EvictedIsTrimmed | extend/pull/engine.go:54-69 | eviction closes idle engines only, the longest unused first, until the limit is met or none is idle |
| EngineCache.StepKeepsInv | extend/pull/engine.go:17-52 | every operation keeps reference counts equal to the borrowers, handles distinct and open exactly while cached |
| EngineCache.EveryRun | extend/pull/engine.go:17-69 | that holds after any sequence of operations |
| EngineCache.EngineSafety | extend/pull/engine.go:16-69 | in every run a borrowed engine is cached and open, each path has at most one open engine, the map is within its limit or all in use, and a closed service without borrowers holds nothing |
| EngineCache.LongestUnusedGoesFirst | extend/pull/engine.go:33-66 | after any run, if a call takes an engine out of the map while an idle one stays, the last borrowing of the one that goes was before that of the one that stays |
| EngineCache.Service.EvictEngines | extend/pull/engine.go:54-69 | the eviction loop does what the model says, whatever order the map is scanned in |
| EngineCache.Service.Borrow | extend/pull/engine.go:17-51 | a borrowed engine is open; refused exactly when closed or when a new file does not open |
| EngineCache.Service.Release | extend/pull/engine.go:37-49 | the first call gives the engine back, further calls do nothing |
| EngineCache.Service.Close | extend/pull/pull.go:141-153 | idle engines are closed, borrowed ones stay until given back |
| JobLedger.Worker.Progress | extend/research/service.go:142-160 | the record after one symbol, saved or not |
| JobLedger.Worker.UpdateSymbols | extend/research/ingest.go:392-465 | stops exactly at the end, at cancellation or after five failures in a row, and at each save the record accounts for every symbol |
| JobLedger.BreaksAtTheFirst | extend/research/ingest.go:446-460 | the update stops at the end, where the context has ended, or after the first five failures in a row, whichever comes first |
| JobLedger.Worker.ImportDirectory | extend/research/ingest.go:293-358 | an import stops at the end or at the first file before which the context ended, whatever fails, and each record lists the files that failed so far |
| JobLedger.Worker.Run | extend/research/service.go:139-203 | the whole job, import or online: where it stops, with which error, every record saved is a consistent snapshot, and the final one carries the verdict and the retry list |
| JobLedger.ImportPlanIsComplete | extend/research/ingest.go:318-350 | an import's retry list leaves no file out if and only if each file not reached has the name of one that failed; for distinct names, if and only if the context was still open before every file |
| JobLedger.ACancelledImport | extend/research/service.go:163-187 | an import cancelled before its one file ends without success, with nothing on its retry list |
| JobLedger.ProgressKeepsSnapshot | extend/research/service.go:142-151 | each symbol stays accounted for: done, failed, or remaining |
| JobLedger.ProgressKeepsErrors | extend/research/service.go:152-157 | the error list holds failed symbols only, at most 500, and all of them up to 500 failures |
| JobLedger.ClosedPlan | extend/research/service.go:183-195 | at the end the retry list is the failed symbols followed by the unprocessed ones, and the job succeeded exactly if that is empty |
| JobLedger.RecoveredPlan | extend/research/store.go:65-77 | recovery after a crash leaves the same plan |
| JobLedger.PlanIsComplete | extend/research/service.go:183-184 | every symbol is done or in the plan, and the plan asks for no symbol more often than the job did |
| RetrySchedule.ScheduleRetry | extend/research/service.go:250-300 | says to start exactly when an attempt is due, with the plan of the latest attempt |
| RetrySchedule.NeverAFullRescan | extend/research/service.go:249-299 | after an attempt that processed anything the retry never means the full universe |
| RetrySchedule.TickIsWarranted | extend/research/service.go:226-247 | a tick starts a job only with fewer than three attempts that date, none running or successful, all ended half an hour ago |
| RetrySchedule.ReadyExactlyWhenDue | extend/research/service.go:250-300 | in every state a run can reach the scheduler is ready exactly when the date has seen fewer than three attempts, all ended without success half an hour ago, the last of which leaves a plan |
| RetrySchedule.StepKeepsInv | extend/research/service.go:98-138 | every event of the service keeps the ledger consistent, failed saves and restarts included |
| RetrySchedule.AttemptsAreLimited | extend/research/service.go:250-276 | in every run a date sees at most three scheduled attempts, each begun half an hour after the one before ended without success |
| RetrySchedule.RetriesOnlyShrink | extend/research/service.go:277-281 | an attempt repeating one that resolved its symbols asks for exactly what that one left, and never has more outstanding |
| RetrySchedule.NothingIsForgotten | extend/research/service.go:142-194 | in every run and at every crash point each resolved symbol is done or still listed in the saved record |
| TradeBars.BarOfTrades | protocol/model_trade.go:161-192 | the bar of a group of trades, flat at the previous close without a priced trade |
| TradeBars.BarOfPriced | protocol/model_trade.go:171-188 | the bar of trades of which some have a price opens at the first of those, closes at the last, and its high and low are bounds that some attain |
| TradeBars.EverySlotIsOnTheGrid | protocol/model_trade.go:222-229 | every minute of the day is booked to one grid minute: within a session to its own end, before 9:30 to 9:30, from 11:30 to 12:59 to 11:30, from 15:00 on to 15:00 |
| TradeBars.KlinesForDay | protocol/model_trade.go:195-238 | the day's 241 bars |
| TradeBars.DayOfBars | protocol/model_trade.go:195-238 | whatever the trades: 241 bars at the grid times, each sound, each continuing from the close before, flat where nothing priced traded |
| TradeBars.DayConserves | protocol/model_trade.go:221-237 | a day's bars hold every priced trade's volume and amount |
| TradeBars.TradeKlines | protocol/model_trade.go:135-158 | the bars of every day that has a trade, day after day |
| TradeBars.KlinesConserve | protocol/model_trade.go:135-158 | over any number of days: 241 bars a day, volume and amount conserved |
| Klines.Aggregate | protocol/model_kline.go:411-440 | one bar of many: first non-zero open, extremes, last close, totals |
| Klines.WholeSays | protocol/model_kline.go:411-440 | the one bar of many has bounds some attain for high and low, the first open that is not zero, and the last close |
| Klines.Merge | protocol/model_kline.go:443-467 | one bar per group of n, the ragged last one included |
| Klines.MergedBar | protocol/model_kline.go:443-467 | merged bar i is that of bars i*n to i*n + n - 1 or to the last, under the time of the last of them, and there is one for each such run |
| Klines.WholeConcat | protocol/model_kline.go:411-440 | the bar of a concatenation is the join of the two bars |
| Klines.WholeOfMerged | protocol/model_kline.go:443-467 | the merged bars amount to the same bar as the bars themselves |
| Klines.MergeTwice | protocol/model_kline.go:443-467 | merging by a and then by b is merging by a*b, on every field |
| Klines.MergeConserves | protocol/model_kline.go:443-467 | volume and amount are conserved |
| MinuteFile.WriteMinute | extend/local.go:211-239 | the bytes of the records, with a placeholder before each day's last bar when due |
| MinuteFile.DayHasTailPlaceholder | extend/local.go:242-250 | whether some bar of the day is a zero record near the close |
| MinuteFile.ReadMinute | extend/local.go:87-130 | the bars read back from any bytes, a trailing fragment ignored |
| MinuteFile.DateSurvives | extend/local.go:101-103 | a date survives the 16-bit field if and only if its year is 2004 to 2035 |
| MinuteFile.VolumeSurvives | extend/local.go:306-311 | a volume survives the file if and only if it fits the 32-bit field after the change of unit |
| MinuteFile.PlaceholdersVanish | extend/local.go:220-237 | whatever the bars, a file reads back as the records of its bars alone would, the placeholders leaving no trace |
| MinuteFile.OneMinuteRoundTrip | extend/local.go:198-200 | one-minute bars written and read back are the input without its zero records near the close if and only if those left have years 2004 to 2035, volumes that fit and no seconds; but for the seconds, which the file drops, if and only if the first two hold |
| MinuteFile.FiveMinuteRoundTrip | extend/local.go:206-208 | five-minute bars written and read back are the input if and only if all have years 2004 to 2035, volumes that fit and no seconds; but for the seconds, if and only if the first two hold |
| MinuteFile.ABarOf2036 | extend/local.go:289 | a bar of 2036 comes back as one of 2004 |
| MinuteFile.ABarOfTooManyLots | extend/local.go:306-311 | a stock's bar of 42949673 lots comes back with none |
| MinuteFile.OnePlaceholderPerRun | extend/local.go:220-237 | the file has one record per bar and one more for each run of bars of a day without such a zero record |
| MinuteFile.RecordLayout | extend/local.go:286-303 | where the fields of a 32-byte record lie, little-endian |
| MinuteFile.BarLayout | extend/local.go:286-311 | the numbers a bar is written as: (year - 2004)*2048 + month*100 + day, the minute of the day, prices and amount as float32 bits, lots or hundredfold shares |
| MinuteFile.FileOfOneDay | extend/local.go:220-237 | the bytes of a day that needs a placeholder: its bars in order and before the last a record of its date at minute 899 with the last close for every price and zeros else |
| TcpClient.Client.NextId | extend/tcpserver/client.go:41-42 | the next number becomes the id of a call that is new; the correlation is kept |
| TcpClient.DecimalIsInjective | extend/tcpserver/client.go:41 | different numbers give different ids |
| TcpClient.DecimalStandsFor | extend/tcpserver/client.go:41 | an id is made of decimal digits that stand for the call's number |
| TcpClient.Client.Register | extend/tcpserver/client.go:43-55 | the step that registers a call, or ends it on a client that is done; the correlation is kept |
| TcpClient.Client.Remove | extend/tcpserver/client.go:81 | the step that withdraws a call and its id; the correlation is kept |
| TcpClient.Client.Take | extend/tcpserver/client.go:104-107 | the step of the read loop that takes a call out as it looks it up; the correlation is kept |
| TcpClient.Client.Shutdown | extend/tcpserver/client.go:114-123 | the step of Close or of a failed read: the first one sets the error and empties the map; the correlation is kept |
| TcpClient.StepKeepsInv | extend/tcpserver/client.go:40-123 | every step of callers, reader and Close keeps the correlation of ids, channels and calls |
| TcpClient.ResponsesReachTheirCalls | extend/tcpserver/client.go:104-110 | in every run a response reaches at most the one call that sent its id, and the reader's send never blocks |
| TcpClient.ResponsesAreDeliveredAsRead | extend/tcpserver/client.go:94-110 | in every run the response a call returned with, body and all, is one that the read loop had read before |
| TcpClient.NobodyIsForgotten | extend/tcpserver/client.go:54-78 | while the client is open a waiting call is pending, being served, or has its response |
| TcpClient.DoneIsForGood | extend/tcpserver/client.go:114-123 | after shutdown the pending map stays empty |
| TcpClient.Client.TerminalError | extend/tcpserver/client.go:76-90 | the step of a call that sees the client done, and the error it returns |
| TcpClient.FourStepsAtMost | extend/tcpserver/client.go:40-79 | in every run a call returns after at most four steps of its own, nothing others do takes it further away, and what it returned with stands |
| TcpClient.EverybodyCanReturn | extend/tcpserver/client.go:64-78 | from every state a run can reach after shutdown, the calls can go on by themselves until all have returned |
| Feistel.NetworkIsUndone | lib/gbbq/gbbq.go:141-169 | a Feistel network with the subkeys reversed undoes itself, for any round function |
| GbbqCipher.DecryptBlock | lib/gbbq/gbbq.go:140-174 | the block loop computes the network on the two little-endian words |
| GbbqCipher.BytesSelect | lib/gbbq/gbbq.go:147-163 | which table word each byte of a word selects, and how the four are combined |
| GbbqCipher.DecryptionRoundByRound | lib/gbbq/gbbq.go:140-174 | decryption is sixteen rounds with the subkeys at 0x40 down to 4, between whitening with those at 0x44 and 0 |
| GbbqCipher.DecryptionIsUndone | lib/gbbq/gbbq.go:140-174 | decryption with the reversed key table undoes decryption |
| GbbqCipher.DecryptionIsABijection | lib/gbbq/gbbq.go:140-174 | on 8-byte blocks decryption is one-to-one and onto, for every key table of at least 0x1048 bytes |

## Left out

- Rows stamped at or after the time of a run: the no-loss results exclude them, and `MinuteHistory.KeptExactlyUpToTheEnd` shows that the exclusion is exact.
- Switching rebuilding off on tables built with it: a later exchange scan may delete rebuilt rows; the coverage and no-replacement results cover such sequences, the no-loss results do not.
- Minute puller start dates before 1970, where an empty table's newest time 0 would count as later than the start.
- `int64` sums of trade volumes and amounts: unbounded here, no wrap-around.
- `XRXDs.Pre` beyond attaching the events: the `PreLast` display price, and the compatibility fields and ratios `QFQ`, `HFQ`, `QFQFactor`, `HFQFactor`, which the coefficients do not use.
- Floating-point rounding of prices, factors and file prices: reals, and for the minute file an arbitrary pair of conversions that keeps zero.
- `DayToCalendar`: the same streaming group-by as for sessions with a simpler key.
- `Merge241`: visits days in the random order of a Go map, then chunks each day like `Merge`.
- `upsertDay` and the daily tables: the minute write with other columns.
- HistoryPaging.Adjust: input bars have whole milli-yuan, which is how the store keeps them; finer prices, which only a caller outside the store could pass, are not modelled.
- MinuteFile.ReadMinute: months, days and minutes that do not exist, which only foreign files hold, are kept as spelled; the program's calendar library carries them over.
- AffineAdjust.Factors: bars of one time and records of one day come out in some order of the sort, as in the program; that order itself is not determined.
- RetrySchedule.StepKeepsInv: import jobs are not among the events; they carry no scheduled date.
- Symbol resolution and instrument profiles: an online job's symbols are given, and whether a code is a fund is an input of a request.
- `Jobs` returning at most 100 records: the scheduler is modelled on the complete ledger of a date.
- The weekday and time-of-day test before a tick, and how a session is confirmed: a tick is an event with that answer as an input.
- Which strings are dates: a date comes in as absent, malformed or a day number.
- Database errors of the research queries themselves, and two rows of one date in one INSERT statement, where the later one is taken.
- Time zones with changing offsets, and files or engines shared between processes.
- Wrap-around of the TCP client's 64-bit call counter.
- Frames, encodings and socket input and output of the TCP client, HTTP handlers, SQL text, caches of daily files, indicators, decoders of fixed layouts and paging loops of the protocol client: plumbing or easy members.
