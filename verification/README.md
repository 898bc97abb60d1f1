# Funding-fee tool: a verified model

The tool computes what perpetual-futures positions paid or received in funding. This project models the code that
decides what to fetch, pages through a remote history, stores it and claims that the local copy agrees with the
remote one, together with the small state machines around it and the arithmetic and printing at the end.

| file | what it models |
|---|---|
| `Wrappers`, `Ordering` | options and results; ascending listings and bisection |
| `RemoteHistory` | an immutable time-ordered history behind an endpoint that answers "the first `limit` records in [startTime, endTime]" |
| `FundingRateCache` | the table of funding events as a map keyed by exchange, symbol and millisecond, and `missing_ranges` |
| `FundingFetch` | paging of rates and klines, the floor join, and the fetch that fills the gaps of a window |
| `FundingTheorems` | the local copy agrees with the remote; what one fetch delivers, for any spacing of the events |
| `FundingExactness` | events one interval or more apart: the exact result, and what it loses |
| `FundingSuccess` | when a fetch succeeds, and how the klines of a gap can fail it |
| `FundingJitter` | events that drift by less than half an interval: the exact result |
| `FundingGuarantee` | what the table alone tells in advance about the completeness of a fetch |
| `FundingRecovery` | runs of fetches, aborts and clears; picking up after an abort |
| `FundingSettling` | when a window is settled: nothing missing, and another fetch changes nothing |
| `FundingRepeat` | fetching a window again: what a success leaves over, and that no repetition removes it |
| `FundingSharing` | one table shared by many fetches at once |
| `IncomeFetch`, `AccountHistory` | three nested loops over windows, pages and records; totals per symbol and month |
| `AuthLockout` | the lockout table bounded by recency |
| `TaskManager`, `TaskPoll` | background tasks with restart and expiry; the browser hook that polls one |
| `HttpRetry` | classification, retry and backoff of a GET |
| `AccountStore` | accounts in an index and a keyring |
| `Backtest` | the funding of a hypothetical position |
| `CsvExport` | the exported table and a reader for it |

Code that changes state step by step is modelled by classes and by methods with loops. Each such method is proved equal
to a function of its inputs or of the old state, and the theorems are about those functions. The remote side, clocks,
random jitter and the keyring's moods are inputs over which the theorems quantify.

Where the code does not do what its documentation or its purpose suggests, the model follows the code:

- The docstring of `missing_ranges` (`src/funding_tool/core/cache.py:98-104`) speaks of slack "by more than ~1 interval";
  the code asks for more than 1.5 intervals. A remote event in an end slack between 1 and 1.5 intervals is therefore
  never fetched (`EndEventIsFetchedIff`, `ShortEndSlackLosesEvent`), and the fetch is the whole remote window exactly when
  neither end loses an event that way (`FetchIsWholeWindowIff`). Whether that is sure whatever the remote side holds can
  be read off the table before the fetch (`GuaranteedWholeIff`).
- An interior gap starts a full interval after the previous row, so an event that arrives early, even by a millisecond,
  is skipped (`EarlyEventIsNotFetched`, `EarlyEventIsSkipped`). `FetchUnderDrift` says exactly what the millisecond jitter
  that the same docstring describes costs, and `FetchCharacterised` what is delivered without any spacing hypothesis.
- The docstring of `_merge` (`src/funding_tool/core/exchanges/binance_usdm.py:144-146`) promises the most recent kline
  within one interval before the event. Klines are fetched for the gap only (`:57`), so a kline that opens before the gap
  does not count, and an event right at the start of a gap can fail the fetch although its kline exists
  (`JitterFailsFetch`). `FetchSucceedsIff` gives the exact condition. For the same reason re-running an aborted fetch, or
  repeating a successful one, can fail (`RefetchCanFail`); `RefetchAfterAbort` says exactly when it does not.
- The income pager resumes one millisecond after the last record of a full page, so records sharing that millisecond are
  lost when they do not all fit on the page (`TieAcrossPagesIsLost`, `CrowdedMillisecond`). `FetchedIs` says exactly which.

## Model

| member | source | states |
|---|---|---|
| `FundingRateCache.SqliteFundingRateCache.Put` | `src/funding_tool/core/cache.py:42-59` | the table becomes the old one with the events inserted or replaced in order |
| `FundingRateCache.LastUpsertWins` | `src/funding_tool/core/cache.py:53-59` | of several events stored under one key, the last one is what the table holds |
| `FundingRateCache.UpsertKeepsOthers` | `src/funding_tool/core/cache.py:53-59` | storing events changes no row but those at their keys |
| `FundingRateCache.GetAfterPut` | `src/funding_tool/core/cache.py:42-82` | a reading after storing shows the stored events at their milliseconds and the previous rows everywhere else, and nothing more |
| `FundingRateCache.GetElsewhere` | `src/funding_tool/core/cache.py:42-82` | storing under one exchange and symbol changes no reading of another |
| `FundingRateCache.SqliteFundingRateCache.Get` | `src/funding_tool/core/cache.py:61-82` | returns the cached events of the window in ascending order, leaving the table alone |
| `FundingRateCache.CachedHas` | `src/funding_tool/core/cache.py:66-82` | an event is listed if and only if it lies in the window and the table holds its row |
| `FundingRateCache.SqliteFundingRateCache.MissingRanges` | `src/funding_tool/core/cache.py:84-141` | returns the gaps of the window around its cached rows |
| `FundingRateCache.InteriorRanges` | `src/funding_tool/core/cache.py:127-131` | the loop over neighbouring rows appends the gap of each pair that is more than 1.5 intervals apart |
| `FundingRateCache.RangesAround` | `src/funding_tool/core/cache.py:109-141` | an empty window is one gap; else leading, interior and trailing gaps in that order |
| `FundingRateCache.GapShape` | `src/funding_tool/core/cache.py:109-141` | for any positive interval per row: gaps lie in the window, are non-empty, ascending and disjoint, and hold a cached row at their right end only; the one exception is a window that is itself empty |
| `FundingRateCache.GapsCoverage` | `src/funding_tool/core/cache.py:109-141` | an instant without a row is in some gap if and only if its nearest rows on either side do not pass it over |
| `FundingRateCache.InteriorCoverage` | `src/funding_tool/core/cache.py:127-131` | the same between two cached rows: interior gaps cover exactly what is not passed over |
| `FundingRateCache.NothingFarIsPassedOver` | `src/funding_tool/core/cache.py:109-141` | every instant of the window that no gap asks for is within 1.5 intervals of a cached row |
| `FundingRateCache.SqliteFundingRateCache.Clear` | `src/funding_tool/core/cache.py:167-176` | deletes the rows of one symbol, or all rows without one, and returns how many went |
| `FundingRateCache.SurvivesClear` | `src/funding_tool/core/cache.py:167-176` | key by key: a row survives a clear, unchanged, if and only if the clear names a non-empty symbol and the row has another one |
| `FundingFetch.FetchRatePages` | `src/funding_tool/core/exchanges/binance_usdm.py:74-96` | the cursor loop ends and collects exactly the rates of the range, in order, also when the last page is just full |
| `FundingFetch.AddRows` | `src/funding_tool/core/exchanges/binance_usdm.py:127-129` | one page of klines overrides the dictionary at its own times |
| `FundingFetch.FetchKlines` | `src/funding_tool/core/exchanges/binance_usdm.py:98-133` | the cursor loop ends and collects exactly the klines of the range, keyed by open time |
| `FundingFetch.FindMark` | `src/funding_tool/core/exchanges/binance_usdm.py:152-158` | lookup with bisect fallback finds the price of the latest kline at or before the funding time within one interval, or none if there is none |
| `FundingFetch.Merge` | `src/funding_tool/core/exchanges/binance_usdm.py:135-173` | one event per rate, in order, or the error for the first rate without a mark price |
| `FundingFetch.FirstErrorStays` | `src/funding_tool/core/exchanges/binance_usdm.py:159-163` | what follows a rate without a mark price has no influence on the error |
| `FundingFetch.BinanceUsdmExchange.constructor` | `src/funding_tool/core/exchanges/binance_usdm.py:38-45` | starts with no remembered interval |
| `FundingFetch.BinanceUsdmExchange.GetInterval` | `src/funding_tool/core/exchanges/binance_usdm.py:62-72` | the listed interval of the symbol, remembered or not, or the unknown-symbol error |
| `FundingFetch.BinanceUsdmExchange.FetchFundingRates` | `src/funding_tool/core/exchanges/binance_usdm.py:47-60` | result and table are those of filling the missing ranges in order, stopping at the first missing mark price and keeping what earlier ranges stored |
| `FundingTheorems.FloorWithin` | `src/funding_tool/core/exchanges/binance_usdm.py:57-58` | a lookup among the klines of a gap finds the floor kline of the whole history if that one opens in the gap, and nothing otherwise |
| `FundingTheorems.MergedFaithful` | `src/funding_tool/core/exchanges/binance_usdm.py:151-172` | every merged event is the remote event of its rate; the join never fails when each rate has a kline of its own millisecond |
| `FundingTheorems.GapEventsFaithful` | `src/funding_tool/core/exchanges/binance_usdm.py:54-58` | a gap contributes all remote events of the gap and nothing else |
| `FundingTheorems.StoreGap` | `src/funding_tool/core/exchanges/binance_usdm.py:59` | storing a gap keeps every row equal to the remote event at its key and adds exactly the rates of the gap |
| `FundingTheorems.FillGapsAgrees` | `src/funding_tool/core/exchanges/binance_usdm.py:53-59` | filling gaps keeps the agreement even when it stops early; on success it has added exactly the rates inside some gap |
| `FundingTheorems.RemoteGapCoverage` | `src/funding_tool/core/cache.py:108-141` | a remote event is cached or asked for if and only if its neighbouring rows do not pass it over |
| `FundingTheorems.FetchCharacterised` | `src/funding_tool/core/exchanges/binance_usdm.py:47-60` | for any spacing: a fetch keeps the agreement, and a successful one lists, each once and ascending, the remote events of the window that are cached or not passed over |
| `FundingSuccess.MergedError` | `src/funding_tool/core/exchanges/binance_usdm.py:151-163` | the error names the first rate without a mark price, and all rates before it have one |
| `FundingSuccess.GapEventsOk` | `src/funding_tool/core/exchanges/binance_usdm.py:54-58` | a gap can be stored if and only if each of its rates has a kline in the gap, at most one interval back |
| `FundingSuccess.FetchSucceedsIff` | `src/funding_tool/core/exchanges/binance_usdm.py:47-60` | a fetch succeeds if and only if the symbol is listed and each rate in one of its gaps has a kline in that gap, at most one interval back |
| `FundingSuccess.UnlistedSymbolFails` | `src/funding_tool/core/exchanges/binance_usdm.py:51-72` | a fetch of an unlisted symbol gives the unknown-symbol error for that symbol and leaves the table alone |
| `FundingSuccess.FetchErrorIs` | `src/funding_tool/core/exchanges/binance_usdm.py:159-163` | a fetch of a listed symbol that fails gives the missing-mark-price error, for the earliest rate without a close kline in the first gap that has such a rate |
| `FundingSuccess.EarlierKlineFailsFetch` | `src/funding_tool/core/exchanges/binance_usdm.py:144-163` | a rate in a gap all of whose close enough klines open before the gap fails the fetch |
| `FundingSuccess.JitterFailsFetch` | `src/funding_tool/core/exchanges/binance_usdm.py:144-163` | an eight-hourly symbol, events at 00:00:00.007 and 08:00:00.013, both with mark prices: with the first one cached, the fetch fails at the second |
| `FundingTheorems.RemoteWindowHas` | `src/funding_tool/core/exchanges/binance_usdm.py:30-33` | the remote window lists each remote event of [start, end] once, ascending |
| `FundingExactness.OnlyEdgesAreLost` | `src/funding_tool/core/cache.py:109-141` | with events one interval apart, a remote event is passed over only as the first or last of the window, inside a short slack |
| `FundingExactness.FetchExact` | `src/funding_tool/core/exchanges/binance_usdm.py:47-60` | from any cache that agrees, a successful fetch returns exactly the remote window, in order, less at most one event before the first cached row and one after the last |
| `FundingExactness.LossNeedsShortSlack` | `src/funding_tool/core/cache.py:121-139` | such an event is lost only where the slack is between 1 and 1.5 intervals |
| `FundingExactness.FetchIsWholeWindowIff` | `src/funding_tool/core/exchanges/binance_usdm.py:47-60` | with a kline at each event, the fetch equals the remote window if and only if neither end loses its event |
| `FundingExactness.ListsIff` | `src/funding_tool/core/exchanges/binance_usdm.py:47-60` | a successful fetch lists an event at an instant if and only if there is a remote one with a mark price that is delivered |
| `FundingExactness.EarlyEventIsNotFetched` | `src/funding_tool/core/cache.py:131-139` | in any market and table: an uncached event less than an interval after the row before it is not in the result |
| `FundingExactness.EarlyEventIsSkipped` | `src/funding_tool/core/cache.py:131` | three hourly rates, the middle one early by a millisecond or more, and the outer two cached: the fetch succeeds without the middle one |
| `FundingExactness.EndEventIsFetchedIff` | `src/funding_tool/core/cache.py:137-139` | in any market and table: an uncached event an interval or more after the last row is in the result if and only if the window ends more than 1.5 intervals after that row |
| `FundingExactness.ShortEndSlackLosesEvent` | `src/funding_tool/core/cache.py:137-139` | three hourly rates, the first one cached: the fetch succeeds, and lists the second if and only if the window ends more than 1.5 intervals after the first |
| `FundingJitter.PassedOverIsLost` | `src/funding_tool/core/cache.py:109-141` | with a drift below half an interval, an uncached event is passed over exactly in a short slack at an end or less than an interval right after a cached row |
| `FundingJitter.FewInSlack` | `src/funding_tool/core/cache.py:121-139` | at most two events lie in such a slack, one if the drift is below a quarter interval |
| `FundingJitter.FetchUnderDrift` | `src/funding_tool/core/exchanges/binance_usdm.py:47-60` | under that drift a successful fetch is the remote window, in order, less exactly those events |
| `FundingJitter.LossUnderDrift` | `src/funding_tool/core/exchanges/binance_usdm.py:47-60` | so it loses at most two (one) at either end, and elsewhere only the early one right after a cached row |
| `FundingGuarantee.ExtendedFits` | `src/funding_tool/core/exchanges/binance_usdm.py:47-60` | where the stored rows leave an interval of room, some market with an event there has the same table |
| `FundingGuarantee.SlackEventIsLost` | `src/funding_tool/core/cache.py:121-139` | an event in a short slack keeps the fetch from being the whole window |
| `FundingGuarantee.GuaranteedWholeIff` | `src/funding_tool/core/exchanges/binance_usdm.py:47-60` | over all markets the table may stem from, with events an interval apart and a kline at each: the fetch is always the whole remote window if and only if at neither end the slack is between 1 and 1.5 intervals with room for an event between the stored rows |
| `FundingRecovery.RunAgrees` | `src/funding_tool/core/exchanges/binance_usdm.py:53-60` | after any run of fetches of any windows, aborted after any number of gaps or not, and clears, every cached row is the remote event at its key |
| `FundingRecovery.FailureIsAbort` | `src/funding_tool/core/exchanges/binance_usdm.py:159-163` | a fetch stopped by a missing mark price leaves the table exactly as after the gaps before the failing one |
| `FundingRecovery.FailedFetchIsAbort` | `src/funding_tool/core/exchanges/binance_usdm.py:53-60` | a failed fetch leaves the table with the rates of all gaps before the first one it could not price, and of no other |
| `FundingRecovery.FillingKeepsVerdict` | `src/funding_tool/core/cache.py:109-141` | rows stored by some of the gaps change nothing about which other instants are passed over |
| `FundingRecovery.RefetchAfterAbort` | `src/funding_tool/core/exchanges/binance_usdm.py:47-60` | aborted after any number of gaps, where the uninterrupted fetch succeeds: re-running returns the same list if and only if each rate in one of the gaps now left has a kline in that gap, at most one interval back |
| `FundingRecovery.RefetchOnTime` | `src/funding_tool/core/exchanges/binance_usdm.py:47-60` | with a kline at each event both succeed and return the same list |
| `FundingRecovery.RefetchCanFail` | `src/funding_tool/core/exchanges/binance_usdm.py:57-58` | two hourly events some minutes after their klines: a fetch into an empty table stores and lists both, and the next fetch of the same window fails |
| `FundingSettling.StoredIsKept` | `src/funding_tool/core/exchanges/binance_usdm.py:53-60` | after any successful fetch the table holds all rates of the window, priced at their own millisecond or not, less the lost ends |
| `FundingSettling.FetchSettles` | `src/funding_tool/core/exchanges/binance_usdm.py:47-60` | with spacing between 1 and 1.5 intervals and a history continuing past both ends of a window that holds a rate, any successful fetch leaves nothing missing, and a second one succeeds, stores nothing and lists the same |
| `FundingRepeat.LeftGapsAreSpent` | `src/funding_tool/core/cache.py:108-141` | for any spacing: whatever gaps a successful fetch leaves in its window, they hold no rate that is not stored already |
| `FundingRepeat.RepeatChangesNothing` | `src/funding_tool/core/exchanges/binance_usdm.py:47-60` | for any spacing: fetching the window again leaves the very same table, and returns the same list if and only if each rate in one of the gaps left has a close kline in that gap; otherwise it fails |
| `FundingRepeat.NoRepetitionHelps` | `src/funding_tool/core/exchanges/binance_usdm.py:47-60` | however often the window is fetched again, the table stays the same |
| `FundingRepeat.SettledUnderDriftIff` | `src/funding_tool/core/cache.py:108-141` | with a drift below half an interval and spacing up to 1.5 intervals: a successful fetch leaves nothing missing if and only if each event it loses lies in a short slack at an end or between events still at most 1.5 intervals apart |
| `FundingRepeat.NoBridgeBelowQuarter` | `src/funding_tool/core/cache.py:127-131` | with a drift below a quarter interval the latter does not occur |
| `FundingSharing.SharedTableAgrees` | `src/funding_tool/core/exchanges/binance_usdm.py:53-59` | however the single-gap writes of any number of fetches, of any symbols and ranges, and clears interleave, every cached row is the remote event at its key |
| `FundingSharing.SharedRows` | `src/funding_tool/core/exchanges/binance_usdm.py:53-59` | after any interleaving of such writes the table has its former rows and exactly the rates of the ranges that could be priced |
| `FundingSharing.SharedFetchLists` | `src/funding_tool/core/exchanges/binance_usdm.py:52-60` | a fetch that computed its gaps before others wrote lists, once each and ascending, what it would have delivered on its own and what the others stored |
| `FundingSharing.SharedFetchListsNoLess` | `src/funding_tool/core/exchanges/binance_usdm.py:52-60` | so it lists no less than on its own |
| `IncomeFetch.IterIncomePages` | `src/funding_tool/core/exchanges/binance_usdm.py:224-256` | the pager ends and yields the concatenation of its pages |
| `IncomeFetch.WindowPagesHas` | `src/funding_tool/core/exchanges/binance_usdm.py:226-256` | a window's pages yield exactly its records that no full page splits off |
| `IncomeFetch.SplitOffIff` | `src/funding_tool/core/exchanges/binance_usdm.py:226-256` | a record is split off if and only if one of the full pages the pager comes to ask for ends within its millisecond without it |
| `IncomeFetch.FetchFundingIncome` | `src/funding_tool/core/exchanges/binance_usdm.py:187-207` | three nested loops, the id set and the final sort compute the collected, de-duplicated, sorted records of all windows |
| `IncomeFetch.AddNewGathers` | `src/funding_tool/core/exchanges/binance_usdm.py:196-203` | skipping seen ids keeps each record once and loses none, as long as ids are unique |
| `IncomeFetch.SortIsStable` | `src/funding_tool/core/exchanges/binance_usdm.py:206` | the final sort, of any records, is ascending in time and keeps the records of each millisecond, all of them, in their order |
| `IncomeFetch.FetchedHas` | `src/funding_tool/core/exchanges/binance_usdm.py:187-207` | each record at most once, ascending in time; a remote record is there if and only if a window holding it yields it |
| `IncomeFetch.FetchedIs` | `src/funding_tool/core/exchanges/binance_usdm.py:187-207` | the result is the remote history of [start, end] in its own order, ties included, less what every window splits off; it is all of it if and only if nothing is |
| `IncomeFetch.OmittedIsSplitOff` | `src/funding_tool/core/exchanges/binance_usdm.py:187-207` | every omitted record shares its millisecond with the last record of a full page of exactly 1000 rows that the pager of its window, at most seven days long, asked for |
| `IncomeFetch.FetchedExact` | `src/funding_tool/core/exchanges/binance_usdm.py:187-207` | when no full page splits a millisecond, the result is the remote history of [start, end] |
| `IncomeFetch.DistinctTimesExact` | `src/funding_tool/core/exchanges/binance_usdm.py:187-207` | the result is the remote history of [start, end] when no two records share a millisecond, however many there are |
| `IncomeFetch.ShortWindowsExact` | `src/funding_tool/core/exchanges/binance_usdm.py:187-207` | and when no window holds 1000 records, whatever milliseconds they share |
| `IncomeFetch.TieAcrossPagesIsLost` | `src/funding_tool/core/exchanges/binance_usdm.py:254-256` | in a period of up to seven days, when the 1000th and the 1001st record share their millisecond, the 1001st is lost |
| `IncomeFetch.CrowdedMillisecond` | `src/funding_tool/core/exchanges/binance_usdm.py:232-256` | of more than 1000 records in one millisecond, all past the thousandth are lost, whatever else the history holds and whatever the period |
| `IncomeFetch.VisibleOrdered` | `src/funding_tool/core/exchanges/binance_usdm.py:236-237` | the endpoint's symbol filter keeps time order and unique ids, so the theorems hold under it |
| `IncomeFetch.VisibleHas` | `src/funding_tool/core/exchanges/binance_usdm.py:236-237` | the filter shows exactly the records of the symbol, or all without one |
| `AccountHistory.RunAccountHistory` | `src/funding_tool/core/account.py:24-53` | rejects an empty period; else total, per-symbol and per-month sums of the fetched records, and all three add up to the same amount |
| `AccountHistory.GroupingConserves` | `src/funding_tool/core/account.py:38-44` | grouping by any key neither loses nor invents an amount: the buckets add up to the total, whatever the order |
| `AccountHistory.OneMoreRecord` | `src/funding_tool/core/account.py:41-44` | total and buckets start at zero and grow by the amount of each record, the bucket only of its own records |
| `AccountHistory.BucketsAre` | `src/funding_tool/core/account.py:43-44` | there is a bucket for each symbol and each month that occurs, and for no other |
| `AccountHistory.OrderIsIrrelevant` | `src/funding_tool/core/account.py:38-44` | neither the total nor a bucket depends on the order of the records |
| `AccountHistory.AdjoiningPeriods` | `src/funding_tool/core/account.py:38-53` | when no full page splits a millisecond, the total over [a, c], and each bucket, is that over [a, b] plus that over [b, c] less the records timed exactly b |
| `AuthLockout.AuthVerifier.Verify` | `src/funding_tool/web/auth.py:51-81` | outcome and table are those of one step: touch, refuse while locked, count a failure, or start afresh |
| `AuthLockout.AuthVerifier.RecordFailure` | `src/funding_tool/web/auth.py:87-95` | for any address, tracked or not: one more failure, a lock from the limit on, and the least recent entry dropped when there are too many |
| `AuthLockout.RecentIs` | `src/funding_tool/web/auth.py:53-54` | the recency list holds every caller once, ordered by the position of its latest call |
| `AuthLockout.TableIsMostRecent` | `src/funding_tool/web/auth.py:51-95` | after any run, whatever the outcomes, the table holds exactly the last `state_max` distinct callers by latest call |
| `AuthLockout.LockoutSpacing` | `src/funding_tool/web/auth.py:55-57` | for an address neither let in nor dropped, the counter has seen all its failures, and from the `lockout_max`-th on they are at least `lockout_secs` apart |
| `AuthLockout.LockoutRateBound` | `src/funding_tool/web/auth.py:87-95` | within a period of the first failure at most `lockout_max` failures are recorded plus one for each whole lockout that fits |
| `AuthLockout.LockedIff` | `src/funding_tool/web/auth.py:55-57` | such an address is refused unseen if and only if it has `lockout_max` failures and the latest is less than `lockout_secs` old |
| `AuthLockout.SuccessForgets` | `src/funding_tool/web/auth.py:76-78` | after a success only the failures since then decide about locking |
| `AuthLockout.RememberedIff` | `src/funding_tool/web/auth.py:53-54` | an address is in the table if and only if it has called and fewer than `state_max` others have since |
| `AuthLockout.ForgottenIsNotLocked` | `src/funding_tool/web/auth.py:53-57` | once `state_max` others have called since, an address starts afresh: its next call is judged by its credentials alone |
| `AuthLockout.HeldOutIff` | `src/funding_tool/web/auth.py:51-95` | from an empty table, an address is never let in and never dropped if and only if no call of it succeeds and it is at no time followed by `state_max` other callers |
| `AuthLockout.RateBoundFromCalls` | `src/funding_tool/web/auth.py:87-95` | the bound on recorded failures with hypotheses about the calls alone |
| `AuthLockout.OutcomeIs` | `src/funding_tool/web/auth.py:51-81` | the outcome of any call after any run, from the calls alone: refused while at least `lockout_max` failures since the last success, none of them forgotten, are there and the latest is less than `lockout_secs` old; else let in with right credentials and turned away with wrong ones |
| `AuthLockout.AcceptedIff` | `src/funding_tool/web/auth.py:56-74` | in any table, a caller is let in if and only if its credentials are right and it is not refused as locked |
| `AuthLockout.WrongIsNeverLetIn` | `src/funding_tool/web/auth.py:70-74` | an address whose credentials are never right is never let in |
| `AuthLockout.GuessingRateBound` | `src/funding_tool/web/auth.py:87-95` | the bound on recorded failures for such an address, as long as it calls often enough not to be forgotten |
| `TaskManager.Manager.constructor` | `src/funding_tool/web/tasks.py:36-41` | a process starts with empty memory on whatever files there are |
| `TaskManager.Manager.Submit` | `src/funding_tool/web/tasks.py:43-62` | the task is known as running under its id; files are untouched |
| `TaskManager.Manager.FinishRun` | `src/funding_tool/web/tasks.py:64-80` | status and matching payload are set, mirrored to the file, and the task is no longer running |
| `TaskManager.Manager.Persist` | `src/funding_tool/web/tasks.py:82-86` | the file of the task holds its status; other files are untouched |
| `TaskManager.Manager.GetStatus` | `src/funding_tool/web/tasks.py:88-94` | memory answers first, then the file, else the task is unknown |
| `TaskManager.Manager.CleanupExpired` | `src/funding_tool/web/tasks.py:96-114` | in whatever order files are visited, exactly those older than the time to live go |
| `TaskManager.RunFaithful` | `src/funding_tool/web/tasks.py:53-114` | after any feasible run: in memory iff submitted since the last restart, on disk iff finished and not swept since; both hold the status the events call for |
| `TaskManager.AnswersAreFaithful` | `src/funding_tool/web/tasks.py:88-94` | a task is answerable iff it is in memory or its file survives, its answer has only the matching payload, and a file is terminal and agrees with memory |
| `TaskManager.AnswerIs` | `src/funding_tool/web/tasks.py:53-77` | field by field: an answered task that returned a payload is done with that payload and no error, one that raised is failed with that error and no result, an unfinished one is running with neither, each with the time of its submission |
| `TaskManager.RestartKeepsFiles` | `src/funding_tool/web/tasks.py:88-94` | after a restart a task is answerable if and only if its file survives |
| `TaskManager.TerminalForGood` | `src/funding_tool/web/tasks.py:67-80` | a terminal answer is repeated or forgotten, never changed, by any later run |
| `TaskPoll.PollingHook.Cleanup` | `frontend/src/useTaskPoll.ts:58-61` | the live effect is cancelled and its timer cleared |
| `TaskPoll.PollingHook.Tick` | `frontend/src/useTaskPoll.ts:35-39` | a request goes out unless the effect is cancelled |
| `TaskPoll.PollingHook.Render` | `frontend/src/useTaskPoll.ts:26-56` | new dependencies clean up the old effect, reset the shown state and start polling if there is a task |
| `TaskPoll.PollingHook.Respond` | `frontend/src/useTaskPoll.ts:40-51` | a settled request is dropped if cancelled, else shown, and arms the timer unless it is an error or terminal |
| `TaskPoll.PollingHook.FireTimer` | `frontend/src/useTaskPoll.ts:49-51` | a fired timer ticks |
| `TaskPoll.PollingHook.Unmount` | `frontend/src/useTaskPoll.ts:58-61` | unmounting cleans up and changes nothing shown |
| `TaskPoll.RunInv` | `frontend/src/useTaskPoll.ts:26-62` | in any order of renders, responses, timers and unmounting: each effect has at most one open request or armed timer, exactly the live one is not cancelled, and what it shows is about its own task |
| `TaskPoll.ShownIsLastAnswer` | `frontend/src/useTaskPoll.ts:26-56` | after any run the live effect polls for the task of the latest render, and the hook shows the last status and the error that answered it, or nothing before its first answer |
| `TaskPoll.CancelledIsSilent` | `frontend/src/useTaskPoll.ts:36-40` | no single step makes a cleaned-up effect send, arm a timer or write state |
| `TaskPoll.CancelledForGood` | `frontend/src/useTaskPoll.ts:36-40` | over any run after its cleanup an effect stays cancelled, sends nothing and arms no timer, and a response to it changes nothing shown, whenever it comes |
| `TaskPoll.IdleForGood` | `frontend/src/useTaskPoll.ts:41-51` | an effect with nothing open and nothing armed never sends again |
| `TaskPoll.NothingAfterTheEnd` | `frontend/src/useTaskPoll.ts:41-47` | no request follows a terminal status or an error, whatever happens later |
| `HttpRetry.HttpClient.GetJson` | `src/funding_tool/infra/http.py:88-139` | the retry loop has the outcome of the first settling attempt among the first n, else the error class of the n-th; it sends one request per attempt up to there, and pauses after each failure |
| `HttpRetry.HttpClient.Sleep` | `src/funding_tool/infra/http.py:141-149` | pauses as the header says when it is a number, not at all when that is negative, else base times a power of two plus jitter |
| `HttpRetry.HttpClient.Classify` | `src/funding_tool/infra/http.py:94-133` | the branches on transport failure, exchange code and status agree with the table of retryable, authentication, rate-limit and server errors |
| `HttpRetry.RetriedIff` | `src/funding_tool/infra/http.py:24-25` | exactly transport failures, code -1003, status 429 and statuses 500 to 599 are tried again, unless an authentication code or status 401 or 403 settles the call |
| `HttpRetry.OneAttempt` | `src/funding_tool/infra/http.py:94-139` | how a call of one attempt ends, for every code and status |
| `HttpRetry.DecidedByOne` | `src/funding_tool/infra/http.py:88-139` | a call ends as its deciding attempt alone would: the first that settles, else the last |
| `HttpRetry.PauseIs` | `src/funding_tool/infra/http.py:101-127` | only a rate limit heeds the Retry-After header; every other failed attempt pauses for base times a power of two plus jitter |
| `HttpRetry.FirstSettling` | `src/funding_tool/infra/http.py:89-133` | finds the first attempt that settles: every earlier one is retryable and it is not |
| `HttpRetry.BackoffTotal` | `src/funding_tool/infra/http.py:141-149` | without Retry-After, n failures pause between base * (2^n - 1) and that plus 0.1 * n |
| `HttpRetry.PausesAddUp` | `src/funding_tool/infra/http.py:141-149` | the total pause is the sum of the pauses of the failed attempts |
| `HttpRetry.MoreAttempts` | `src/funding_tool/infra/http.py:89-139` | a larger retry budget never changes the outcome of a call that settles within a smaller one |
| `AccountStore.ParseUndoesRef` | `src/funding_tool/core/account_store.py:61-70` | parsing a reference gives back service and kind, also for account names with colons |
| `AccountStore.Store.AddAccount` | `src/funding_tool/core/account_store.py:128-168` | refuses a taken name or a missing keyring without consent; else stores the secrets in one of the two places, and the first account becomes the default; a keyring write may fail half-way |
| `AccountStore.Store.CleanUp` | `src/funding_tool/core/account_store.py:177-183` | deletes the slot a reference names as far as deletion succeeds; an empty reference is skipped, a malformed one is an error |
| `AccountStore.Store.RemoveAccount` | `src/funding_tool/core/account_store.py:170-188` | drops the entry and its keyring slots as far as deletion succeeds, and moves the default on; a malformed reference ends it half-way, the entry gone |
| `AccountStore.Store.SetDefaultAccount` | `src/funding_tool/core/account_store.py:190-194` | only an existing account can become the default |
| `AccountStore.Store.GetCredentials` | `src/funding_tool/core/account_store.py:211-229` | for any index: reads from the place the entry names; empty or absent keyring values count as missing, a malformed reference is an error |
| `AccountStore.StepRefines` | `src/funding_tool/core/account_store.py:128-194` | each operation acts on the two places as on one book of credentials, and is refused exactly when the book refuses it |
| `AccountStore.RunRefines` | `src/funding_tool/core/account_store.py:128-194` | so does every run from an empty store, whatever the keyring does at each step |
| `AccountStore.GetsLastAdded` | `src/funding_tool/core/account_store.py:211-229` | after any run an account answers with the credentials last added under its name, except when it lies in the keyring with an empty part |
| `AccountStore.WhereSecretsLie` | `src/funding_tool/core/account_store.py:141-165` | after any run an account's secrets are in the index if and only if its latest accepted addition found no keyring, and then with consent; otherwise its entry is made of exchange and name alone and both keyring slots hold the secrets |
| `AccountStore.RemovalCleansUp` | `src/funding_tool/core/account_store.py:170-188` | a removal whose deletions go through leaves neither secret in the keyring and touches no other slot |
| `AccountStore.RefusalIs` | `src/funding_tool/core/account_store.py:137-192` | which error each refused operation gives, and that no other operation is refused |
| `AccountStore.DefaultNamesAnAccount` | `src/funding_tool/core/account_store.py:166-187` | there is a default exactly when there are accounts, and it names one of them |
| `AccountStore.ChosenDefaultStays` | `src/funding_tool/core/account_store.py:190-194` | a chosen default survives every addition and every removal of others |
| `AccountStore.NamesByAge` | `src/funding_tool/core/account_store.py:165-174` | the index lists accounts by their latest addition |
| `AccountStore.FallbackIsOldest` | `src/funding_tool/core/account_store.py:185-187` | removing the default hands the role to the account held longest, if any is left |
| `AccountStore.RefusedChangesNothing` | `src/funding_tool/core/account_store.py:137-194` | a refused operation, even one a keyring write interrupted, changes neither index nor default nor any account's credentials |
| `Backtest.PayAll` | `src/funding_tool/core/backtest.py:64-72` | the loop appends the payment of each event |
| `Backtest.RunBacktest` | `src/funding_tool/core/backtest.py:54-131` | validation, payments and the figures of the report, with division by zero as an error |
| `Backtest.RejectedIff` | `src/funding_tool/core/backtest.py:31-38` | a backtest is rejected exactly for an empty period, or in a sized mode for a size that is missing or not positive |
| `Backtest.FailsIff` | `src/funding_tool/core/backtest.py:46-95` | a valid sized backtest divides by zero if and only if some event has price zero, and succeeds otherwise |
| `Backtest.RateOnlyFailsIff` | `src/funding_tool/core/backtest.py:102-108` | without a size it divides by zero if and only if its events stand for zero hours in all |
| `Backtest.NoEvents` | `src/funding_tool/core/backtest.py:74-101` | without events every figure is zero, and the totals are missing exactly without a size |
| `Backtest.OneMoreEvent` | `src/funding_tool/core/backtest.py:65-95` | in a sized mode one more event appends its payment and raises the quote total by that payment, the base total by the payment over its price, and the cumulative rate by its signed rate in percent |
| `Backtest.OneMoreRate` | `src/funding_tool/core/backtest.py:77-90` | without a size one more event raises the cumulative rate by its signed rate in percent, and there are no totals |
| `Backtest.QuantityHeld` | `src/funding_tool/core/backtest.py:41-51` | every payment is for the size itself, for what the size buys at the first event's price, or for one unit |
| `Backtest.LongPaysShort` | `src/funding_tool/core/backtest.py:26-28` | a long position pays its notional times the rate, a short one receives it, so longs pay exactly at positive rates |
| `Backtest.FlipSide` | `src/funding_tool/core/backtest.py:54-131` | for any events and prices, the other side has every payment, total, average and APR negated, and fails exactly alike |
| `Backtest.QuoteIsBase` | `src/funding_tool/core/backtest.py:44-48` | QUOTE with size S has the payments, totals and rates of BASE with size S over the entry price |
| `Backtest.TotalBaseIsShare` | `src/funding_tool/core/backtest.py:77-95` | the total in base units is quantity times cumulative rate |
| `Backtest.AverageIsCumulative` | `src/funding_tool/core/backtest.py:77-84` | average rate times event count is the cumulative rate, in every mode |
| `Backtest.AprIsYield` | `src/funding_tool/core/backtest.py:109-120` | the APR of a sized position is what one unit earns per unit of mean or entry price, per year |
| `Backtest.BaseAprIsTotal` | `src/funding_tool/core/backtest.py:92-120` | in BASE mode APR times the period times the mean notional is the quote total, a year being 31_557_600_000 milliseconds |
| `Backtest.QuoteAprIsTotal` | `src/funding_tool/core/backtest.py:92-120` | in QUOTE mode APR times the period times the size is the quote total |
| `Backtest.NotionalsAddUp` | `src/funding_tool/core/backtest.py:104-113` | the notionals and hours that the means divide add up event by event |
| `Backtest.AprIgnoresSize` | `src/funding_tool/core/backtest.py:109-120` | the APR does not depend on the size |
| `Backtest.AprIsWeightedMean` | `src/funding_tool/core/backtest.py:97-120` | in BASE mode, APR times years per event lies between any bounds of the signed rates |
| `Backtest.ConstantPriceApr` | `src/funding_tool/core/backtest.py:97-120` | at a constant price APR times years is the cumulative rate |
| `Backtest.RateOnlyApr` | `src/funding_tool/core/backtest.py:102-108` | without a size, APR times the hours the events stand for is the cumulative rate times a year's hours |
| `CsvExport.CellReadsBack` | `frontend/src/formatters.ts:32-37` | whatever a cell holds, reading its escaped form before a separator or the end gives it back |
| `CsvExport.TextReadsBack` | `frontend/src/components/HistoryTable.tsx:64-66` | a reader for section 2 of RFC 4180, with LF between records, returns exactly the grid, for every grid with a row and a cell in each |
| `CsvExport.AnyTextReadsBack` | `frontend/src/components/HistoryTable.tsx:64-66` | every grid reads back with its missing cells filled in as empty ones |
| `CsvExport.RoundTripIff` | `frontend/src/components/HistoryTable.tsx:64-66` | the round trip returns the grid if and only if it has a row and every row has a cell |
| `CsvExport.ExportReadsBack` | `frontend/src/components/HistoryTable.tsx:56-69` | the exported file, byte order mark included, reads back as the header and one row per shown record |
| `CsvExport.ExportedCells` | `frontend/src/components/HistoryTable.tsx:57-63` | read back, the file has the four headings and then for each record, in order, its formatted time, symbol, amount and transaction id |
| `CsvExport.ExportStartsWithMark` | `frontend/src/components/HistoryTable.tsx:67-68` | the file is a byte order mark and the text |
| `CsvExport.QuotedOnlyIfNeeded` | `frontend/src/formatters.ts:32-37` | a cell is written as it is if and only if it holds no comma, quote, line feed or carriage return |

## Left out

- Time conversion: instants are integer milliseconds; the float arithmetic of `to_ms` and `from_ms`, sub-millisecond window ends and naive timezones are not modelled.
- Decimal rounding: amounts, rates and prices are reals, without the 28-digit context; a division by zero of either Decimal kind is one error.
- Changing funding intervals: one interval per symbol in the theorems about fetches and the remote history; the gap lemmas of `FundingRateCache` vary it per row.
- The remote side of `fetch_funding_rates` and `fetch_funding_income` does not change while a run lasts, shows strictly ascending rates and klines, and ascending income; unique transaction ids are a hypothesis of the income theorems.
- HTTP transport, query signing, time offset, logging and `verify_credentials`; a network error inside a fetch appears as `AbortedFetch`, one inside an income fetch not at all.
- `fetched_at`, `stats`, `check_integrity` and SQLite itself; the table is a map and a statement is atomic.
- FundingRateCache.SqliteFundingRateCache.MissingRanges: its branches are in `RangesAround` and its loop in `InteriorRanges`, methods over the list of rows.
- IncomeFetch.IterIncomePages: the generator is run to its end before its records are looked at; nothing else reads the history in between.
- Ordering.Listed: stands for SQL's ORDER BY and Python's sorted on keys, and `SortedByTime` for the stable sort; how those sort is not modelled.
- AccountHistory.RunAccountHistory: the calendar is a parameter giving each instant its month.
- AuthLockout.AuthVerifier.Verify: one call at a time, with base64, bcrypt and the comparison of names reduced to whether the credentials are right; two interleaved calls can exceed the table's bound, and `reset` is not part of the runs.
- TaskManager.Manager.FinishRun: cancelled tasks, failing disk writes, the JSON round trip of payloads, aliasing of the live status dictionary and unreadable files are not modelled; fresh task ids are part of what makes a run feasible.
- TaskPoll.PollingHook.Respond: a status carries the id of the task it was asked for, which the real payload does not; React's batching and rendering, and renders with unchanged dependencies, are not modelled.
- HttpRetry.HttpClient.GetJson: the loop body's branches are in `Classify`; left out are a Retry-After of NaN or infinity, a body that is not JSON, and the texts of errors; attempts and jitter are inputs.
- AccountStore.Store.AddAccount: timestamps, the verified flag, YAML files and failing saves are not modelled; the keyring probe and the number of writes that go through are inputs.
- AccountStore.Store.GetCredentials: the keyring can be read at that moment; `resolve_credentials` is left out, and so is an entry that lacks a field.
- Backtest.RunBacktest: the events are an input, since what a fetch returns is the subject of the funding modules; unknown size modes cannot be written down.
- CsvExport.ExportReadsBack: column sorting, timestamp formatting (a parameter) and the download are not modelled.
- `SecretStore`, CSRF checks, log scrubbing, audit log, CLI, routes, charts, number formatting and deployment files: wrappers around libraries or presentation, without state of their own to keep right.
