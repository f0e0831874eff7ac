# Verified models of the Iran market-data backend

This project models the parts of the backend whose answers rest on arithmetic, on
state kept between calls, or on a fast pass standing in for a simple rule, and
proves what those parts promise. `dafny verify dfyconfig.toml` checks all of it.

What is modelled, one group of modules per component:

- **Money flow of the whole market** (`Flows`, `Coverage`, `MarketCalendar`,
  `SessionWindows`, `SectorFlows`, `SectorFlowLaws`, `Companies`, `PriceChain`,
  `MarketFlows`, `MarketFlowLaws`, `MarketFigures`, `MarketAnswers`): the calendar of market sessions, the four tiers
  of a row, the mutable accumulators, the build that sums rows into shares, sectors,
  blocks and the market, coverage, listing sessions and chain-linked price changes,
  companies and their top lists. The laws are conservation (every level is the sum
  of the level below and of the rows themselves), bounds, every figure and every
  answer of a report read off the stored rows and prices, and one theorem about
  order: two reports built from the same stored shares, rows, prices and day files,
  read in any order and walked in any order, agree in every figure.
- **Back-adjusted prices** (`Adjustment`, `ChartPages`): detecting corporate
  actions, chaining factors, and the chart that serves adjusted sessions page by
  page. `PriceChain` says exactly when the adjusted return and the chain-linked
  change are the same number.
- **The incremental fetch** (`FlowFetch`, `FetchRuns`): what one run ships of a
  share's history, and what any sequence of runs leaves on a server that adds
  and never overwrites.
- **The point-in-time read** (`PointInTime`, `CursorPages`): the newest vintage of
  each period knowable at a cutoff, and the page walk that returns all of them.
- **Index arithmetic** (`IndexSeries`, `Regression`, `Relative`, `Indicators`):
  windows, returns, drawdown, beta and correlation, ADX, %K and %R.
- **Two small state machines** (`RateLimiter`, `Lockout`): the token bucket with its
  evictor and the login lockout, over whole runs of calls.
- **The SQL scanner** (`SqlText`) behind the migration checker.

`Folds`, `Tallies`, `Orders`, `DateSets`, `Reals` and `Wrappers` hold what these share:
sums over a commutative monoid in any order and grouping, counts and sums of the
elements that have a property, arrangement by a strict order, sorted day sets, and the
two value-or-nothing types.

Conventions. Days, instants and counts are integers; money, prices and ratios are
exact reals, so results are stated before the rounding to six decimals (or four,
for beta) that the responses apply. Tolerances are the source's: 0.1 percent, 1
percent, 90 percent. A correlation is stated by its three sums, and that it lies
in [-1, 1] by `xy * xy <= xx * yy`, which needs no square root. A walk over a Go
map takes its keys in an arbitrary order. A library sort is `Orders.Sort`. The
statements sent to the database are functions over the stored rows, with the
guarantees the schema gives: one row per period and vintage
(`database/migrations/0024_instruments_economic_series.up.sql:198`), positive closes
(`database/migrations/0028_equity_bars.up.sql:208`,
`database/migrations/0029_tehran_market.up.sql:117`). The clock is a parameter that
never runs backwards, and a mutex is the atomicity of one call.

Where the code and its own documentation differ, or where a natural claim is false:

- A flow run whose floor is later than everything stored leaves a stretch out for
  later runs to see as interior. `LateFloorLeavesHole` says exactly when, and
  `LateFloorHole` and `LateFloorHoleStays` give a store and a run where it happens. The
  comment on `trim_client_types` (`scripts/tsetmc_fetch.py:659`) promises that no such
  stretch is missing for good; it looks only at floors that come down again, below
  everything stored. A stretch inside the newest ten sessions is filled by the
  overlap of a later run (`HoleIsFilledExactly`), and a deeper one never is
  (`DeepHoleIsPermanent`).
- The back-adjusted return equals close over reference on a bar exactly when the
  bar's finding stands at that reference (`ReturnAgainstReference`); a bar whose
  close was restated in place (`CloseRestatedInPlace`), or whose break is contested
  (`ContestedBreakDiffers`), does not. Whatever the listing session, the return over
  every span equals the chain exactly when every bar is consistent
  (`ReturnsAgreeExactly`), and the percentages a share's windows are answered with
  are its back-adjusted returns exactly then, unless no window is answered at all
  (`AnswersAgreeExactly`).
- `pairsInWindow` and `withBase` differ when a window runs backwards past the point
  in force at its start; `SameWindowExactly` gives the condition for every window,
  forwards or backwards, and `BackwardWindowDiffers` a window where they part.
- The roster's check and the market's classification accept the same session only
  under a condition on its values, its volumes and its daily bar (`GatesAgreeExactly`);
  each accepts sessions the other refuses (`MarketAloneAccepts`,
  `RosterAloneAccepts`).
- A beta's `multi_session_spans` also counts spans over which the index had no
  session at all (`SpanWithoutSessions`), which the messages call "longer spans". It is
  the number of spans of two sessions or more exactly when every span with values at
  both ends holds a session (`CountIsRightExactly`).
- The last answer of `chainLinkedChange`, that no closing price is stored in the window
  (`backend-go/internal/bourse/sectorflows.go:891`), is never given: a share that traded
  then lacks a price for a traded day, and one that did not is at rest (`AnswerExactly`).
- ADX is a percentage for any prices at all, not only for valid bars.

## Model

| member | source | states |
|---|---|---|
| `RateLimiter.Limiter.constructor` | backend-go/internal/httpserver/middleware.go:187-197 | a limiter starts with no bucket; sixty times its rate per second is the limit per minute, and its burst the limit |
| `RateLimiter.Limiter.Allow` | backend-go/internal/httpserver/middleware.go:200-219 | the answer and the whole new table, in the limit per minute: a new key finds the limit, a waiting one gains limit * nanoseconds / 60e9 up to the limit, one token is taken exactly when there is one, other keys are untouched |
| `RateLimiter.Limiter.Cleanup` | backend-go/internal/httpserver/middleware.go:227-245 | in whatever order the table is walked, exactly the buckets idle for more than 600,000,000,000 nanoseconds go |
| `RateLimiter.StepKeepsBounds` | backend-go/internal/httpserver/middleware.go:200-245 | for a limit of zero or more, every call and every sweep keeps all buckets within [0, burst] and not later than the clock |
| `RateLimiter.AvailableInBurst` | backend-go/internal/httpserver/middleware.go:204-213 | and what a call would find, seen key or new, is within [0, burst] |
| `RateLimiter.SimulatedAnswersAgree` | backend-go/internal/httpserver/middleware.go:200-245 | for a limit of zero or more, from any state in bounds, a table that evicts and one that does not answer every later call alike |
| `RateLimiter.EvictionIsInvisible` | backend-go/internal/httpserver/middleware.go:200-245 | for every rate and every run of calls and sweeps under a clock that never runs back, answers equal those of a limiter that never evicts |
| `RateLimiter.NonPositiveRateRefuses` | backend-go/internal/httpserver/middleware.go:187-219 | a limit of zero or less refuses every call |
| `RateLimiter.AdmissionBound` | backend-go/internal/httpserver/middleware.go:200-219 | for a limit of zero or more (below it nothing is admitted), in any stretch of any run whose calls of a key lie in [lo, hi], admitted * 60e9 <= limit * (60e9 + (hi - lo)), evictions included |
| `RateLimiter.FoundExactly` | backend-go/internal/httpserver/middleware.go:204-213 | what a call finds, in the limit per minute and the nanoseconds waited |
| `RateLimiter.PacedCallIsAdmitted` | backend-go/internal/httpserver/middleware.go:200-219 | the rate from below: in any run, a key whose calls lie at least 60e9 / limit nanoseconds apart is never refused |
| `Lockout.LoginLockout.IsLocked` | backend-go/internal/auth/lockout.go:36-41 | locked exactly when the account's entry is locked beyond now |
| `Lockout.LoginLockout.Fail` | backend-go/internal/auth/lockout.go:45-71 | the answer and the whole new table; of other accounts, an entry is gone exactly when the table held 10000 or more and the entry is past fifteen minutes and its lock |
| `Lockout.LoginLockout.Sweep` | backend-go/internal/auth/lockout.go:51-57 | walked in any order, exactly the entries past fifteen minutes and past their lock go |
| `Lockout.LoginLockout.Success` | backend-go/internal/auth/lockout.go:74-78 | forgets the account and nothing else |
| `Lockout.SweepIsInvisible` | backend-go/internal/auth/lockout.go:51-57 | for every run, all answers equal those of a table that is never swept |
| `Lockout.LockedExactly` | backend-go/internal/auth/lockout.go:36-78 | after any run an account is locked if and only if one of its failures locked it, no success followed, and the full duration has not passed |
| `Lockout.QueryAnswer` | backend-go/internal/auth/lockout.go:36-78 | the same if-and-only-if for the answer the running guard, sweeps included, gives to a query anywhere in a run |
| `Lockout.LockNeedsFiveFailures` | backend-go/internal/auth/lockout.go:60-69 | a lock comes after exactly four failures of the account within the fifteen minutes before it, none of them locking and with no success in between |
| `Lockout.FifthFailureLocks` | backend-go/internal/auth/lockout.go:58-70 | and conversely: a failure after fifteen quiet minutes, three more without a success, and a fifth within fifteen minutes of the first always lock |
| `Lockout.FailureAnswer` | backend-go/internal/auth/lockout.go:45-71 | in any run, sweeps included, the guard answers a recorded failure with whether it locked the account |
| `Lockout.FailuresPerWindow` | backend-go/internal/auth/lockout.go:58-70 | in fifteen minutes without a lock or a success at most eight failures are recorded |
| `Lockout.EightFailuresInOneWindow` | backend-go/internal/auth/lockout.go:58-70 | a run with eight such failures exists, so the bound is met |
| `SqlText.SplitIsSegmentation` | scripts/check_migrations.py:67-120 | every text splits into segments (code, line comment, block comment, literal, dollar quote; only the last may be unclosed) that spell it out |
| `SqlText.SegmentationIsUnique` | scripts/check_migrations.py:67-120 | no text has two segmentations |
| `SqlText.LastOfDollarQuote` | scripts/check_migrations.py:110-116 | where the scan goes on behind a dollar quote, closed or not |
| `SqlText.ScanTurn` | scripts/check_migrations.py:84-119 | one turn of the loop moves forward, keeps at most one flag set, and follows the grammar's step |
| `SqlText.ExecutableSql` | scripts/check_migrations.py:70-120 | for every input the scan ends and returns the images of the text's segments, in order |
| `SqlText.BodiesNeverLeak` | scripts/check_migrations.py:70-79 | texts that differ only inside comments, literals and dollar bodies have the same executable text, unclosed segments included |
| `SqlText.LineCommentLeavesBreak` | scripts/check_migrations.py:86-103 | a line comment leaves its line break, whatever follows |
| `SqlText.BlockCommentLeavesNothing` | scripts/check_migrations.py:90-106 | a block comment leaves nothing and ends at its first terminator |
| `SqlText.LiteralLeavesQuotes` | scripts/check_migrations.py:94-109 | a literal leaves its two quotes |
| `SqlText.DollarQuoteLeavesDelimiters` | scripts/check_migrations.py:67-116 | a dollar quote, its tag empty or of letters, digits and underscores, leaves its two delimiters |
| `SqlText.CodeStays` | scripts/check_migrations.py:117-118 | a character that opens nothing stays as it is |
| `SqlText.OnlyCommentsExactly` | scripts/check_migrations.py:73-79 | the executable text is blank if and only if every segment is a comment or blank code, so a statement with an empty literal is still seen |
| `FlowFetch.CheckClientTypes` | scripts/tsetmc_fetch.py:590-636 | accepted exactly when all rows are the share's with real dates and no shipped session repeats; then what is kept and the dates dropped; otherwise the error of the first faulty row |
| `FlowFetch.NoShippableRowDropped` | scripts/tsetmc_fetch.py:602-616 | every row on or after the floor of an accepted payload survives the check and the keying by date |
| `FlowFetch.FirstFetchIsExact` | scripts/tsetmc_fetch.py:654-664 | with nothing stored, newest first, exactly the rows from the floor on; None exactly when there are none |
| `FlowFetch.LaterFetchIsExact` | scripts/tsetmc_fetch.py:648-680 | with something stored, newest first, exactly the missing rows at or above the floor and the overlap's newest stored ones; None exactly when nothing is missing |
| `FetchRuns.ShipmentIsExact` | scripts/tsetmc_fetch.py:834-903 | what one run ships, from an empty or a filled store, is exactly what the run wants, and nothing exactly when nothing is lacking |
| `FetchRuns.StoredAfter` | prediction-python/app/bourse/ingest.py:631-745 | the store afterwards: the old dates with their old rows, and the wanted dates before the settled cutoff with the history's |
| `FetchRuns.RunCompletes` | scripts/tsetmc_fetch.py:639-680 | a run that reaches a gap-free store leaves the old dates plus every settled history date at or above its floor |
| `FetchRuns.RunKeepsGapFree` | scripts/tsetmc_fetch.py:654-664 | an admissible run, reached or not, leaves the store gap-free in the longer history |
| `FetchRuns.ReshippedAtMostOverlap` | scripts/tsetmc_fetch.py:656-658 | at most ten stored sessions are shipped again |
| `FetchRuns.RunsStayGapFree` | scripts/tsetmc_fetch.py:639-680 | over any sequence of runs on a growing history, floors absent or not later than the newest stored date, the store stays gap-free and no stored row changes |
| `FetchRuns.LateFloorLeavesHole` | scripts/tsetmc_fetch.py:659-663 | a run with a floor later than everything stored keeps the store gap-free if and only if it skips no date below one it stores |
| `FetchRuns.LateFloorHole` | scripts/tsetmc_fetch.py:659-663 | one stored day, three served and a floor on the third: the store gets a hole |
| `FetchRuns.HoleIsFilledExactly` | scripts/tsetmc_fetch.py:673-680 | a missing interior date is filled by a run if and only if the run ships and reaches the store, its floor and cutoff admit the date, and fewer than ten sessions lie after it up to the newest stored one |
| `FetchRuns.DeepHoleIsPermanent` | scripts/tsetmc_fetch.py:673-680 | a hole behind ten newer sessions is never filled, by any later runs with any floors |
| `FetchRuns.LateFloorHoleStays` | scripts/tsetmc_fetch.py:659-680 | with twelve days served, the day the floor skipped is never stored, whatever runs follow |
| `FetchRuns.OffsetsPartition` | scripts/tsetmc_fetch.py:1185-1212 | every item of a manifest part lies in exactly one chunk |
| `FetchRuns.IngestChunks` | scripts/tsetmc_fetch.py:1185-1212 | whatever the service replies the walk ends at strictly rising offsets inside the part, each where the reply to the call before sends it: behind the chunk of a failed call, to a named offset further on, else to the end; with honest replies or failed calls it posts exactly the consecutive chunks |
| `CursorPages.OneExtraIsEnough` | backend-go/internal/economic/handlers.go:734-739 | fetching one row beyond the page serves the same page, flag and cursor as fetching everything |
| `CursorPages.NextPageFollows` | backend-go/internal/economic/handlers.go:917-921 | there is a cursor exactly when more than a page is left, and it continues right behind the page |
| `CursorPages.WalkReadsEverything` | backend-go/internal/economic/handlers.go:1038-1046 | the pages of a complete walk, put oldest first, are exactly the whole list behind the cursor |
| `PointInTime.ApplyPointInTime` | backend-go/internal/economic/handlers.go:951-978 | newest period first, exactly one row per period with an eligible row, and it is a maximum by (available_at, vintage) |
| `PointInTime.BestIsNewest` | backend-go/internal/economic/handlers.go:983-990 | the row served for a period is eligible, and every other eligible row of the period became available earlier, or at the same time with no higher vintage |
| `PointInTime.ViewOnRows` | backend-go/internal/economic/handlers.go:951-990 | the view on the rows: every period with an eligible row once, newest first, by such a row |
| `PointInTime.PageIsOfRows` | backend-go/internal/economic/handlers.go:998-1046 | the page on the rows: the newest `limit` such periods behind the cursor, each by its newest row, with the flag true exactly when an older one is left |
| `PointInTime.ViewIsUnique` | backend-go/internal/economic/handlers.go:951-988 | the view depends neither on the order of the rows nor on the walk over the map |
| `PointInTime.LateRowsAreInvisible` | backend-go/internal/economic/handlers.go:915-918 | rows that became available after the cutoff change nothing |
| `PointInTime.ReducedPageIsFixed` | backend-go/internal/economic/handlers.go:942-947 | reducing an already reduced page gives that page, and can give nothing else |
| `PointInTime.RestrictedView` | backend-go/internal/economic/handlers.go:922-935 | restricting the rows to some periods restricts the view to them |
| `PointInTime.OlderIsViewBefore` | backend-go/internal/economic/handlers.go:919-935 | the view behind a cursor is the whole view's part behind it |
| `PointInTime.SelectObservations` | backend-go/internal/economic/handlers.go:922-935 | the statement's answer is the newest rows of the view behind the cursor, already reduced |
| `PointInTime.Render` | backend-go/internal/economic/handlers.go:1048-1068 | the rows come out oldest first, with the set of vintages and the number of projections among them |
| `PointInTime.BuildPage` | backend-go/internal/economic/handlers.go:998-1046 | the page is the newest `limit` periods, with its flag, its cursor, vintages and projections |
| `PointInTime.BuildResponse` | backend-go/internal/economic/handlers.go:998-1073 | the response over any answer of the statement, with exactly the vintages served, ascending |
| `PointInTime.Observations` | backend-go/internal/economic/handlers.go:1080-1131 | the page served for a cursor is the one cut from the whole view, on the rows the newest eligible vintage of each of the newest `limit` periods, named with its number of rows, of projections and its vintages; the next cursor is a stored period strictly before it |
| `PointInTime.FollowNextBefore` | backend-go/internal/economic/handlers.go:1038-1046 | following the cursor terminates and returns the whole view, each admitted period once, chronological, by its newest row |
| `PointInTime.HasMoreExactly` | backend-go/internal/economic/handlers.go:734-739 | has_more is true exactly when an eligible row of an older period than the page's oldest exists |
| `ChartPages.RangeFlagSurvivesScaling` | backend-go/internal/equities/chart.go:288-316 | the flag decided on raw prints is the truth about the adjusted ones |
| `ChartPages.DrawnToScale` | backend-go/internal/equities/chart.go:285-316 | counts are the stored ones, every price is to its stored one as the close is, and it is there exactly when the session traded, the range only with three positive prints |
| `ChartPages.RowsExactly` | backend-go/internal/equities/handlers.go:873-900 | the rows of a window are the stored bars from its start on, each with the factor of the first action after it |
| `ChartPages.BuildChartBars` | backend-go/internal/equities/chart.go:251-276 | the newest `limit` rows, oldest first, whether one more was read, and how many traded bars have no range |
| `ChartPages.BuildCandlePage` | backend-go/internal/prices/tehran_candles.go:334-364 | the newest `limit` of the fetched sessions, the flag, and the page's oldest day as cursor |
| `ChartPages.ChartPage` | backend-go/internal/prices/tehran_candles.go:566-602 | the page is the same with and without overlays: the newest `limit` adjusted sessions before the exclusive cursor; on the stored days, no bar left out is newer than one shown, none is left out while there is room, and has_more is true exactly when an older one exists |
| `ChartPages.ScrollBack` | backend-go/internal/equities/chart.go:150-167 | scrolling to the end terminates and shows every adjusted session behind the cursor once, in date order |
| `ChartPages.ChartShowsAdjustedSeries` | backend-go/internal/equities/handlers.go:873-900 | the closes of the whole chart are the back-adjusted series of the stored bars |
| `Adjustment.DetectActions` | prediction-python/app/equities/adjust.py:550-662 | fails exactly when some break has no usable prices, naming such a bar; otherwise lists exactly the bars that show an action, with their ratio and kind, and exactly the contested ones |
| `Adjustment.FindExactly` | prediction-python/app/equities/adjust.py:550-662 | when two bars chain, break contestedly, break without usable prices or restate, on their prices and the served copies, and the ratio as what carries one price to the other |
| `Adjustment.ChainAt` | prediction-python/app/equities/adjust.py:665-674 | an action's cumulative factor is the product of its own and every later ratio |
| `Adjustment.ChainFactors` | prediction-python/app/equities/adjust.py:681-699 | the running product from the newest action gives those factors |
| `Adjustment.FactorAfterFrom` | prediction-python/app/equities/adjust.py:717-722 | the cursor of the two-sequence walk finds the first action strictly after the day |
| `Adjustment.ApplyFactors` | prediction-python/app/equities/adjust.py:702-723 | the linear walk adjusts every bar by the factor the per-bar rule of the SQL gives |
| `Adjustment.FactorAfterSplit` | prediction-python/app/equities/adjust.py:668-673 | a bar's factor is the product of the ratios of all actions after it |
| `Adjustment.ActionsBetween` | prediction-python/app/equities/adjust.py:668-673 | between two bars lies the later one's action, if it has one, and no other |
| `Adjustment.FactorStep` | prediction-python/app/equities/adjust.py:665-679 | from one bar to the next the factor changes by exactly the later bar's ratio |
| `PriceChain.ListingSession` | backend-go/internal/bourse/sectorflows.go:795-818 | the loop finds the first stored session and answers it when its first priced row is beyond the bound |
| `PriceChain.ListingExactly` | backend-go/internal/bourse/sectorflows.go:785-818 | with one price a day, the listing session is exactly the first stored one whose close lies beyond the bound of its reference |
| `PriceChain.BeyondExactly` | backend-go/internal/bourse/sectorflows.go:812 | the bound without its quotients: more than five quarters or less than four fifths of the reference |
| `PriceChain.ScanRows` | backend-go/internal/bourse/sectorflows.go:856-878 | the pass holds the priced days, the product of the moves without the listing session, and whether the listing row is in the window |
| `PriceChain.ChainLinkedChange` | backend-go/internal/bourse/sectorflows.go:849-902 | which of the five answers a window gets, and the percentage when it moved, both on the rows: no percentage while a traded day has no usable price row in the window |
| `PriceChain.AnswerExactly` | backend-go/internal/bourse/sectorflows.go:866-894 | each answer if and only if a condition on rows and traded days: unpriced when some traded day has no usable row in the window; moved when none lacks one and some priced day is not the listing; listed only; at rest; and never the fifth |
| `PriceChain.MissingExactly` | backend-go/internal/bourse/sectorflows.go:866-882 | the number named is the number of positions of the traded list without a usable row |
| `PriceChain.MovedExactly` | backend-go/internal/bourse/sectorflows.go:849-895 | the percentage is the product of close over reference of the usable rows that are not the listing session, less one |
| `PriceChain.AdjacentWindowsMultiply` | backend-go/internal/bourse/sectorflows.go:832-878 | the chain over two adjacent windows is the product of their chains |
| `PriceChain.AdjacentChangesCompound` | backend-go/internal/bourse/sectorflows.go:832-902 | when both windows have a change so has the whole one, and the two compound to it |
| `PriceChain.OrderDoesNotMatter` | backend-go/internal/bourse/sectorflows.go:1301-1315 | the chain is the same for every order of the rows |
| `PriceChain.StepOfBar` | prediction-python/app/equities/adjust.py:550-662 | for any listing session, a bar's own ratio times its chained move is its close over the previous one exactly when the bar is consistent |
| `PriceChain.ReturnAgainstReference` | backend-go/internal/equities/handlers.go:873-878 | on every bar the adjusted close moves as close against reference if and only if the bar is unbroken or its reference restated |
| `PriceChain.ReturnsAgreeExactly` | backend-go/internal/bourse/sectorflows.go:849-878 | for any listing session, the back-adjusted return equals the chain over all spans if and only if every bar is consistent |
| `PriceChain.AnswersAgreeExactly` | backend-go/internal/bourse/sectorflows.go:849-902 | every percentage answered for a window between two bars is the back-adjusted return over it if and only if all bars are consistent or no window is answered at all |
| `PriceChain.CloseRestatedInPlace` | prediction-python/app/equities/adjust.py:550-662 | a halted bar with a restated close, whose adjusted close does not move against its reference |
| `PriceChain.ContestedBreakDiffers` | prediction-python/app/equities/adjust.py:309-326 | two traded bars with a contested break, whose answered change is not the back-adjusted return |
| `PriceChain.AnyTradedOrder` | backend-go/internal/bourse/sectorflows.go:1204-1215 | the order in which traded days are collected does not matter to the answer |
| `IndexSeries.InForceIsNewest` | backend-go/internal/bourse/stats.go:34-41 | the point in force is the newest one not after the day, and there is none only when all are later |
| `IndexSeries.WithBaseIsContiguous` | backend-go/internal/bourse/stats.go:87-102 | a forward window opened with its base is one contiguous stretch of the series |
| `IndexSeries.WindowOnDays` | backend-go/internal/bourse/stats.go:70-102 | any window on the days, forwards or backwards: exactly the points from its start to its end and the newest one not after its start, in order |
| `IndexSeries.SameWindowExactly` | backend-go/internal/bourse/breadth.go:53-71 | for all bounds, the pairs' window is the index's window if and only if the point in force at its start is not past its end |
| `IndexSeries.BackwardWindowDiffers` | backend-go/internal/bourse/breadth.go:53-71 | one point and a window running backwards past it: the index keeps its base, the pairs have none |
| `IndexSeries.PairSeries` | backend-go/internal/bourse/breadth.go:39-51 | exactly the dates both series carry, in order, each with both points |
| `IndexSeries.MarkUnchanged` | backend-go/internal/bourse/series.go:216-220 | in place, a point is flagged exactly when it is not the first and repeats its predecessor; days and values stay |
| `IndexSeries.StretchOfMarked` | backend-go/internal/bourse/series.go:216-220 | any tail of a rightly flagged series is rightly flagged |
| `IndexSeries.SessionReturns` | backend-go/internal/bourse/stats.go:107-120 | one return for each point that moved after a positive one, in order, and no other; it turns the value before into the value there |
| `IndexSeries.WindowReturnExactly` | backend-go/internal/bourse/stats.go:51-67 | when a window has a return, why not otherwise, and that it turns the newest value not after the start into the last one |
| `IndexSeries.ReturnsCompoundExactly` | backend-go/internal/bourse/stats.go:104-120 | although repeats are skipped, the returns compound to exactly last over first |
| `IndexSeries.WindowReturnCompounds` | backend-go/internal/bourse/stats.go:51-67 | a window's return is what its session returns, base included, compound to |
| `IndexSeries.FlaggedReturnCompounds` | backend-go/internal/bourse/series.go:216-220 | of any stored series, once flagged in place: its window returns are what its session returns compound to |
| `IndexSeries.WorstFallIsWorst` | backend-go/internal/bourse/stats.go:159-183 | no pair of points in order falls further than the single pass reports: fall * earlier <= later - earlier |
| `IndexSeries.WorstFallIsZeroExactly` | backend-go/internal/bourse/stats.go:159-183 | the fall is never positive, and zero exactly for a series that never goes down |
| `IndexSeries.MaxDrawdown` | backend-go/internal/bourse/stats.go:159-192 | the worst fall in percent, reached from the reported peak to the reported trough, with its recovery; no dates without a fall |
| `IndexSeries.FirstRecovery` | backend-go/internal/bourse/stats.go:184-190 | the first point after the trough back at the peak, when there is one |
| `IndexSeries.RecoveryIsFirst` | backend-go/internal/bourse/stats.go:184-190 | every point between trough and recovery is below the peak, and all later ones are when there is no recovery |
| `IndexSeries.ScreenMaxDrawdown` | backend-go/internal/equities/screen.go:823-846 | the screener's own pass returns the same number, and some pair of its values falls by it |
| `Regression.CentredAtMean` | backend-go/internal/bourse/stats.go:261-266 | the mean is the one centre the deviations cancel around |
| `Regression.ErrorOfLine` | backend-go/internal/equities/market.go:323-338 | the squared error of any line in terms of the three sums and its distance from the two means |
| `Regression.SlopeMinimisesError` | backend-go/internal/equities/market.go:317-338 | covariance over variance, through both means, has at most the squared error of any line, and no other line has as little |
| `Regression.LeastSquaresIsBest` | backend-go/internal/equities/market.go:333-338 | that slope is the best line's |
| `Regression.CorrelationIsBounded` | backend-go/internal/bourse/stats.go:267-280 | the square of the covariance sum is at most the product of the variance sums |
| `Regression.SpreadExactly` | backend-go/internal/bourse/stats.go:273-275 | a variance sum is zero exactly when all values are equal |
| `Regression.Average` | backend-go/internal/bourse/stats.go:261-266 | the deviations from the computed mean cancel |
| `Regression.Accumulate` | backend-go/internal/bourse/stats.go:267-272 | one pass gives the three sums of products of deviations |
| `Regression.Pearson` | backend-go/internal/bourse/stats.go:257-280 | defined exactly for two equally long samples of at least three values, each with some spread; then within [-1, 1] |
| `Regression.Slope` | backend-go/internal/equities/market.go:317-338 | defined exactly when the index moved; then no line beats it |
| `Relative.SelectTraded` | backend-go/internal/equities/market.go:352-372 | the loop selects the usable sessions of the window opened with the one in force, by the rule of the index windows |
| `Relative.UsableExactly` | backend-go/internal/equities/market.go:357-369 | usable are exactly the sessions that traded, have a price and are not after the end |
| `Relative.MarketSessionsBetween` | backend-go/internal/equities/market.go:287-296 | the number of index points in (a, b] that changed |
| `Relative.SessionsAreCounted` | backend-go/internal/equities/market.go:287-296 | that number as a tally of the index's points |
| `Relative.SessionsAdd` | backend-go/internal/equities/market.go:283-296 | adjacent spans share no session and miss none |
| `Relative.SpansCoverTheMarket` | backend-go/internal/equities/market.go:287-315 | the spans of a share's trades add up to the market's sessions between its first and last trade |
| `Relative.EverySpanIsCounted` | backend-go/internal/equities/market.go:303-315 | every span is used, counted as longer, or skipped for want of a value |
| `Relative.MatchSpans` | backend-go/internal/equities/market.go:300-316 | the two samples and the count of other spans, from the walk over consecutive trades, with the positions the samples come from |
| `Relative.MatchedBeta` | backend-go/internal/equities/market.go:300-347 | the samples, in order, are later over earlier adjusted close less one and later over earlier value in force less one, over exactly the valued spans of one index session; pairs, counted spans and skipped spans make up all spans; the count is that of longer spans exactly when no span is empty; beta exists exactly with twenty pairs and a moving index, no line beats it, and it is k when every share return is k times the index's; correlation exactly when the share moved too, within [-1, 1] |
| `Relative.SpansGiveReturns` | backend-go/internal/equities/market.go:303-316 | the samples of any trades and any index, on adjusted closes and values in force |
| `Regression.ProportionalSlope` | backend-go/internal/equities/market.go:317-338 | when one sample is k times the other, the slope no line beats is k |
| `Relative.CountIsRightExactly` | backend-go/internal/equities/market.go:303-315 | the count of other spans is the number of spans of at least two sessions if and only if every span with values at both ends holds a session |
| `Relative.SpanWithoutSessions` | backend-go/internal/equities/market.go:311-314 | a span without any index session that is counted |
| `Indicators.WilderIsNonNegative` | backend-go/internal/indicators/expanded.go:34-58 | Wilder smoothing keeps the three sums non-negative, whatever the bars |
| `Indicators.WilderFits` | backend-go/internal/indicators/expanded.go:34-58 | it keeps the two movements within the range when every move is |
| `Indicators.DirectionalMoves` | backend-go/internal/indicators/expanded.go:18-33 | true range and directional movement of every bar |
| `Indicators.DirectionalIndex` | backend-go/internal/indicators/expanded.go:34-58 | the loop's running sums are the smoothed ones, and the index is theirs |
| `Indicators.AverageDx` | backend-go/internal/indicators/expanded.go:59-73 | the mean of the first values, then the running one, from the first defined bar on |
| `Indicators.Adx` | backend-go/internal/indicators/expanded.go:13-74 | the whole output, undefined positions and refused input included |
| `Indicators.AdxExactly` | backend-go/internal/indicators/expanded.go:13-74 | on the prices: ranges and movements of the bars, sums smoothed from the plain ones over the first period, directional indices as difference in percent of the sum, and their running average, without a quotient; defined from bar 2 * period - 1 on and nowhere else |
| `Indicators.AdxIsAPercentage` | backend-go/internal/indicators/expanded.go:13-74 | defined exactly from bar 2 * period - 1 on, and then in [0, 100] for any prices |
| `Indicators.DirectionalIndicatorsFit` | backend-go/internal/indicators/expanded.go:34-58 | over bars closing inside their range, the two directional indicators together stay in [0, 100] |
| `Indicators.WindowExtremes` | backend-go/internal/indicators/expanded.go:84-91 | the scan from the newest bar finds the window's highest high and lowest low |
| `Indicators.FastLine` | backend-go/internal/indicators/expanded.go:83-97 | %K at every bar |
| `Indicators.SignalLine` | backend-go/internal/indicators/expanded.go:98-105 | %D is the mean of the last %K values once that many exist |
| `Indicators.Stochastic` | backend-go/internal/indicators/expanded.go:79-106 | both lines, with every position refused input leaves undefined |
| `Indicators.WilliamsR` | backend-go/internal/indicators/expanded.go:111-130 | %R at every bar, undefined where its window is not covered |
| `Indicators.WilliamsIsShiftedStochastic` | backend-go/internal/indicators/expanded.go:79-130 | %R is %K less 100 wherever either exists, flat windows included |
| `Indicators.PlacedExactly` | backend-go/internal/indicators/expanded.go:79-130 | %K and %R on the prices: the close's distance from the window's lowest low and highest high in percent of the window, 50 and -50 when it is flat; defined from bar period - 1 on and nowhere else |
| `Indicators.SignalExactly` | backend-go/internal/indicators/expanded.go:98-105 | %D times its period is the sum of the last %K values, from the first bar with so many |
| `Indicators.StochasticIsAPercentage` | backend-go/internal/indicators/expanded.go:79-97 | %K of a bar closing inside its range is in [0, 100] |
| `Indicators.SignalIsAPercentage` | backend-go/internal/indicators/expanded.go:98-105 | so is %D when its %K values are |
| `Flows.BarCheckedIsCheckWithVolumes` | backend-go/internal/bourse/sectorflows.go:117-162 | without a session statement, the market's tiers are the roster's verdicts plus the volume identity |
| `Flows.StatementConfirmsOrExcludes` | backend-go/internal/bourse/sectorflows.go:143-161 | a session statement can confirm an accepted row or exclude it, and rescues none |
| `Flows.AcceptedIsBalanced` | backend-go/internal/bourse/sectorflows.go:122-131 | an accepted row traded and its two sides agree within 0.1 percent |
| `Flows.AcceptedExactly` | backend-go/internal/bourse/sectorflows.go:117-162 | a row is accepted if and only if it traded, both sides agree within a thousandth by value and by volume, and every statement of its value agrees within a hundredth; checked against the bar exactly when there is a statement |
| `Flows.ConsistentExactly` | backend-go/internal/bourse/flows.go:62-80 | when a session passes the roster's check, without quotients |
| `Flows.PlusIsAMonoid` | backend-go/internal/bourse/sectorflows.go:603-621 | merging is associative and commutative with the empty accumulator as unit |
| `Flows.FlowAcc.constructor` | backend-go/internal/bourse/sectorflows.go:557-565 | an accumulator starts empty |
| `Flows.FlowAcc.Add` | backend-go/internal/bourse/sectorflows.go:567-601 | adding a row adds exactly what that row alone amounts to: one row of its tier; when accepted, one inflow or outflow by the sign of bought less sold, and its money; and unless it lists, its tickets |
| `Flows.FlowAcc.Merge` | backend-go/internal/bourse/sectorflows.go:603-621 | merging adds every figure of the other |
| `Flows.AddAll` | backend-go/internal/bourse/sectorflows.go:567-601 | adding rows one at a time leaves their totals, the same for every order of the rows |
| `Flows.TierCountsExactly` | backend-go/internal/bourse/sectorflows.go:567-583 | of any table, each tier count is the number of rows in that tier |
| `Flows.DirectionsExactly` | backend-go/internal/bourse/sectorflows.go:584-592 | inflow and outflow rows are the accepted rows in which individuals bought more or sold more, listings the accepted listing rows |
| `Flows.SumsExactly` | backend-go/internal/bourse/sectorflows.go:584-596 | the five sums are the sums of the stored fields over accepted rows |
| `Flows.PowerExactly` | backend-go/internal/bourse/sectorflows.go:597-601 | buyer power's four are the sums over accepted rows that do not list |
| `Flows.RowsAreTheirTiers` | backend-go/internal/bourse/sectorflows.go:567-583 | rows always equals the sum of the four tier counts |
| `Flows.InstitutionalIsTheOtherSide` | backend-go/internal/bourse/sectorflows.go:640-644 | the stated institutional flow, minus the individuals' net, is off the true one by at most 0.1 percent of the larger sides of accepted rows |
| `Flows.ClassifiedRowsAreBalanced` | backend-go/internal/bourse/sectorflows.go:122-131 | that bound holds of every table whose tiers come from the classification |
| `Flows.SummarizeFlows` | backend-go/internal/bourse/flows.go:154-198 | the roster's summary, figure by figure, is the counts and sums over the sessions that pass its check |
| `Flows.GatesAgreeExactly` | backend-go/internal/bourse/sectorflows.go:114-117 | roster and market accept the same session if and only if it has no value, its values disagree, it has no bar and its volumes disagree, or its volumes agree wherever its total is near the bar |
| `Flows.MarketAloneAccepts` | backend-go/internal/bourse/flows.go:62-80 | a session without a bar that only the market accepts |
| `Flows.RosterAloneAccepts` | backend-go/internal/bourse/sectorflows.go:132-141 | a session with disagreeing volumes that only the roster accepts |
| `Flows.SummaryAgreesWithTotals` | backend-go/internal/bourse/flows.go:154-198 | over sessions the gates agree on, the roster's sums are the market's |
| `Coverage.CoverageAcc.constructor` | backend-go/internal/bourse/sectorflows.go:458-461 | nothing is covered at first |
| `Coverage.CoverageAcc.Add` | backend-go/internal/bourse/sectorflows.go:463-470 | a share-session adds itself, and its value to the covered side when flow was stored |
| `Coverage.CoverageAcc.Merge` | backend-go/internal/bourse/sectorflows.go:472-477 | merging adds all four figures |
| `Coverage.MeetsIsClosed` | backend-go/internal/bourse/sectorflows.go:479-489 | two groups that meet the rule meet it together |
| `Coverage.GroupMeets` | backend-go/internal/bourse/sectorflows.go:479-489 | so does any number of them |
| `Coverage.MeetsExactly` | backend-go/internal/bourse/sectorflows.go:479-489 | the rule without its decimals: nine tenths of the share-sessions and of their value |
| `Coverage.OneSessionMore` | backend-go/internal/bourse/sectorflows.go:1169-1182 | one more day-file session counts in the window it lies in and in no other |
| `Coverage.CoverageIn` | backend-go/internal/bourse/sectorflows.go:1169-1182 | walking the map in any order gives the coverage of the window and of the one before it |
| `Coverage.OverExactly` | backend-go/internal/bourse/sectorflows.go:1169-1182 | a share's coverage of some positions: how many a day file shows, how many of those have a flow, and the values of both |
| `Coverage.OverIsPossible` | backend-go/internal/bourse/sectorflows.go:1169-1182 | a share's coverage never exceeds what the day files show |
| `MarketCalendar.MarketSessionCounts` | backend-go/internal/bourse/sectorflows.go:226-250 | the session rule without its quotients: 200 traded shares and nine tenths of shares and of value covered |
| `MarketCalendar.ScanDayFiles` | backend-go/internal/bourse/sectorflows.go:308-317 | how many dates have a day file, and the newest of them |
| `MarketCalendar.NextDate` | backend-go/internal/bourse/sectorflows.go:318-348 | one more date keeps what the pass knows: sessions kept and dates that are none, before, between and pending |
| `MarketCalendar.KeepSessions` | backend-go/internal/bourse/sectorflows.go:318-349 | the pass stops at the end or with `keep` sessions, having seen the newest dates |
| `MarketCalendar.BuildMarketCalendar` | backend-go/internal/bourse/sectorflows.go:303-350 | exactly the newest `keep` market sessions, newest first with their counts: dates of 200 traded shares with nine tenths covered, every other such date older; how many stored dates that are none lie after the first and between first and last; and the newest stored date, the newest such date and the newest day file |
| `MarketCalendar.CalendarIsUnique` | backend-go/internal/bourse/sectorflows.go:303-350 | the stored dates, one count each, leave one calendar: sessions, counts, thin dates and newest dates |
| `SessionWindows.WindowOn` | backend-go/internal/bourse/sectorflows.go:382-418 | availability, both spans, base session and coverage of a window on the calendar, the coverage on its sessions' counts |
| `SessionWindows.MeasureAll` | backend-go/internal/bourse/sectorflows.go:396-417 | one pass gives the window's sums and its weakest session |
| `SessionWindows.CoverageExactly` | backend-go/internal/bourse/sectorflows.go:396-417 | a window's coverage: shares and values added up over its sessions, the two percentages without a quotient, and the least of the sessions' own |
| `SessionWindows.Mediant` | backend-go/internal/bourse/sectorflows.go:396-417 | a percentage every session reaches, the window reaches |
| `SessionWindows.WeakestIsLeast` | backend-go/internal/bourse/sectorflows.go:396-417 | the weakest session's coverage is attained and no session's is lower |
| `SessionWindows.WindowsAreCovered` | backend-go/internal/bourse/sectorflows.go:368-418 | for every window of a built calendar 90 <= weakest session <= share coverage <= 100, and value coverage is within 90 and 100 |
| `SectorFlows.IndexSessions` | backend-go/internal/bourse/sectorflows.go:1261-1264 | every calendar day is indexed by its position |
| `SectorFlows.PlaceRows` | backend-go/internal/bourse/sectorflows.go:1265-1299 | rows on the calendar grouped by share, every listed share in the list, and each share's traded days on dates between sessions |
| `SectorFlows.AddToWindows` | backend-go/internal/bourse/sectorflows.go:1377-1386 | a row enters exactly the open windows it lies in |
| `SectorFlows.AddToPrevious` | backend-go/internal/bourse/sectorflows.go:1387-1391 | an accepted row enters exactly the previous windows it lies in |
| `SectorFlows.AddToBlocks` | backend-go/internal/bourse/sectorflows.go:1394-1397 | a row enters exactly its block |
| `SectorFlows.AddShare` | backend-go/internal/bourse/sectorflows.go:1370-1398 | after a share's rows its windows, the sector's and the market's blocks and previous windows hold those rows' sums, and its traded sessions are known |
| `SectorFlows.RunShares` | backend-go/internal/bourse/sectorflows.go:1348-1399 | the same after all shares, for every sector that has one and the market |
| `SectorFlows.MergeShares` | backend-go/internal/bourse/sectorflows.go:1416-1423 | merging the members' windows sums them |
| `SectorFlows.Members` | backend-go/internal/bourse/sectorflows.go:1363 | each sector's shares, and only sectors with one |
| `SectorFlows.SumSector` | backend-go/internal/bourse/sectorflows.go:1416-1437 | one sector's windows, and the market with them added |
| `SectorFlows.SumSectors` | backend-go/internal/bourse/sectorflows.go:1401-1437 | sectors in any order, each the sum of its shares, and the market the sum of all shares |
| `SectorFlows.PlaceDayFiles` | backend-go/internal/bourse/sectorflows.go:1317-1325 | every share's traded value by calendar position, a later statement of a day replacing an earlier one |
| `SectorFlows.CoverShares` | backend-go/internal/bourse/sectorflows.go:1419-1422 | every share's coverage of every window and of the one before |
| `SectorFlows.BuildFigures` | backend-go/internal/bourse/sectorflows.go:1327-1437 | every share, sector, market, block, previous-window and coverage figure is what direct summation over the placed rows gives |
| `MarketFigures.MarketOnRows` | backend-go/internal/bourse/sectorflows.go:1401-1432 | in the built report, the market's window is the table of the stored rows on the window's sessions, each by its own tier and listing |
| `MarketFigures.ShareOnRows` | backend-go/internal/bourse/sectorflows.go:1377-1386 | so is every share's, of its own rows |
| `MarketFigures.SectorOnRows` | backend-go/internal/bourse/sectorflows.go:1416-1425 | and every sector's, of the rows of its shares |
| `MarketFigures.BlockOnRows` | backend-go/internal/bourse/sectorflows.go:1394-1397 | and every block's, of the rows on its five sessions |
| `MarketFigures.MarketCountsExactly` | backend-go/internal/bourse/sectorflows.go:567-592 | the market's counts as tallies of the stored rows: by tier, accepted rows bought or sold on balance, accepted listing rows |
| `MarketFigures.MarketSumsExactly` | backend-go/internal/bourse/sectorflows.go:584-596 | the market's sums as sums of the stored fields over accepted rows of the window |
| `MarketFigures.PreviousOnRows` | backend-go/internal/bourse/sectorflows.go:1387-1391 | the value and number of the accepted rows of the n sessions before a window |
| `MarketFigures.CoverOnRows` | backend-go/internal/bourse/sectorflows.go:1169-1182 | every share's coverage in a window, day by day: the sessions a day file shows it trading on, those with a stored flow that traded, and the values |
| `MarketFigures.LastValueExactly` | backend-go/internal/bourse/sectorflows.go:1317-1325 | of several statements of a share's day the last one stands |
| `MarketFigures.ReportedOnRows` | backend-go/internal/bourse/sectorflows.go:1293-1308 | the report lists exactly the shares with a stored row on the calendar or a listed record, and exactly the sectors of those |
| `SectorFlowLaws.MarketIsItsShares` | backend-go/internal/bourse/sectorflows.go:1401-1432 | in every available window the market is the sum of its shares and of all rows in the window |
| `SectorFlowLaws.MarketIsItsSectors` | backend-go/internal/bourse/sectorflows.go:1401-1432 | and the sum of its sectors |
| `SectorFlowLaws.SectorIsItsShares` | backend-go/internal/bourse/sectorflows.go:1416-1425 | and every sector is the sum of its shares |
| `SectorFlowLaws.BlocksTileWindow` | backend-go/internal/bourse/sectorflows.go:1333-1337 | the newest k blocks hold exactly the rows of the window of 5 * k sessions |
| `SectorFlowLaws.MarketIsItsBlocks` | backend-go/internal/bourse/sectorflows.go:1394-1397 | for 5, 20 and 60 sessions the market is the sum of its newest n / 5 blocks |
| `SectorFlowLaws.MarketFiguresHold` | backend-go/internal/bourse/sectorflows.go:627-704 | in every available window the market's rows are the window's rows, split into four tiers, and its institutional flow is within the 0.1 percent bound |
| `SectorFlowLaws.CoveredSharesCoverSector` | backend-go/internal/bourse/sectorflows.go:479-489 | a sector all of whose shares meet the coverage rule meets it |
| `SectorFlowLaws.SharesIgnoreOrder` | backend-go/internal/bourse/sectorflows.go:1301-1308 | rows in any order, shares walked in any order: the same shares with the same windows |
| `SectorFlowLaws.SectorsIgnoreOrder` | backend-go/internal/bourse/sectorflows.go:1301-1308 | the same sectors with the same windows |
| `SectorFlowLaws.MarketIgnoresOrder` | backend-go/internal/bourse/sectorflows.go:1301-1308 | the same market |
| `SectorFlowLaws.BlocksIgnoreOrder` | backend-go/internal/bourse/sectorflows.go:1301-1308 | the same blocks |
| `SectorFlowLaws.PreviousIgnoreOrder` | backend-go/internal/bourse/sectorflows.go:1387-1391 | the same previous windows of the market and of every sector |
| `SectorFlowLaws.CoverageIgnoresOrder` | backend-go/internal/bourse/sectorflows.go:1317-1325 | with one statement per share and day, a share's coverage is the same for any order of rows and day files |
| `SectorFlowLaws.ShareCoverIgnoresOrder` | backend-go/internal/bourse/sectorflows.go:1169-1182 | so is the built coverage of every share |
| `SectorFlowLaws.GroupCoverIgnoresOrder` | backend-go/internal/bourse/sectorflows.go:1416-1437 | and of every sector and the market, of a window and of the one before |
| `Companies.BetterIsAnOrder` | backend-go/internal/bourse/sectorflows.go:1635-1653 | the main-board rule is a strict total order of codes |
| `Companies.MoreTradedIsAnOrder` | backend-go/internal/bourse/sectorflows.go:1666-1683 | so is the rule without a main board |
| `Companies.MainBoards` | backend-go/internal/bourse/sectorflows.go:1635-1653 | walked in any order, each company with a main board gets the one that beats its others |
| `Companies.MainBoardsAreUnique` | backend-go/internal/bourse/sectorflows.go:1635-1653 | and there is only one such assignment |
| `Companies.PickMostTraded` | backend-go/internal/bourse/sectorflows.go:1666-1683 | the scan of sorted codes finds the most traded, the smallest code on a tie |
| `Companies.SumBoards` | backend-go/internal/bourse/sectorflows.go:1661-1698 | sum and coverage of a company's boards, and the boards named |
| `Companies.BoardsAreNamed` | backend-go/internal/bourse/sectorflows.go:1664-1676 | a company names exactly the boards with an accepted row, each once, in board order |
| `Companies.BuildCompany` | backend-go/internal/bourse/sectorflows.go:1661-1718 | the board that stands for a company, its price change, and the sum, coverage and named boards of the company in any listing of it |
| `Companies.ShownExactly` | backend-go/internal/bourse/sectorflows.go:1635-1683 | which board stands for a company, on the records: a listed main board first, then the more traded, then the smaller code |
| `Companies.BoardsAreOrdered` | backend-go/internal/bourse/sectorflows.go:1678 | boards are named main, block, secondary, other |
| `Companies.BuildCompanies` | backend-go/internal/bourse/sectorflows.go:1626-1721 | exactly the companies with an accepted row, each once |
| `Companies.CompanyIsUnique` | backend-go/internal/bourse/sectorflows.go:1626-1721 | the rule leaves one thing to say of a company |
| `Companies.CompaniesAreDistinct` | backend-go/internal/bourse/sectorflows.go:1606-1721 | no two companies are shown by the same board |
| `Companies.TopOf` | backend-go/internal/bourse/sectorflows.go:1726-1762 | the two lists hold, in order, exactly the k leading companies of each side |
| `Companies.TopIsTop` | backend-go/internal/bourse/sectorflows.go:1726-1762 | everything left out is behind everything listed, and nothing is while there is room |
| `Companies.LeadersExactly` | backend-go/internal/bourse/sectorflows.go:1726-1762 | the k largest figures above zero, largest first, and the k smallest below it, smallest first |
| `Orders.TextLessExactly` | backend-go/internal/bourse/sectorflows.go:1726-1762 | codes are compared by their first difference, and a code goes before what it begins |
| `Companies.TopIgnoresOrder` | backend-go/internal/bourse/sectorflows.go:1726-1762 | the lists are the same for every order of the companies |
| `Companies.TopListsAreDetermined` | backend-go/internal/bourse/sectorflows.go:1626-1762 | whichever way the maps were walked, the top lists are the same |
| `MarketFlows.IndexShares` | backend-go/internal/bourse/sectorflows.go:1240-1284 | the shares by code, a later record replacing an earlier one, and a bare one for a code that only has rows |
| `MarketFlows.RecordExactly` | backend-go/internal/bourse/sectorflows.go:1241-1244 | the record of a code is the last one stored for it; a code without one stands for itself, in no sector, on no board, of no company |
| `MarketFlows.PlacePrices` | backend-go/internal/bourse/sectorflows.go:1309-1316 | every share's prices, oldest first |
| `MarketFlows.FindShares` | backend-go/internal/bourse/sectorflows.go:1350-1357 | every share with its sector and the listing session its sorted prices and first stored flow give |
| `MarketFlows.TradedIn` | backend-go/internal/bourse/sectorflows.go:1204-1215 | a share's traded sessions in the window, then the traded dates between them |
| `MarketFlows.TradedEitherWay` | backend-go/internal/bourse/sectorflows.go:1201-1215 | those are exactly the days on which the share's stored rows show a trade in the window |
| `MarketFlows.ShareChange` | backend-go/internal/bourse/sectorflows.go:1508-1521 | a share's price change over the window is the chain over its prices, against all its traded days and its listing session |
| `MarketAnswers.TradedDaysOnRows` | backend-go/internal/bourse/sectorflows.go:1204-1215 | the days a change accounts for are the days from the window's oldest to its newest session on which a stored row of the share shows a trade |
| `MarketAnswers.ChangeOnRows` | backend-go/internal/bourse/sectorflows.go:866-894 | which answer a share's window gets in the built report, by its stored rows and price rows: no percentage while such a day has no usable price row |
| `MarketAnswers.PercentageOnRows` | backend-go/internal/bourse/sectorflows.go:849-895 | and the percentage: the product over the share's usable price rows of the window, in whatever order they are stored, without the listing session's |
| `MarketAnswers.ListingOnRows` | backend-go/internal/bourse/sectorflows.go:785-818 | a share's listing session is its first stored one, exactly when its close there is beyond five quarters or four fifths of the reference |
| `MarketFlows.BuildTops` | backend-go/internal/bourse/sectorflows.go:1554-1562 | exactly the window's companies, and the fifteen leading ones of each side |
| `MarketAnswers.CompanyOnRows` | backend-go/internal/bourse/sectorflows.go:1661-1698 | a company's sums are the table of the stored rows of all its shares on the window's sessions |
| `MarketAnswers.CompaniesOfReport` | backend-go/internal/bourse/sectorflows.go:1554-1562 | in the built report, every open window's companies have distinct keys, some accepted row each, the table of all rows of their shares, and the price change of the board that stands for them |
| `MarketAnswers.MetasExactly` | backend-go/internal/bourse/sectorflows.go:1241-1284 | a reported share is ranked by its own record |
| `MarketAnswers.ListsOnCompanies` | backend-go/internal/bourse/sectorflows.go:1726-1762 | the two lists hold the fifteen companies with the most net buying, and with the most net selling, in that order; nobody with more is left out |
| `MarketFlows.BuildSectorFlows` | backend-go/internal/bourse/sectorflows.go:1226-1568 | no report exactly without a market session; otherwise every sum is direct summation over the stored rows, every share's change its chain, and every open window's companies and top lists those of the rules |
| `MarketFlowLaws.SamePrices` | backend-go/internal/bourse/sectorflows.go:1309-1316 | with one price per share and day, sorting leaves one list however the prices come |
| `MarketFlowLaws.ReportIgnoresOrder` | backend-go/internal/bourse/sectorflows.go:1226-1568 | two reports on the same stored shares, rows, prices and day files, in any order, agree in every share, sector, market, block, previous-window and coverage figure, every price change, every company and both top lists |

## Left out

- Floating point: sums, quotients and products are exact, so rounding, the order of float sums, overflow, NaN and infinity are not modelled, nor is the rounding of responses.
- RateLimiter.Limiter.Allow: the bucket is a value in the map, where the source keeps a pointer to one it updates in place; nothing else holds that pointer.
- Lockout.LoginLockout.Fail: the entry is a value in the map, for the same reason; the zero time is instant 0 and clocks start there.
- SqlText.ExecutableSql: which characters outside ASCII are word characters, and for the emptiness check which characters are blank, are parameters. That the scanner is not idempotent is not stated.
- FlowFetch.CheckClientTypes: a row is an object with a code and an optional date; parsing the date out of the payload is not modelled.
- FetchRuns.StoredAfter: an upload the server refuses as a whole, for a contradiction or an unknown share, is a run that did not reach the store; the comparison of overlapping rows is not modelled.
- PointInTime.SelectObservations: the statement is a computation over the stored rows; a period is keyed by its day, and period ends, labels, publication dates and nowcast flags travel with the row unmodelled.
- ChartPages.ChartPage: the validation gate, notes, revision and overlay values are not modelled; the window is bounded below by a date and above by the cursor.
- Adjustment.DetectActions: prices are exact; the validation that later accepts or refuses a detected series is not modelled.
- PriceChain.ChainLinkedChange: answers carry a case instead of their sentences, and the listing row instead of its formatted prices.
- PriceChain.ReturnsAgreeExactly: a bar is taken to be served with its own prices. The statement (`backend-go/internal/bourse/sectorflows_handler.go:122-134`) prefers the whole-market day file's row where one is stored, without its condition on volume, so the day file is taken to carry the bar's prices, and a bar with trades and no volume is not served.
- IndexSeries.MaxDrawdown: the series is the values' own; the correction of power-of-ten prints is done before.
- Relative.MatchedBeta: beta is not rounded to four decimals and the correlation is its three sums; the rebased lines and excess returns of `buildRelative` are not modelled.
- Flows.FlowAcc.Add: the accumulator's fields are grouped into counts, sums and buyer power.
- MarketCalendar.BuildMarketCalendar: dates come without repeats, as the grouping in the statement gives them; with `keep` of zero, which no caller passes, only the empty list of sessions is stated.
- MarketFlows.BuildSectorFlows: the sectors' and the shares' own lists are not ranked, block spans are not dated, and the number of rows of the previous window is kept for the market too; traded sessions are collected in their own pass over a share's rows. The report is the figures, not the response's text.
- MarketFlowLaws.ReportIgnoresOrder: one record per share, one price and one day-file row per share and day are assumed; the primary keys of the tables give them, and with two the later one would stand.
- The rest of the sector build: value shares of covered groups, counts of instruments by direction, priced counts, index returns beside a sector, prose reasons and notes.
- Companies.BuildCompany: names and roster symbols, the counts of instruments and the company's value share of the market are not part of the company.
- `market_sessions`, `day_files_to_fetch` and `share_codes` of the fetch script: set expressions with little to prove.
- `buildBreadth`, `smaGap`, `sessionDispersion`, `rebase`, `CorrelationLogReturns`, CCI, Donchian, Keltner, SuperTrend and ParabolicSAR: averages, logarithms and square roots, or side-of-price claims that do not hold.
- `sortScreenItems` and the rest of the screener; the migration checker's numbering rules and its reading of DDL.
- HTTP, JSON, authentication tokens, logging, metrics, database access, ssh and docker: plumbing over libraries. The React frontend and the prediction models.
