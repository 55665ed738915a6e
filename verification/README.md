# A model of the console's reading and calling logic

The console reads real user measurements and shows them. This project states, in Dafny, what its hardest
logic does, and proves it over all inputs, runs and interleavings. Identifiers keep the names of the
source where it has them (`fusionnerSeaux` becomes `FusionnerSeaux`).

Each module follows one part of the program:

- `RumTables`, `QueryContract`, `Conditions`, `HybridRead`, `TableLaws`, `HybridRuns`, `HybridSchedules`,
  `HybridFusion`: the hybrid read of Web Vitals. Tables are finite maps of rows; each SQL statement is the function
  it computes on them, and what it does to the rows is stated apart. The read is compared with the plain count it
  stands for, then followed over runs of ingestion, erasures and refreshes, down to the percentile a group shows.
- `ExplorerRegistry`, `ExplorerAst`, `RollupChoice`, `Journal`, `Series`, `Buckets`: the Explorer. The analytic
  query as it is validated and printed back, the choice of an aggregate, the paginated journal, the
  agreement of total, groups and series, and that of the two grids of time buckets.
- `Backend`, `Breaker`, `Draw`, `PrincipalMemo`: the calls to the services. A class holds each piece of
  shared state; the interleavings are state machines over the same transitions.
- `Annotations`, `AlertAnnotations`, `AlertScreen`, `AlertTracks`, `Acquisition`: what screens fold out of rows.
- `ProjectGate`: the middleware, seen under repeated redirects.
- `LikePattern`: the pattern that finds the attestations of one application.
- `Basics`, `Sorting`: shared shapes, and the stable sort.

A definition the main results are about is also characterised on its inputs, without naming it: what is counted,
what a percentile is, what an event of a trace says, what a page or a request gets.

`dafny verify dfyconfig.toml` checks the whole project.

## What the promises rest on

Some statements ask of the data what the database, the ingestion or the calendar grants. Where a lemma shows what
fails without it, it is named.

- Rows of a journal do not tie on instant and key: the key is a primary key (`packages/db/sql/schema.sql:8-68`,
  `migration-v67.sql:6-7`). Pagination reads everything, for all page sizes, exactly then (`Journal.PaginationExact`).
- A device is never the empty string: `clientDimensions` (`packages/backend/shared/dimensions.mjs:216`) yields a
  known class or nothing. The aggregate would serve it as unknown (`HybridRead.BlankDeviceMisreads`).
- A session exists before its measures (the foreign key of `schema.sql:38`), and the ingestion never rewrites its
  robot flag (`migration-v111.sql:250-284`). Both are in what a step of `HybridRuns` may do. The older
  `upsert_rum_session` (`migration-v33.sql:32-52`) still raises that flag; nothing in the repository calls it, and a
  run that did is not covered.
- The clock of Paris changes at 01:00 UTC by one hour, at most once around a range of thirty days (`Buckets.DeParis`).

## What the code does not keep

Some promises are false of the code on inputs it can receive. In each case the model keeps the code as it is, names
an input, and proves exactly when the promise holds.

- The refresh of the histogram moves its watermarks past measures it did not aggregate: one that arrives in a
  believed hour older than its window (26 hours) is then read by neither branch (`HybridRuns.LateMeasureIsLost`).
  The exact conditions are in `HybridRuns.RefreshGuard` and `HybridRuns.RefreshKeeps`; what a later refresh repairs
  is in `HybridRuns.RefreshRepairs`. A schedule that avoids it can be told without the tables
  (`HybridSchedules.RegularRunIsExact`): at each refresh of 26 hours, the one before and every measure received
  since are at most 25 hours old. The comment of `analytics-compiler.ts:364` says late measures are re-read raw:
  this is so until the next refresh.
- A larger report of a measure already counted rewrites its value and instant in place; the old cell keeps it
  (`HybridRuns.LargerReportIsCountedTwice`, exact condition in `HybridRuns.RaiseKeeps`). A
  report whose two instants are in the hour of the last refresh, or later, leaves every read exact.
- A device that arrives after the measures of its session were aggregated moves them out of the cell that counts
  them (exact condition in `HybridRuns.UpsertKeeps`).
- Conditions given as URL parameters (`device=`, `browser=`, …) are looked at neither by `chooseRollup` nor by
  `compileRollupHistogram`, which read the segment alone, while the raw read applies them
  (`RollupChoice.BrowserParameterIsIgnored`). A query is answered as its raw read if and only if its segment holds
  them or contradicts itself (`HybridRead.DedicatedConditionsAreIgnored`, `HybridRead.ExactOnDevice`). A query built
  from a JSON body has only segments.
- The fingerprint of a cursor leaves out the measure, and every filter that is not in the segment, although
  `analytics-schema.ts:900-904` promises that no added filter is survived. A cursor of the sessions started pages
  the sessions active (`Journal.CursorCrossesMeasures`), and one cut under `release=1.4` pages `release=1.5`
  (`Journal.CursorCrossesReleases`). The exact condition is in `Journal.CursorKeepsJournal`.
- Alerts drawn on a figure can miss an event at the very first instant of the window, when the oldest event
  read bears it too (`AlertAnnotations.TieIsMissed`). What was read is enough exactly when it is short or its oldest
  event comes before the window (`AlertAnnotations.CompleteExactly`).
- The memo can return a lookup that was already rejected, until its handler runs
  (`PrincipalMemo.RejectedLookupIsReturned`, exact condition in `PrincipalMemo.RejectedIsReturnedExactly`).

## Model

| member | source | states |
|---|---|---|
| HybridRead.SumIsCount | apps/console/lib/analytics-compiler.ts:474-480 | the sum of the counts of any set of cells that each count their own measures is the number of measures of those cells |
| HybridRead.CountedExactly | apps/console/lib/analytics-compiler.ts:484-494 | the raw read counts a measure if and only if its instant is in the window, `to` excluded, it is of the metric and of an app of the scope, of no robot unless asked for, of the group and bucket, and its own fields or those of its session meet the device, every parameter and every condition of the segment |
| HybridRead.WindowsAddUp | apps/console/lib/analytics-compiler.ts:484-490 | two windows end to end count raw what the whole window counts; a window that does not end after its start counts nothing, raw or hybrid |
| HybridRead.HybridWindowsAddUp | apps/console/lib/analytics-compiler.ts:451-501 | on sound tables so do those of the hybrid read, even when they meet inside an hour |
| HybridRead.CoveredInside | apps/console/lib/analytics-compiler.ts:451-473 | an hour the aggregate may serve lies wholly inside the window and strictly before the hour of the watermark, so the current hour is never read from it |
| HybridRead.BranchesPartition | apps/console/lib/analytics-compiler.ts:351-369 | the measures of the population split into those left to the aggregate and those the raw branch takes: none in both, none in neither |
| HybridRead.CellSpeaksForMeasure | apps/console/lib/analytics-compiler.ts:431-443 | a cell and a measure of it answer every device condition and fall in the same group, the empty device of the cell standing for no device |
| HybridRead.AggregateCountsCovered | apps/console/lib/analytics-compiler.ts:474-480 | group by group and bucket by bucket the aggregate branch counts exactly the measures the raw branch leaves |
| HybridRead.HybridEqualsRaw | apps/console/lib/analytics-compiler.ts:410-501 | on tables whose eligible cells count the measures left to them and hold no empty device, for every window, scope and grouping under a device segment that settles the device and parameter conditions, the two branches together count, per group and bucket, exactly what the raw read counts |
| HybridRead.UnsoundMisreads | apps/console/lib/analytics-compiler.ts:474-480 | one eligible cell that miscounts its measures makes the ranking of its hour wrong |
| HybridRead.BlankDeviceMisreads | apps/console/lib/analytics-compiler.ts:431-438 | a device stored as the empty string is served as unknown by the aggregate: its group loses measures |
| HybridRead.HybridExact | apps/console/lib/analytics-compiler.ts:351-501 | every query under a device segment that holds its other device and parameter conditions (or lets nothing through) is read exactly if and only if each eligible cell counts the measures left to it and none of these carries an empty device |
| HybridRead.IgnoredConditionMisreads | apps/console/lib/analytics-compiler.ts:389-402 | a measure that passes the segment and fails a condition given outside it is counted by the hybrid read and not by the raw one |
| HybridRead.DedicatedConditionsAreIgnored | apps/console/lib/analytics-compiler.ts:389-402 | whatever the tables hold, filters are applied as the raw read applies them if and only if the segment asks for two values of one dimension, or every device and parameter condition is one of its own |
| HybridRead.ExactOnDevice | apps/console/lib/analytics-rollups.ts:233-237 | under a segment of device conditions, that is: the segment asks for two devices, or no dedicated parameter is given and the device, if any, is one the segment asks for |
| Conditions.ConditionsInOrder | apps/console/lib/query-contract.ts:656-664 | the conditions of a query are its device, then its seven parameters in their order, then its segment as written |
| Conditions.ImpliesExactly | apps/console/lib/query-contract.ts:656-664 | whatever passes a list of conditions passes some equalities if and only if the list asks for two values of one dimension or holds each of them; whoever fails otherwise is built |
| Conditions.SameAnswersExactly | apps/console/lib/query-compiler.ts:260 | two queries with the same segment let the same rows through if and only if each holds the device and parameters of the other, or contradicts itself |
| HybridRuns.ExactIsSound | apps/console/lib/analytics-compiler.ts:451-480 | on tables PostgreSQL and the ingestion can hold, every such query is read exactly if and only if every cell the reads use counts the measures they leave to it |
| TableLaws.ReportsTouchOneRow | packages/db/sql/migration-v111.sql:318-335 | a new measure adds one row; a larger report gives its row another bucket and instant; nothing else changes |
| TableLaws.UpsertIsSticky | packages/db/sql/migration-v111.sql:250-284 | an upsert creates the session it does not find; one it finds keeps its app, robot flag and known device, takes a missing device, never goes back in time, and is left alone from another app |
| TableLaws.UpsertIsIdempotent | packages/db/sql/migration-v111.sql:250-284 | sent again a report of a session changes nothing; of two reports of a known session the order is indifferent unless both bring it a first device |
| TableLaws.EraseSessionIsComplete | packages/db/sql/migration-v81.sql:500-513 | nothing of the session remains, exactly the hours its measures were in are marked, and nothing else is touched |
| TableLaws.EraseAppIsComplete | packages/db/sql/migration-v82.sql:330-386 | nothing of the app remains in the four tables, and every row of the others does, unchanged |
| TableLaws.PurgeIsComplete | packages/db/sql/migration-v82.sql:267-320 | the purge takes exactly the measures, cells and marks of the app before the cutoff, and exactly its sessions last seen before it that no measure left and no other table holds |
| TableLaws.RefreshTouchesItsWindow | packages/db/sql/migration-v81.sql:864-920 | the refresh touches no measure, no session, and nothing outside its window; its watermarks are now and the largest identifier |
| TableLaws.RefreshCounts | packages/db/sql/migration-v81.sql:877-905 | in an hour of its window it writes one cell for each app, device, vital and bucket with measures of no robot before now, and the cell counts them |
| TableLaws.OrdinaryWindow | packages/db/sql/migration-v81.sql:757-775 | without a mark the window goes back by the hours asked for, one at least and ninety days at most, to the next whole hour |
| TableLaws.WindowReaches | packages/db/sql/migration-v81.sql:757-775 | with marks it goes back to the oldest of the last ninety days, never less than the hours asked for nor more than ninety days |
| HybridRuns.FaithfulIsSound | packages/db/sql/migration-v81.sql:864-920 | tables whose believed cells count the measures they had at the last refresh give exact reads |
| HybridRuns.InsertKeeps | packages/db/sql/migration-v111.sql:318-335 | from exact reads, a new measure keeps them exact if and only if it does not slip under the identifier watermark into a cell the reads use; above that watermark, or from the hour of the last refresh on, it never does |
| HybridRuns.RaiseKeeps | packages/db/sql/migration-v111.sql:324-327 | from exact reads, a larger report that rewrites value and instant in place keeps them exact if and only if it leaves the measure in the cell that answers for it, or out of any; within the hour of the last refresh and after, it always does |
| HybridRuns.UpsertKeeps | packages/db/sql/migration-v111.sql:250-284 | from exact reads, a session upsert keeps them exact if and only if it does not give its first device to a session some cell the reads use answers for |
| HybridRuns.EraseSessionKeeps | packages/db/sql/migration-v81.sql:500-513 | erasing a session, which marks the hours of its measures in the same statement, keeps exact reads exact |
| HybridRuns.PurgeAppKeeps | packages/db/sql/migration-v82.sql:267-320 | the retention purge (measures, cells, marks, then sessions nothing holds) keeps exact reads exact |
| HybridRuns.EraseAppKeeps | packages/db/sql/migration-v82.sql:330-386 | erasing an app keeps exact reads exact |
| HybridRuns.RefreshLiftsMarks | packages/db/sql/migration-v81.sql:757-775 | the resumed window reaches every pending mark of the last 90 days, and the refresh lifts it |
| HybridRuns.RewrittenHours | packages/db/sql/migration-v81.sql:877-905 | in the hours it rewrites, the refresh leaves each believed cell with the count of its non-robot measures |
| HybridRuns.PassedHours | packages/db/sql/migration-v81.sql:872-920 | in the hours it does not rewrite, a refresh leaves every count and every trust as they were |
| HybridRuns.RefreshReads | packages/db/sql/migration-v81.sql:864-920 | whatever the tables held, reads are exact after a refresh if and only if each believed cell older than its window counts all its non-robot measures |
| HybridRuns.RefreshGuard | packages/db/sql/migration-v81.sql:864-920 | from exact reads, a refresh keeps them exact if and only if no measure arrived since the last one in a believed hour older than its window, and the hours between the two count; a window that reaches the hour of the last refresh leaves no hour between |
| HybridRuns.RefreshKeeps | packages/db/sql/migration-v81.sql:864-920 | from such tables, whatever measures came in since, reads after the next refresh are exact if and only if it strands none: none in a believed hour older than its window that arrived since, or was still to come, at the refresh before; and such tables come out of it |
| HybridRuns.StepExact | packages/db/sql/migration-v81.sql:864-920 | from exact reads, every query is read exactly after a step if and only if the step passes the guard written for it, checked on the tables before the step |
| HybridRuns.RunExact | apps/console/lib/analytics-compiler.ts:362-369 | along any run of inserts, larger reports, upserts, erasures, purges and refreshes, every query is read exactly at each step if and only if every step passes its guard |
| HybridRuns.RunReadsExact | apps/console/lib/analytics-compiler.ts:351-369 | after any run that passes its guards, every query whose segment settles its device and parameter conditions is read exactly |
| HybridRuns.RefreshRepairs | packages/db/sql/migration-v81.sql:757-775 | after any run, guards passed or not, a refresh makes every query exact again if and only if the believed cells older than its window count all their measures |
| HybridSchedules.RegularRunIsExact | packages/backend/jobs/planifie.mjs:398-405 | a schedule whose identifiers come in order, whose refreshes each reach the hour of the one before and every measure received since, whose larger reports come before their measure is aggregated or stay from the hour of the last refresh on, and whose sessions keep their device, is exact throughout; the test reads the schedule and not the tables |
| HybridSchedules.RegularFromStart | packages/backend/jobs/planifie.mjs:398-405 | the same from tables no refresh ever touched, the first refresh coming at any time |
| HybridSchedules.TwentyFiveHoursAreReached | packages/backend/jobs/planifie.mjs:402-405 | the refresh of 26 hours reaches far enough when the last one, and every measure received since, are at most 25 hours old: a missed pass is made up for by the next |
| HybridRuns.NeverRefreshed | apps/console/lib/analytics-compiler.ts:460-461 | tables no refresh ever touched give exact reads: where a run starts |
| HybridRuns.DistrustedHourIsRaw | apps/console/lib/analytics-compiler.ts:364-369 | an hour with a mark, or with a cell whose observed count is zero, has no cell in the aggregate branch and all its population in the raw one |
| HybridRuns.LateMeasureIsLost | packages/db/sql/migration-v81.sql:864-920 | with a measure two days late every query is exact until the next refresh of 26 hours, and some query is not after it |
| HybridRuns.LargerReportIsCountedTwice | packages/db/sql/migration-v111.sql:324-327 | a counted measure moved to an open hour by a larger report is counted once by its old cell and once raw |
| HybridFusion.FenetreIsCadre | apps/console/lib/analytics-rollups.ts:373-402 | an instant is in the interval the console cuts in milliseconds if and only if the statement takes it from the aggregate in microseconds, for every watermark |
| HybridFusion.FusionnerSeaux | apps/console/lib/analytics-rollups.ts:418-427 | the merge keeps each bucket once with a positive weight, and weighs up to any bucket what the usable rows weigh, whatever their order |
| HybridFusion.PercentileDepuisSeaux | apps/console/lib/histogramme.ts:90-103 | in the bucket returned the weights up to it reach the share and those below it do not; none if and only if the distribution is empty |
| HybridFusion.RowsArePopulation | apps/console/lib/queries-explorer.ts:410-416 | in any order of the result rows, those of a group (or all) weigh up to any bucket exactly the measures of the raw population |
| HybridFusion.RendreGroupe | apps/console/lib/queries-explorer.ts:424-449 | the percentile and the count rendered for a group, or for the total, are those of the raw population, every member of which is in the window and asked for; the value is absent exactly when that population is empty |
| RollupChoice.ChooseRollup | apps/console/lib/analytics-rollups.ts:255-267 | the choice over the declared sources is usable exactly for the plans that are served, and then by the vitals histogram |
| RollupChoice.ServedExactly | apps/console/lib/analytics-rollups.ts:99-171 | a plan is served by an aggregate if and only if it reads p75 or p95 of a Web Vital, ungrouped or by device, under device segments, robots excluded, as a value or a ranking |
| RollupChoice.RefusalIsTrue | apps/console/lib/analytics-rollups.ts:193-252 | the reason of a refusal holds of the plan and its filters, whichever check gave it |
| RollupChoice.ServedCompiles | apps/console/lib/analytics-compiler.ts:410-449 | a served plan raises none of the faults of the compiler and its first grouping dimension is its only one |
| RollupChoice.UsableCompiles | apps/console/lib/analytics-rollups.ts:193-252 | a plan the parser accepts and the choice calls usable compiles without a fault and loses no dimension, and it is answered as its raw read, whatever the tables hold, if and only if no dedicated parameter is given and its device, if any, is one its segment asks for (or the segment asks for two) |
| RollupChoice.BrowserParameterIsIgnored | apps/console/lib/analytics-rollups.ts:233-237 | given as a URL parameter, a browser condition is neither refused by the choice nor applied by the statement |
| RollupChoice.PercentilePageIsServed | apps/console/lib/analytics-rollups.ts:114-129 | the 75th percentile of a Web Vital under URL parameters and no segment is served by the aggregate |
| Series.PercentileIsInterpolated | apps/console/lib/analytics-compiler.ts:236 | a percentile is unknown exactly without a sample; else it divides the segment between the values of the two ranks around p times n minus one, as that number stands between the two ranks, where a rank is counted by how many values are below and at most the value |
| Series.PercentileRanks | apps/console/lib/analytics-compiler.ts:236 | at least the floor of p times n minus one, plus one, of the values are at most the percentile, and at least n minus its ceiling are at least it |
| Series.PercentilesOffered | apps/console/lib/analytics-compiler.ts:223-236 | the two percentiles are those of 3/4 and 19/20 of the known measures, and the first is never above the second |
| Series.AverageTimesCount | apps/console/lib/analytics-compiler.ts:229-233 | the average times the number of measured rows is the sum, and both are unknown exactly when no row is measured |
| Series.OneMoreAggregated | apps/console/lib/analytics-compiler.ts:229-233 | one more row adds one to the count and its measure, if known, to the sum |
| Series.OneMoreIdentity | apps/console/lib/analytics-compiler.ts:229-233 | one more row adds one to the identities unless it bears none or one already met |
| Series.RankingIsRanked | apps/console/lib/analytics-compiler.ts:274-282 | the ranking lists every combination once, best first, unknown last, and no tie leaves the order open |
| Series.RankingOnFields | apps/console/lib/analytics-compiler.ts:274-282 | of two groups of the ranking the first has a known value no smaller, or both the same and the first labels in order, then the second ones, the unknown always last |
| Series.SelectHolds | apps/console/lib/analytics-compiler.ts:302-315 | the rows of a group and bucket are those of its two labels and of that bucket, each as often as it is read |
| Series.GroupsAndPointsSay | apps/console/lib/analytics-compiler.ts:255-321 | a group says how many rows it holds and their aggregate; a point too, and where it has no value it is zero for a count or a sum and unknown otherwise |
| Series.PointsInOrder | apps/console/lib/analytics-compiler.ts:316 | the points of a grid cut in two are those of its first part, then those of its second |
| Series.ShownAreTops | apps/console/lib/analytics-compiler.ts:255-272 | the groups shown are the first of the ranking with their values, and one more is returned exactly when some are left |
| Series.SeriesShowsRankedGroups | apps/console/lib/analytics-compiler.ts:284-321 | a series has one point for each shown group and bucket of the grid, and no other |
| Series.SeriesAddsUpToGroup | apps/console/lib/analytics-compiler.ts:284-321 | for a count or a sum, the points a series returns for a group it shows add up to the value the ranking shows of it, when every row falls on the grid |
| Series.GroupsAddUpToTotal | apps/console/lib/analytics-compiler.ts:241-272 | for a count or a sum, the groups returned, when none is left out, add up to the total computed on its own |
| Buckets.GridCoversWindow | apps/console/lib/query-compiler.ts:343-364 | every row of a range falls in a bucket of the grid, across a change of hour in Paris too; the buckets strictly increase, the first is that of `from` and the last that of the microsecond before `to` |
| Buckets.MurIsInverse | apps/console/lib/query-contract.ts:291-294 | out of the hour a change repeats or skips, the two tries find the one instant of a wall time |
| Buckets.JumpsAtChange | apps/console/lib/query-contract.ts:282-289 | the wall clock runs as the instants do on each side of a change, and jumps at it by the difference of the offsets |
| Buckets.BinsKeepOrder | apps/console/lib/query-compiler.ts:334-346 | a bucket of six hours or a day never comes before that of an earlier instant, even when the clock turns back |
| Buckets.BucketStarts | apps/console/lib/query-contract.ts:301-318 | the loops of the pages give the very instants the database generates, in order, cut after 301 |
| Buckets.GridFits | apps/console/lib/query-contract.ts:250-256 | a range of at most thirty days has at most 300 buckets of the width chosen for it, so nothing is cut |
| Buckets.WidthsExactly | apps/console/lib/query-contract.ts:250-256 | five minutes up to an hour, an hour up to a day, six hours up to a week, a day beyond |
| Journal.PageThenRest | apps/console/lib/analytics-compiler.ts:328-349 | on distinct rows a page followed by what its last row leaves is what the cursor before it left |
| Journal.PageIsLatest | apps/console/lib/analytics-compiler.ts:331-346 | a page holds at most its limit of rows of the population, all strictly after its cursor by instant then key, most recent first, and leaves one of those out only when it is full and nothing it shows is older |
| Journal.Walk | apps/console/lib/queries-explorer.ts:340-356 | whatever the limits, following the cursors ends, and on distinct rows gives what the first cursor leaves in the order of the journal |
| Journal.WalkIsComplete | apps/console/lib/analytics-compiler.ts:323-349 | on distinct rows, any sequence of page sizes reads every row once, each row at a later instant than the next, or at the same one under a larger key |
| Journal.PaginationExact | apps/console/lib/analytics-compiler.ts:323-349 | all sequences of page sizes read the whole journal if and only if no two rows share instant and key |
| Journal.InJournalExactly | apps/console/lib/analytics-compiler.ts:135-175 | a row is in the journal when it starts in the window (or lasts into it, for a measure of overlap), is of an app asked for, of no robot unless asked for, of the sub-population, and its device and dimensions meet every condition |
| Journal.CarriesExactly | apps/console/lib/query-compiler.ts:54-150 | which dimensions a dataset carries: sessions what describes a visitor, rows also route, release and environment, errors and spans also the service |
| Journal.CursorKeepsJournal | apps/console/lib/analytics-schema.ts:900-922 | two plans with the same fingerprint read the same journal on every table if and only if both are refused, or neither is, each query holds the device and parameters of the other, and their measures bound rows alike (or no row can pass) |
| Journal.CursorCrossesMeasures | apps/console/lib/analytics-schema.ts:1016-1036 | a cursor of the sessions started is accepted by the sessions active, whose journal is another one unless the query is refused or contradicts itself |
| Journal.CursorCrossesReleases | apps/console/lib/analytics-schema.ts:1016-1036 | a cursor of the pages viewed under release 1.4 is accepted by the same query under release 1.5, which is read and is another journal |
| ExplorerAst.ParseAstFilters | apps/console/lib/analytics-schema.ts:701-764 | the loop returns the conditions of all entries in order, or the refusal of the first entry that has one |
| ExplorerAst.ConditionIsRead | apps/console/lib/analytics-schema.ts:701-764 | an entry is read as a condition if and only if its keys say that condition and nothing else, its dimension is known, its value is a text of 1 to 500 characters without control characters, and a device is one of the three |
| ExplorerAst.RefusalIsNamed | apps/console/lib/analytics-schema.ts:701-764 | a refused entry is an invalid query if its shape or field is, an unsupported dimension if only its dimension is unknown, an invalid filter otherwise |
| ExplorerAst.FiltersAreRead | apps/console/lib/analytics-schema.ts:701-710 | filters are read when they are not given, or are a list of at most ten entries each of which is read; more is refused as too many, and nothing else is |
| ExplorerAst.FiltersRoundTrip | apps/console/lib/analytics-schema.ts:1141-1145 | printed conditions read back unchanged and in order if and only if the contract accepts them |
| ExplorerAst.ParsedFiltersRoundTrip | apps/console/lib/analytics-schema.ts:696-764 | every list of conditions the parser can produce survives being printed and read again |
| ExplorerAst.UrlFiltersRoundTrip | apps/console/lib/analytics-schema.ts:1122-1145 | the device, the dedicated parameters and the segment of a valid population all come back from the canonical AST |
| ExplorerAst.ParseGroupBy | apps/console/lib/analytics-schema.ts:766-788 | a stored grouping is read if and only if what it lists is at most two distinct known dimensions, and then as listed, in order |
| ExplorerAst.GroupByRoundTrip | apps/console/lib/analytics-schema.ts:766-788 | an accepted grouping has at most two distinct known dimensions and reads back unchanged |
| ExplorerAst.MeasureIsRead | apps/console/lib/analytics-schema.ts:790-831 | a measure is read if and only if it names a field of the dataset and an aggregation that field allows, and a well-formed property exactly when the field is read from JSON |
| ExplorerAst.VariantIsRead | apps/console/lib/analytics-schema.ts:833-866 | the sub-population is the one the measure imposes, else the one named, else none where none is required; never one without an axis |
| ExplorerAst.LimitIsRead | apps/console/lib/analytics-schema.ts:868-880 | the limit is a whole number from 1 to 200 in a journal, to 50 elsewhere, and 50 or 10 when it is not said |
| ExplorerAst.CursorIsTaken | apps/console/lib/analytics-schema.ts:1016-1036 | a cursor is taken only by a journal read under a query whose apps, bounds, dataset, sub-population, flags and segment are those it was cut from; a refusal says stale exactly when only those differ |
| ExplorerAst.PlanIsRead | apps/console/lib/analytics-schema.ts:960-1015 | a plan is read if and only if each of its parts is, and a series is of a measure that has buckets, 300 at most |
| ExplorerAst.PopulationIsSaid | apps/console/lib/analytics-schema.ts:1116-1141 | the canonical AST says the version, the app asked for or none, the range as a preset or as two bounds, and each flag exactly when it is set |
| ExplorerAst.PlanRoundTrip | apps/console/lib/analytics-schema.ts:960-1038 | over any well-formed registry, an accepted plan printed under any query and read again with no query is the same plan without its cursor |
| ExplorerAst.ConsolePlanRoundTrip | apps/console/lib/analytics-schema.ts:1129-1154 | the same over the datasets of the console |
| ExplorerAst.StoredAnalysisRoundTrip | apps/console/lib/analytics-schema.ts:1116-1154 | the canonical AST gives back both the plan and every condition of its population |
| ExplorerRegistry.RegistryWellFormed | apps/console/lib/analytics-schema.ts:224-563 | every measure tied to a sub-population names a value of an axis its dataset declares, so the registry fault of the variant is out of reach |
| Backend.Tenter | apps/console/lib/backend.ts:282-345 | a call sends once or, if it only reads, at most twice; the second time exactly after a network fault nobody asked for or an unsigned 502, 503 or 504, with 2000 ms left; its result is the status the service signed, the status of an unsigned answer, or that nothing came back, as its last reply was |
| Backend.CallersShare | apps/console/lib/backend.ts:246-252 | a caller is served exactly while the validity lasts; one that waits joins the handshake under way, or starts the only one, and a later caller before its end waits for the same |
| Backend.ProofLasts | apps/console/lib/backend.ts:242-252 | once a handshake has ended and freed its place, a caller is served for ten minutes from that end if it was accepted, as before it otherwise, and one that is not served starts a new handshake |
| Backend.NextKeepsInv | apps/console/lib/backend.ts:196-347 | every step of the client, in any order, keeps the invariant linking validity, handshakes, calls and what was sent |
| Backend.SeenIsVue | apps/console/lib/backend.ts:246-252 | in every reachable state a call finds what the past alone tells: the last proof if it is less than ten minutes old, else the handshake started and not freed yet, else none |
| Backend.AddedIsAllowed | apps/console/lib/backend.ts:246-345 | every event a step adds is allowed by the events before it: a call finds what the past tells; handshakes end and are freed in the order they start; a secret leaves for a call under the proof that call found valid when it came, or under the handshake it waited for; a reply is followed by a pause or by the end that reply says; a call gives up only after its handshake ended without a proof |
| Backend.EveryScheduleIsSafe | apps/console/lib/backend.ts:196-347 | in every interleaving each event is allowed by the past and at most one handshake has not ended; a writing leaves at most once and a reading twice; a call that is done ended in the trace, with its result |
| Backend.ResultIsGrounded | apps/console/lib/backend.ts:317-345 | in every such trace a call that ended says what its last reply said, with its status, or never sent and says whether the handshake it waited for proved nothing or threw |
| Backend.SecretIsGrounded | apps/console/lib/backend.ts:246-312 | in every such trace, a secret leaves for a call only under a handshake accepted less than ten minutes before that call began, or one that call waited for, begun before it ended or before its place was freed |
| Backend.OneAtATime | apps/console/lib/backend.ts:248-251 | in every such trace, of two handshakes started the first was freed before the second started, and they are numbered in that order |
| Breaker.RecentsAreCounted | apps/console/lib/aiguillage-console-api.ts:95 | the failures the filter keeps are as many as those later than thirty seconds before |
| Breaker.EchecRefines | apps/console/lib/aiguillage-console-api.ts:92-102 | a failure opens the breaker if and only if at least five failures since the last opening, this one included, are later than thirty seconds before; a cut is never shortened |
| Breaker.BreakerRefinesHistory | apps/console/lib/aiguillage-console-api.ts:92-102 | along any run of failures on a clock that does not go back, what the breaker keeps answers as its whole history would, with fewer than five failures kept |
| Breaker.DistanteExactly | apps/console/lib/aiguillage-console-api.ts:71-89 | the remote path is taken exactly by a verified ES256 session of a branched console that is strict, or finds the breaker closed and draws a bucket under the percentage |
| Breaker.LocaleExactly | apps/console/lib/aiguillage-console-api.ts:71-89 | a request stays local for the first of the checks it fails: not branched, no session, a local session, the breaker, the draw; the strict mode is reported but for a console that is not branched |
| Breaker.Aiguillage.Echouer | apps/console/lib/aiguillage-console-api.ts:92-102 | a failure updates the breaker of its family by the filter loop and leaves the other one as it was |
| Breaker.FamiliesDoNotInterfere | apps/console/lib/aiguillage-console-api.ts:65-68 | after any interleaving, the breaker of a family is that of its own failures alone |
| Breaker.NoAdmissionWhileOpen | apps/console/lib/aiguillage-console-api.ts:84-85 | in any run of both families, a check that is not strict takes the local path until the last opening of its history has ended |
| Breaker.RelayStaysWhileOpen | apps/console/lib/api-relay.ts:96-103 | while the cut of the relay has not ended no reading leaves: unavailable in strict mode, local otherwise |
| Breaker.LeavesExactly | apps/console/lib/api-relay.ts:93-115 | a reading leaves exactly when the relay is set up for it, the breaker closed, it is strict or drawn, and not too large; what stays is read locally, or in strict mode refused as unavailable or too large |
| Breaker.Relais.Compter | apps/console/lib/api-relay.ts:78-86 | the relay counts a failure as the breaker does |
| Breaker.Relais.Relayer | apps/console/lib/api-relay.ts:93-137 | a reading is refused, relayed or answered locally as its guards say; only a network error or an unsigned or 5xx answer counts a failure |
| Draw.PrefixeIsBigEndian | apps/console/lib/aiguillage-console-api.ts:45 | the signed 32-bit shifts and ors, made unsigned, give the big-endian value of the four bytes, even when the first sets the sign bit |
| Draw.ShareOfPrefixes | apps/console/lib/aiguillage-console-api.ts:42-46 | of the 2^32 prefixes exactly 42949672 times the percentage plus the smaller of it and 96 fall under it |
| Draw.RaisingKeepsServed | apps/console/lib/aiguillage-console-api.ts:86-88 | a session served at a percentage is served at every larger one, and every session at one hundred |
| PrincipalMemo.Purger | apps/console/lib/auth.ts:102 | the purge keeps exactly the entries still alive, in order |
| PrincipalMemo.Memo.PrincipalDeJeton | apps/console/lib/auth.ts:99-109 | a call returns the live lookup of its token, or starts one after evicting the first entry of a full memo |
| PrincipalMemo.Memo.Oublier | apps/console/lib/auth.ts:108-115 | after a forget, or the handler of a rejected lookup, the token has no entry, whichever lookup it held, and every other token keeps its own |
| PrincipalMemo.NextKeeps | apps/console/lib/auth.ts:95-115 | every call, rejection, handler and forget keeps the memo within a thousand entries, one a token, each for a lookup that nothing forgot |
| PrincipalMemo.CallAgrees | apps/console/lib/auth.ts:99-110 | a hit is a lookup of the same token started less than 2000 ms ago and not forgotten since; a miss means every recent lookup of the token was forgotten or evicted |
| PrincipalMemo.EvictsTheOldest | apps/console/lib/auth.ts:105 | room is made only among a thousand live entries, and by the oldest |
| PrincipalMemo.NothingStaleIsReturned | apps/console/lib/auth.ts:108-115 | in every run, a call after a forget of its token, or after the handler of one of its rejected lookups, waits for a lookup started since |
| PrincipalMemo.RejectedIsReturnedExactly | apps/console/lib/auth.ts:99-115 | in every run a call waits for a lookup of its token if and only if it comes less than 2000 ms after its start and no forget or handler of the token, nor an eviction, came between; so it waits for a rejected one exactly when it comes, besides, after the rejection |
| PrincipalMemo.RejectedLookupIsReturned | apps/console/lib/auth.ts:103-108 | between a rejection and its handler, a call can wait for the rejected lookup |
| Annotations.Cible | apps/console/lib/annotations.ts:279-281 | the family regrouped next has several marks and no fewer than any other; there is none exactly when all have one |
| Annotations.LargestAreBest | apps/console/lib/annotations.ts:278-285 | no choice of as many families leaves fewer marks than one that took the largest |
| Annotations.FusionnerAnnotations | apps/console/lib/annotations.ts:270-287 | the loop ends with marks within the bound or one a family, and no choice of fewer families meets the bound |
| Annotations.BoundIsReachable | apps/console/lib/annotations.ts:278-283 | some choice of families meets the bound if and only if there are no more non-empty families than the bound |
| Annotations.StandsAtLatest | apps/console/lib/annotations.ts:255-262 | the mark that stands for a list in time order is at its latest instant |
| Annotations.MergedMarks | apps/console/lib/annotations.ts:255-286 | the merged marks are in time order, families left alone are whole in them, and each regrouped one has a mark at the instant of the last of its list, of its kind, saying how many there are and linking to the list |
| AlertAnnotations.AnnotationsAlertes | apps/console/lib/annotations.ts:196-262 | the figure is unavailable exactly when the read is truncated; otherwise it lists the events of the window and scope and marks them all, or beyond six puts one mark at the latest instant of the list, with its size |
| AlertAnnotations.ShownExactly | apps/console/lib/annotations.ts:214-231 | an event of the read is shown exactly when it is readable, in the window (`to` excluded), of the app of the figure, and of its route or of none; its mark stands at its instant and links to it |
| AlertAnnotations.TronqueeExactly | apps/console/lib/annotations.ts:207-211 | a read is truncated exactly when it is full, holds a readable event, and every readable one is later than the start of the window |
| AlertAnnotations.ChoisisOf | apps/console/lib/annotations.ts:202-218 | the events listed are those of the read that concern the figure, each once, in time order |
| AlertAnnotations.OnlyTiesAreMissed | apps/console/lib/annotations.ts:207-211 | when alerts are drawn, an event of the figure left unread bears exactly the first instant of the window, as does the last event read |
| AlertAnnotations.CompleteExactly | apps/console/lib/annotations.ts:133-138 | of what a figure that draws its alerts read: every log that reads so is drawn whole if and only if the read is short, or its oldest event comes before the window, or the window is empty |
| AlertAnnotations.DistinctInstantsAreComplete | apps/console/lib/annotations.ts:133-138 | on distinct instants the drawn alerts miss none |
| AlertAnnotations.TieIsMissed | apps/console/lib/annotations.ts:207-211 | with two events at the first instant and a read of one, the figure misses the other and does not say so |
| ProjectGate.AliasIsRewrittenOnce | apps/console/lib/query-contract.ts:394-409 | the rewritten parameters need no second rewriting, keep every other parameter, and keep a range already given |
| ProjectGate.AliasMeans | apps/console/lib/query-contract.ts:394-409 | an alias alone becomes the range it names, thirty days dated to the minute; one that names none is dropped |
| ProjectGate.PorteProjet | apps/console/middleware.ts:200-234 | the steps of the gate give the answer of the rule: the app named if in scope, else that of the cookie, else the only one of the scope, else the selector |
| ProjectGate.WithoutSession | apps/console/middleware.ts:104-123 | a guarded request without a session passes if and only if its path is public; else it goes to `/presentation` from `/` and to `/login` from anywhere else |
| ProjectGate.SentToSignIn | apps/console/middleware.ts:104-123 | whoever is not signed in ends up reading the sign-in page, even from a form that was sent |
| ProjectGate.OutsideExactly | apps/console/middleware.ts:250-252 | which paths the middleware is not called on |
| ProjectGate.SelfGuardedExactly | apps/console/middleware.ts:59-99 | which routes authenticate their caller themselves |
| ProjectGate.AdminIsClosed | apps/console/middleware.ts:59-123 | every path under `/admin` or `/api/admin` is guarded and not public: without a session it goes to `/login` |
| ProjectGate.RefusedExactly | apps/console/middleware.ts:92-164 | 403 exactly for the demo when the method is neither GET nor HEAD and the path is none of `/logout`, `/select`, `/inscription`; 503 exactly for a page whose ES256 session the service does not answer about; no other refusal |
| ProjectGate.OtherRequestsPass | apps/console/middleware.ts:125-190 | with a session, what is not a console page passes and leaves the project cookie alone, but what the demo may not do, and the registration page, which goes home |
| ProjectGate.PageExactly | apps/console/middleware.ts:165-195 | a console page is read by GET outside `/api/`, `/admin`, the selector and the public pages |
| ProjectGate.GateRedirectsOnce | apps/console/middleware.ts:190-234 | a page without alias redirects at most once |
| ProjectGate.TwoRedirectsSettle | apps/console/middleware.ts:59-236 | from any request, for any fixed session and cookie, following at most two redirects reaches an answer that is not one |
| ProjectGate.RewrittenThenGated | apps/console/middleware.ts:194-199 | a page with the alias is redirected to itself without it, same app, and then answered by the gate |
| ProjectGate.TwoRedirectsHappen | apps/console/middleware.ts:190-226 | two redirects are needed by the home page with the alias and no project named |
| ProjectGate.GatedPassIsScoped | apps/console/middleware.ts:221-234 | a console page that passes names a non-empty app, inside the scope if there is one, and leaves the cookie equal to it |
| ProjectGate.OutOfScopeIsRefused | apps/console/middleware.ts:203-212 | a page that names an app outside the scope never passes: the selector, by name, unless the app is `all` |
| ProjectGate.PlaceholderNeverReachesTheGate | apps/console/middleware.ts:48-57 | the scope of the placeholder principal is never looked at: a page reads the answer of the service, and no other answer depends on the scope |
| LikePattern.JsonRoundTrip | apps/console/lib/attestation-rejeu.ts:45 | a JSON string as it is written reads back to the text, lone surrogates included, and leaves what follows its closing quote |
| LikePattern.WildcardsStandFor | apps/console/lib/attestation-rejeu.ts:38-46 | in a pattern `_` stands for one unit and `%` for any number of them |
| LikePattern.LitteralMatchesItself | apps/console/lib/attestation-rejeu.ts:45 | an escaped text matches itself and nothing else, whatever the pattern after it |
| LikePattern.MotifIsExact | apps/console/lib/attestation-rejeu.ts:38-46 | the pattern matches a detail if and only if the detail begins with the entry of the application |
| LikePattern.PatternsAreDisjoint | apps/console/lib/attestation-rejeu.ts:38-46 | a detail matched by the pattern of an application is matched by that of no other |
| LikePattern.WrittenIsFound | apps/console/lib/attestation-rejeu.ts:38-46 | any detail that begins with the entry of an application is found by its pattern |
| AlertScreen.GrilleDesJours | apps/console/lib/alertes-ecran.ts:102-104 | the grid holds exactly the days of the rows, each once, in order |
| AlertScreen.SeveriteExactly | apps/console/lib/alertes-ecran.ts:36-42 | critical are `critical`, `page` and `error`, warning `warning` and `warn`, everything else is information |
| AlertScreen.OneMoreCounted | apps/console/lib/alertes-ecran.ts:117-122 | one more row adds its count to its severity in the bar of its day, and to nothing else |
| AlertScreen.PointsParJour | apps/console/lib/alertes-ecran.ts:111-123 | each bar holds, by severity shown, the firings of the rows of its day |
| AlertScreen.BarsAreConserved | apps/console/lib/alertes-ecran.ts:125-128 | the bars add up to all the firings read |
| AlertTracks.PistesTirees | apps/console/lib/alertes-ecran.ts:196-221 | one track a key, with the label of its first firing, all the markers of its key in order and the state of its rule; an unreadable instant is the only failure |
| AlertTracks.AjouterFranchies | apps/console/lib/alertes-ecran.ts:222-235 | every breached rule has a track, added only if it has none, and no other track appears |
| AlertTracks.MarkerSays | apps/console/lib/alertes-ecran.ts:213-220 | a marker bears the instant, severity and number of its firing, is delivered if a delivery went through, and pending if none did and one waits |
| AlertTracks.StateSays | apps/console/lib/alertes-ecran.ts:222-235 | a rule that is off is off whatever it last said, one that never spoke was never evaluated, and it is breached exactly when it is on and last said so |
| AlertTracks.LabelIsFirst | apps/console/lib/alertes-ecran.ts:196-213 | a track is labelled by the first firing of its key |
| AlertTracks.StripOrder | apps/console/lib/alertes-ecran.ts:236-246 | in the strip rules come before objectives and objectives before issues, the busiest tracks of a group first, then by name |
| Sorting.SortIsStable | apps/console/lib/alertes-ecran.ts:236-246 | elements that rank alike stay in the order they came in |
| AlertTracks.PistesDeDeclenchements | apps/console/lib/alertes-ecran.ts:192-246 | the strip in its order: unique keys, a track for every firing and every breached rule, groups then activity then name |
| AlertTracks.GroupsAreContiguous | apps/console/lib/alertes-ecran.ts:236-246 | between two tracks of a group there is no other group |
| AlertTracks.FiringsAreConserved | apps/console/lib/alertes-ecran.ts:196-221 | every firing read is exactly one marker of exactly one track |
| AlertTracks.OwnDay | apps/console/lib/alertes-ecran.ts:276-282 | on a grid of days that do not overlap, a firing is ranged in the day that contains it and in no other |
| AlertTracks.Ranger | apps/console/lib/alertes-ecran.ts:276-282 | the downward loop adds one to the day of the instant, or to none |
| AlertTracks.DeclenchementsParRegle | apps/console/lib/alertes-ecran.ts:264-286 | one entry for each rule with a readable firing, with its latest instant and its count of each day |
| AlertTracks.DernierIsLatest | apps/console/lib/alertes-ecran.ts:275 | the latest instant of a rule is the largest of its readable firings, present exactly when it has one |
| AlertTracks.DayCounts | apps/console/lib/alertes-ecran.ts:276-283 | on a grid, the count of a day is the number of readable firings of the rule between its start and its end |
| Acquisition.HostDecidesChannel | apps/console/lib/acquisition.ts:32-40 | two external entries of the same referring host are of the same channel |
| Acquisition.ChannelExactly | apps/console/lib/acquisition.ts:32-40 | an entry is direct without a referrer, internal from the site itself, else of a search engine if its host holds the name of one, of a network if it holds that of one and of no engine, and referred otherwise |
| Acquisition.ChannelsAddUp | apps/console/lib/acquisition.ts:111-113 | the five channel counts add up to the number of entries |
| Acquisition.ReferAllOf | apps/console/lib/acquisition.ts:114-121 | the referrers kept are the hosts of the external entries, each once, with all its sessions and its channel |
| Acquisition.EnterAllOf | apps/console/lib/acquisition.ts:122-126 | the route rows are the non-empty routes of the entries, each once, with its sessions by channel |
| Acquisition.RowAddsUp | apps/console/lib/acquisition.ts:135-136 | a route row adds up to the entries of its route |
| Acquisition.ReferrersAddUp | apps/console/lib/acquisition.ts:114-121 | before the cut, the referrers of an external channel hold exactly its sessions |
| Acquisition.TopIsFirst | apps/console/lib/acquisition.ts:130-138 | under any order, what a cut list leaves out ranks after all it keeps, and the list is then full |
| Acquisition.RankingsAreOrders | apps/console/lib/acquisition.ts:130-138 | both rankings of the report are total preorders: by sessions then host, by entries then route |
| Acquisition.RankingsOnFields | apps/console/lib/acquisition.ts:130-138 | a referrer before another has more sessions, or as many and its host first in the alphabet; so for routes and their entries |
| Acquisition.Tally | apps/console/lib/acquisition.ts:108-127 | one pass over the entries gives the three tallies |
| Acquisition.AcquisitionReport | apps/console/lib/acquisition.ts:103-141 | the report holds the five counts in order and the total; its two lists are ranked, come from the referrers and the routes of the entries, and leave out only what ranks after a full list |
| Acquisition.ShareIsExternal | apps/console/lib/acquisition.ts:215-218 | the share outside direct and internal is that of the three external channels |
| Acquisition.SerieCanaux | apps/console/lib/acquisition.ts:157-173 | each point holds the entries of its bucket by channel, and the rest are counted off the grid |
| Acquisition.SeriesIsConserved | apps/console/lib/acquisition.ts:150-173 | channel by channel, the cells and the entries off the grid are all the entries, even with equal starts |
| Acquisition.OffGridAddsUp | apps/console/lib/acquisition.ts:163-169 | the count off the grid is that of its channels |

## Left out

- HybridFusion.PercentileDepuisSeaux: weights and shares are exact rationals, so the fallback for floating-point accumulation is out of reach; the value shown for a bucket (`valeurDuSeau`) stays its index.
- HybridFusion.FusionnerSeaux: the `Map` is a sequence of buckets in insertion order; a number that does not read as finite is `None`.
- HybridRuns.RefreshKeeps: the statement is one step, as the ingestion lock makes it; rows whose transaction is still open while identifiers are drawn, and `weighted_count`, are not modelled.
- HybridRead.HybridExact: the bucket of a value (`mip_seau`) is part of a measure; the two branches are assumed to use the same scale, as they call the same function.
- HybridRead.DedicatedConditionsAreIgnored: a condition on `service`, which the raw read of the vitals refuses, is compared as if it were read.
- Journal.CursorKeepsJournal: the fingerprint is the tuple that is hashed; collisions of the 32-bit `fnv1a` are not modelled. The columns present in the database are the same for both pages.
- Series.RankingIsRanked: a label is its rank in the collation of the database; sums and percentiles are exact reals.
- Buckets.GridCoversWindow: the offsets of Paris are its own around one change; other zones, and the years when Paris changed at another hour, are left out. Milliseconds and microseconds share one unit.
- ExplorerAst.PlanRoundTrip: a decoded cursor is given; the number of points of a query is given (it is that of `Buckets.BucketStarts`); base64url, `JSON.parse`, and the labels, columns and units of the registry are not modelled.
- Backend.EveryScheduleIsSafe: the configuration is fixed, as are the cryptographic checks (a handshake proves itself, does not, or throws); headers, deadlines of the fetch and the length of the pause are left out.
- Breaker.Aiguillage.Decider: the awaits of `voie` are collapsed onto the check of the breaker; the strict mode's log flag is left out.
- Breaker.Relais.Relayer: one call at a time; interleavings are those of the failures in `Breaker.RelayStaysWhileOpen`. The two checks of the body's size are one.
- PrincipalMemo.CallAgrees: a step is what runs between two awaits; HS256 tokens, which skip the memo, are left out.
- Annotations.FusionnerAnnotations: instants are read (a date that does not parse is not modelled in the merge).
- AlertAnnotations.CompleteExactly: the log has readable instants and the read is its most recent events; names and links are functions left open.
- ProjectGate.TwoRedirectsSettle: URL parsing and the request identifier are left out; the session answers the same to each request of the chain.
- LikePattern.MotifIsExact: matching is on UTF-16 units, where the database matches characters: the same for a literal prefix that ends with a comma.
- AlertTracks.PistesDeDeclenchements: the collation of labels is a rank; keys are pairs, as no source name holds a colon.
- Acquisition.AcquisitionReport: an entry holds the hosts `hostOf` reads; URL parsing is left out.
- `upsert_rum_session`: an older session upsert that nothing calls any more.
- `annotationsDeploiements`, `raisonsAnnotations`, `annotationRupture`: deployments and breaks would add the same listing again.
- `rollupCapability`, `hybrideDisponible`: capabilities published and schema probing, one lookup each.
- `parseExplorerQuery` beyond filters and plan: root keys, scope and range, checked one by one without interaction.
- `lireConfigBackend`, `cheminDe`, `eligible`, `lireDetailAttestation`: validation of a single argument.
- SQL text, bound parameters and identifier checks: a statement is its relational meaning.
- Tables of traffic and errors (`rum_rollup_hourly`): declared without a watermark and never read by the hybrid path.
- React screens, messages, labels and links.
