# Beacon server: a verified model of its data core

Beacon collects radio packets heard by many observers, each at a site (an IATA code). This project models the parts of
the server where several pieces of code must agree for a published number to be right, and proves that they do:

* **The hourly rollup protocol.** Observations are folded into 13 hourly tables while ingest adds observations, cleanup
  deletes raw packets, historical decryption adds messages and retention deletes rolled hours. `World` is the state
  machine (one step per SQL statement; a roll is two steps, snapshot and commit, with any other steps in between),
  `RollupStore.Store` holds the tables in fields and has one method per statement, proved to take exactly that step.
  `Protocol`, `RunTheorems` and `Freshness` prove theorems about every run, `RollOutcomes` says when a roll commits.
* **What the numbers mean.** `StatementMeaning` (the statements), `RowColumns`, `FamilyMeaning` and `SetMeaning` (every row of
  the 13 families), `SeriesTheorems`, `PathColumns`, `ActivityPoints`, `TelemetryPoints` and `EvidenceColumns` (the responses)
  state results in the columns of the rows behind them, with constants written out, apart from the functions that compute them.
* **Fast reads against a simple definition.** Distinct counts read back from buckets keyed by the exact set of sites
  (`SetBuckets`, `DistinctCounts`), the hourly series and its summary (`StatsSeries`, `SeriesTheorems`), path statistics
  (`PathStatistics`, `PathQuery`), observer activity stitched from rollups and a raw tail (`ObserverActivityRead`,
  `ActivityOnce`, `ActivityRace`), and the depth-capped packet pages with the walk through them (`PacketPages`, `PacketWalk`,
  `PacketExamples`).
* **Telemetry counter repair** (`CounterFilter`, `TelemetryBuckets`).
* **Crash-safe migrations** (`Migrations`, `MigrationRunner`) and **the versioned page cursor** with the walk that uses it
  (`Text`, `EvidenceCursor`, `RouteEvidence`).

`Base`, `Grouping` (GROUP BY and its laws), `Sorting` (ORDER BY, WHERE, LIMIT), `Runs`, `RawRows` and `HourFold` are shared
helpers. `dafny verify dfyconfig.toml` checks the whole project.

Times are integer microseconds (milliseconds in the telemetry modules), floating-point columns are `real`, tables are
sequences, sets or maps, hashes and digests are injective. A SQL sum that would be NULL is 0 beside a count of 0.

## Assumptions about the environment

They are the guards in `World.Enabled`:

* ingest keeps `heard_at` within 30 minutes of a packet's arrival and stores the observation within 5 minutes of it
  (95 minutes of rollup delay = 60 + 30 + 5), `beacon-server/db/rollup.go:27-29`;
* a packet's `last_heard_at` is never before the arrival of any of its observations (it is upserted first);
* the content hash of a rolled hour is an injective fingerprint, so the stored content stands for it;
* one rollup session at a time (the advisory lock), whose statements follow each other; a retention delete waits for an
  hour row that a roll has locked.

## What the proofs found

* **A live message can miss its re-roll.** `InsertChannelMessage` queues hours only when it is called as historical. A
  packet heard in an already rolled hour whose message arrives live (another observer hears a copy after the channel key
  became known) leaves that hour with stale talkers and nothing queued. `Freshness.StepKeepsFresh` gives the exact
  condition (`LiveGap`) for the invariant that covers the visible hours and the roll in flight: for an hour that is being
  rolled the message makes the roll stale at once and the visible hour at the commit. `Freshness.LiveMessageIsMissed` is a
  run that reaches it; runs whose messages are all historical never do (`Freshness.NoLostReroll`).
* **`CREATE INDEX CONCURRENTLY IF NOT EXISTS` can be recorded with an invalid index.** The repair path is entered on
  42P07 only, which `IF NOT EXISTS` suppresses. `Migrations.RetryRepairs` is the exact condition,
  `Migrations.LenientIndexStaysInvalid` a pair of start-ups that ends there.
* **Packets heard within one millisecond can fall between two pages.** The next cursor rounds a microsecond bound down to
  milliseconds; what lies in between is on neither page. Where no scan fills up the exact condition is
  `PacketWalk.WalksCompleteIff`: every page size from every cursor shows all that is wanted if and only if no two packets
  have their newest hearings in one millisecond (two equal times are such a pair). Where scans fill up,
  `PacketWalk.WalkIsExact` asks that a newest hearing shares its millisecond with no hearing of another packet, and
  `PacketExamples.FloorLosesAPacket` shows that the weaker condition does not do.
* **A walk can end early on an empty page.** A packet heard often at one site fills the scan again after it has been shown;
  the page is then empty, says there is no more, and older packets are never shown (`PacketExamples.EchoesCutTheWalkOff`).
  `PacketPages.StrandedIff` says over the table exactly which pages end a walk so; no walk ends this way when every site has fewer hearings of
  packets heard again later than a scan reads (`PacketPages.FewEchoesKeepPages`, `PacketWalk.WalkIsExact`).
* **A roll between two statements of an activity request can make observations count twice.** The watermark and the rows
  are read by separate statements with no transaction around them. When no recent hour is complete the tail is the end of
  the window minus 24 hours, off the hour if the window ends now; a roll of the hour it cuts, committed before the rows
  are read, adds the stored observations above the tail a second time. `ActivityOnce.EachObservationOnce` gives the exact
  condition in the state the rows are read from (a tail on the hour rules it out), `ActivityRace.CountsOnceIff` the exact
  condition in the state of the watermark read, over everything that may happen in between, and
  `ActivityRace.OneObservationCountsTwice` a run in which one observation shows as two.
* **A cursor whose window is not on whole milliseconds does not survive printing**: `EvidenceCursor.RoundTripIffValid`, with
  an instance in `EvidenceCursor.SubMillisecondWindowIsLost`. The HTTP handler cannot send one: it truncates the present to
  milliseconds, refuses durations with a finer part and reads both bounds in milliseconds
  (`beacon-server/internal/api/handlers/route_evidence.go:42-65`).

## Model

| member | source | states |
|---|---|---|
| RunTheorems.CompleteHourIsExact | beacon-server/db/sqlc/rollup.sql.go:188-197 | in every reachable state a complete hour's observation families are the aggregate over every observation ever inserted in that hour, also after cleanup deleted the raw rows |
| RunTheorems.ReadBackPackets | beacon-server/db/sqlc/rollup.sql.go:330-335 | end to end: the packet buckets of a complete hour, summed for any site filter, count the distinct packets ever heard there |
| RunTheorems.RegisteredHourIsClosed | beacon-server/db/sqlc/rollup.sql.go:237-245 | once an hour is 95 minutes old no continuation of the run adds an observation to it |
| RunTheorems.FirstRollIsFinal | beacon-server/db/sqlc/rollup.sql.go:247-250 | an hour complete at two moments shows the same observation families, whatever ran in between (cleanup, re-rolls, retention and re-registration) |
| RunTheorems.StepMovesStatus | beacon-server/db/sqlc/rollup.sql.go:207-216 | a status moves only missing to complete by a committed roll, missing to partial where raw deletion got there first; rows appear missing and leave by retention alone |
| RunTheorems.FinalUntilRetention | beacon-server/db/rollup.go:34-38 | complete and partial are final over whole runs until retention passes the hour |
| RunTheorems.ContentOnlyForCompleteHours | beacon-server/db/sqlc/rollup.sql.go:88-103 | family rows exist exactly for the complete hours of any reachable state |
| RunTheorems.RetentionIsExact | beacon-server/db/sqlc/rollup.sql.go:14-31 | retention leaves no hour, family or dirty row below its cutoff, keeps everything from it on, and bumps coverage exactly when an hour row goes |
| RunTheorems.StepRevision | beacon-server/db/sqlc/rollup.sql.go:118-122 | no step lowers revision + coverage, and a step that keeps it keeps what every hour shows |
| RunTheorems.RevisionValidates | beacon-server/db/sqlc/rollup.sql.go:122-127 | over any run, an equal revision means that every hour shows the same status and content |
| RunTheorems.CachedSeriesIsFresh | beacon-server/db/stats_series.go:15-27 | because the revision is read before the data, data read under a still current revision is current |
| RunTheorems.RollIsIdempotent | beacon-server/db/sqlc/rollup.sql.go:88-103 | rolling an hour twice with nothing in between leaves every family and the revision as the first roll left them, and the hour complete and unqueued |
| Protocol.StepKeepsInv | beacon-server/db/rollup.go:119-175 | every step keeps the protocol invariant: raw rows consistent, nothing lost where deletion has not reached, hours closed, content exact, the roll's hour held |
| Protocol.RunKeepsInv | beacon-server/db/rollup.go:99-116 | so does every run |
| Protocol.ClosedHour | beacon-server/db/rollup.go:27-29 | an observation that ingest may still insert is heard after the end of every registered hour |
| Protocol.DeleteKeepsInv | beacon-server/db/sqlc/queries.sql.go:256-272 | deleting a cohort loses only rows of hours up to raw_deleted_before + 30 minutes |
| Protocol.CommitKeepsInv | beacon-server/db/rollup.go:119-175 | a commit installs content that is exact for the whole history, although it reads an older snapshot |
| Freshness.StepKeepsFresh | beacon-server/db/sqlc/queries.sql.go:2273-2292 | each step keeps "complete and intact hours show the talkers of the current messages or are queued" if and only if it is not a live message for a packet heard in an hour that nothing will re-roll |
| Freshness.NoLostReroll | beacon-server/db/rollup.go:99-116 | no re-roll is lost over any interleaving of historical messages with rolls whose snapshots precede them |
| Freshness.MessageInHour | beacon-server/db/sqlc/rollup.sql.go:452-461 | a new message changes an hour's talkers exactly when it has a sender and its packet was heard in the hour |
| Freshness.RerollOfFreshHour | beacon-server/db/sqlc/rollup.sql.go:88-103 | re-rolling an hour that is fresh and not queued rewrites the very same tables |
| Freshness.LiveMessageIsMissed | beacon-server/db/sqlc/queries.sql.go:2283-2288 | a concrete run after which a live message leaves a complete intact hour stale and unqueued |
| Families.RollIsOrderFree | beacon-server/db/rollup.go:141-160 | every order that visits all 13 families gives the same tables |
| Families.TalkersIgnoreOthers | beacon-server/db/sqlc/rollup.sql.go:452-461 | messages of packets the hour did not hear do not show in its talkers |
| Families.TalkersIgnoreSenderless | beacon-server/db/sqlc/rollup.sql.go:452-461 | a message without a sender name does not show either |
| RollupStore.Store.constructor | beacon-server/db/rollup.go:41-45 | an empty database is the start of the state machine |
| RollupStore.Store.UpsertPacket | beacon-server/db/sqlc/queries.sql.go:5761-5786 | the first reception's columns stay, last_heard_at moves |
| RollupStore.Store.InsertObservation | beacon-server/db/sqlc/queries.sql.go:2332-2365 | takes the insert step: one row per packet and observer, nothing for an unknown packet; says whether a row went in |
| RollupStore.Store.InsertChannelMessage | beacon-server/db/sqlc/queries.sql.go:2273-2292 | takes the message step: one message per packet, and a historical one queues every hour its packet was heard in, refreshing queued ones |
| RollupStore.Store.DeleteOldPackets | beacon-server/db/sqlc/queries.sql.go:256-272 | deletes a full batch or all there is, the oldest first, never a locked or recent packet; observations and messages go along and raw_deleted_before never falls |
| RollupStore.Store.TouchPacket | beacon-server/db/sqlc/queries.sql.go:5198-5206 | last_heard_at only grows |
| RollupStore.Store.RegisterHours | beacon-server/db/sqlc/rollup.sql.go:237-245 | adds a missing row for every aligned hour from the first retained (or requested) one to 95 minutes ago, and changes no existing row |
| RollupStore.Store.MarkPartialHours | beacon-server/db/sqlc/rollup.sql.go:207-217 | exactly the missing hours that deletion reached become partial, and the revision moves exactly then |
| RollupStore.Store.DeleteStaleDirtyHours | beacon-server/db/sqlc/rollup.sql.go:60-64 | unqueues exactly the hours that can no longer be re-rolled |
| RollupStore.Store.DeleteOldRollups | beacon-server/db/sqlc/rollup.sql.go:14-31 | the tables after retention: nothing below the cutoff, the rest as it was, coverage moved exactly when an hour row went |
| RollupStore.Store.BeginRoll | beacon-server/db/sqlc/rollup.sql.go:188-197 | locks the hour and fixes the snapshot; a partial hour is settled in the same transaction, an unregistered one left alone |
| RollupStore.Store.FinishRollupHour | beacon-server/db/sqlc/rollup.sql.go:88-103 | the hour becomes complete with its content, its queue entry goes if the snapshot saw it, the revision moves when asked |
| RollupStore.Store.EndRoll | beacon-server/db/rollup.go:119-175 | commits what the snapshot rolls to, or leaves the tables alone on a failure or a row changed since the snapshot (which of the two, see ConflictIsRequeue and RollCommitsIff) |
| RollupStore.Store.RollHour | beacon-server/db/rollup.go:99-116 | with any foreign steps between snapshot and end: the outcome, the changed flag and the whole new state for every way the transaction can go; without a failure it is skipped if and only if the hour was queued before and a foreign step queues it again, and otherwise the hour is complete and queued exactly if it was queued meanwhile |
| RollOutcomes.RollCommitsIff | beacon-server/db/rollup.go:99-116 | that outcome over any foreign steps, told from the start tables and the steps alone: skipped with the tables left as the others made them, or complete with the content of the snapshot and the newer queue entry kept |
| RollOutcomes.ConflictIsRequeue | beacon-server/db/sqlc/rollup.sql.go:88-103 | in a reachable state the only row a commit can find changed is a queue entry that its snapshot saw |
| RollOutcomes.StepsQueue | beacon-server/db/sqlc/queries.sql.go:2273-2292 | over any foreign steps an hour's queue entry changes exactly when one of them is a new historical message of a packet heard in the hour, and then to a newer version |
| StatementMeaning.LockIsExact | beacon-server/db/sqlc/rollup.sql.go:188-197 | which status the lock reports: none unregistered, partial also where deletion has come within 30 minutes of the hour, with the interval written out |
| StatementMeaning.PartialMarkedIsExact | beacon-server/db/sqlc/rollup.sql.go:207-217 | the statement changes exactly the missing hours that deletion reached, and the revision exactly then |
| StatementMeaning.StaleIsExact | beacon-server/db/sqlc/rollup.sql.go:60-64 | which queue entries go |
| StatementMeaning.RegisteredIsExact | beacon-server/db/sqlc/rollup.sql.go:237-245 | which hours are registered: the full hours from that of the first stored observation, or from the bound, that ended 35 minutes ago |
| StatementMeaning.HourRowsAre | beacon-server/db/sqlc/rollup.sql.go:72-81 | the rows a roll reads are the hour's observations joined with their packets, column by column |
| StatementMeaning.HourRowsCount | beacon-server/db/sqlc/rollup.sql.go:72-81 | and as many as there are such observations |
| StatementMeaning.DeletedIsExact | beacon-server/db/sqlc/queries.sql.go:256-272 | what a deleted batch takes along and what it leaves, and where raw_deleted_before ends up |
| RowColumns.CategoryOfColumns | beacon-server/db/sqlc/rollup.sql.go:351-361 | the category in the row's columns: payload type 9, no hop, a path that fits its packed byte, or none of these |
| RowColumns.SnrOfColumns | beacon-server/db/sqlc/rollup.sql.go:434-438 | an SNR counts unless it and the RSSI are both zero or missing |
| FamilyMeaning.SiteRows | beacon-server/db/sqlc/rollup.sql.go:289-292 | one row for every site heard, with the number of its observations |
| FamilyMeaning.PayloadRowsSay | beacon-server/db/sqlc/rollup.sql.go:374-379 | one row for every site and reported payload type, with the number of observations |
| FamilyMeaning.SignalRowsSay | beacon-server/db/sqlc/rollup.sql.go:422-443 | one row for every site, one for every SNR bin of 5 from -30 and one for every RSSI bin of 10 from -140, each with receptions, samples and sums of its own observations |
| FamilyMeaning.PathRowsSay | beacon-server/db/sqlc/rollup.sql.go:342-366 | one row for every kind of path, width and hop count heard, with the number of observations |
| FamilyMeaning.ActivityRowsSay | beacon-server/db/sqlc/rollup.sql.go:299-311 | one row for every observer and payload type, a missing one filed under -1, with counts, sums and the least SNR of the reported readings |
| FamilyMeaning.IdentityRowsSay | beacon-server/db/sqlc/rollup.sql.go:318-323 | one row for every site and observer, with the number of observations |
| FamilyMeaning.HearingRowsSay | beacon-server/db/sqlc/rollup.sql.go:256-264 | one row for every site and advertised key, with the number of observations and the time of the last |
| FamilyMeaning.ScopeRowsSay | beacon-server/db/sqlc/rollup.sql.go:386-401 | a row for exactly the observers, and the advertised keys, heard with a scope at a site |
| SetMeaning.PacketRowsSay | beacon-server/db/sqlc/rollup.sql.go:330-335 | one row for every set of sites that is exactly where some packet was heard, with the number of such packets |
| SetMeaning.ScopedRowsSay | beacon-server/db/sqlc/rollup.sql.go:408-415 | the same per scope |
| SetMeaning.AdvertRowsSay | beacon-server/db/sqlc/rollup.sql.go:271-281 | the same per advertised key, with the adverts of route type 0 or 1 and of 2 or 3 counted apart |
| SetMeaning.TalkerRowsSay | beacon-server/db/sqlc/rollup.sql.go:452-461 | the same per sender, counting messages, with the latest time sent |
| SetMeaning.CompleteHourSays | beacon-server/db/rollup.go:141-163 | over every run, the twelve observation families of a complete hour say all of that of the observations ever inserted with heard_at in the hour |
| SetMeaning.FreshHourSays | beacon-server/db/sqlc/rollup.sql.go:452-461 | and its talkers of the messages stored now, where the hour is intact, not queued and nothing was overlooked |
| RollupStore.RebuildFamilies | beacon-server/db/rollup.go:141-163 | whatever order the map yields, the result is all 13 families of the snapshot |
| RollupStore.Cohort | beacon-server/db/sqlc/queries.sql.go:257-262 | the batch cleanup picks: full or exhaustive, oldest first, and its newest member |
| RollupStore.WithMissing | beacon-server/db/sqlc/rollup.sql.go:237-245 | the generated hours as missing rows under the existing ones |
| RollupStore.MarkLost | beacon-server/db/sqlc/rollup.sql.go:207-216 | the rows marked partial, and whether there were any |
| SetBuckets.DistinctFromBuckets | beacon-server/db/sqlc/series.sql.go:53-60 | for every set of hearings and every site filter, the buckets that meet the filter add up to the number of distinct things heard there |
| DistinctCounts.PacketSetsExact | beacon-server/db/sqlc/rollup.sql.go:330-335 | packet buckets count distinct packets for every site filter |
| DistinctCounts.ScopeSetsExact | beacon-server/db/sqlc/rollup.sql.go:408-415 | scope buckets count distinct packets per scope, for any choice of scopes |
| DistinctCounts.AdvertSetsExact | beacon-server/db/sqlc/rollup.sql.go:271-282 | advert buckets count distinct adverts, flooded and direct ones, for any choice of origins |
| DistinctCounts.TalkerSetsExact | beacon-server/db/sqlc/rollup.sql.go:452-461 | talker buckets count one message per packet heard, for any choice of senders |
| StatsSeries.GetStatsSeries | beacon-server/db/stats_series.go:14-65 | reads revision, earliest complete hour and rows in that order; lists hours with their status and values for complete ones only, the summary, and the number of complete hours (what they say: ResponseIsExact) |
| StatsSeries.ReadRows | beacon-server/db/stats_series.go:37-63 | the loop: every hour row becomes an hour, the summary row the summary |
| StatsSeries.EarliestComplete | beacon-server/db/sqlc/series.sql.go:14-16 | the least complete hour, if there is one |
| SeriesTheorems.HoursAre | beacon-server/db/sqlc/series.sql.go:36-40 | the i-th hour listed is since + i hours, and an hour is listed if and only if it is a whole number of hours after since and below until |
| SeriesTheorems.ResponseIsExact | beacon-server/db/stats_series.go:14-64 | the whole response on the rows of a reachable state: every hour of the window in order with its status, values exactly for the complete ones, and a summary and a count over exactly these |
| SeriesTheorems.SeriesIsExact | beacon-server/db/sqlc/series.sql.go:36-127 | in every reachable state each complete hour and the summary say what a scan of everything ever heard says, for every site filter: sums of receptions, packets once per hour, distinct observers, sites and scopes over the window, longest path, signal sums |
| SeriesTheorems.SignalTotal | beacon-server/db/sqlc/rollup.sql.go:422-445 | reading kind 3 only counts each reception once although it is also stored in an SNR bin and an RSSI bin |
| SeriesTheorems.CachedResponseIsFresh | beacon-server/db/stats_series.go:14-65 | a whole response, its three reads at three moments, equals a fresh one field for field as long as its revision is current |
| PathStatistics.FoldRows | beacon-server/db/paths.go:21-74 | fails exactly when a routed row is out of range; otherwise totals, widths, lengths and ascending hours are the sums of the rows they stand for |
| PathStatistics.FoldTotal | beacon-server/db/paths.go:54-67 | one total row goes into the totals, its width and its length bin |
| PathStatistics.FoldHour | beacon-server/db/paths.go:27-53 | one hourly row goes into the last point or opens the next |
| PathQuery.QueryConserves | beacon-server/db/sqlc/paths.sql.go:14-33 | both grouping sets keep every reception of the readings, in all and hour by hour |
| PathQuery.RolledPathsValid | beacon-server/db/sqlc/rollup.sql.go:342-366 | what a roll stores is classified: routed rows have width 1..3 and 1..63 entries within 64 bytes |
| PathQuery.GetPathStats | beacon-server/db/paths.go:16-75 | on readings a roll can have written it never fails and conserves every reception over categories, widths, lengths and hours, and within each hour over its categories and widths |
| PathQuery.PathStatsOfReachableState | beacon-server/db/paths.go:23-73 | in every reachable state the range error cannot happen, and any summary of the query conserves its receptions and counts the observations ever heard in the complete hours at the wanted sites |
| PathColumns.ServePathStats | beacon-server/db/paths.go:16-75 | what the loop returns from the stored paths of any reachable state never fails, conserves, and counts in every field the observations ever heard whose columns say so: trace by payload type 9, empty by a fitting path without a hop, each width and length by the routed ones of it, unclassified the rest; hour by hour too, with the longest path |
| PathColumns.SummaryIsExact | beacon-server/db/paths.go:23-73 | the same of any summary of the query's rows in any state of the protocol |
| ObserverActivityRead.GetObserverActivity | beacon-server/db/observers.go:220-390 | the aligned window; the tail start from the state of the watermark read; points and total of the rows grouped in the state of the row read, for hourly and for finer buckets (what a point says: HourlyResponseSays and FineResponseSays) |
| ActivityPoints.HourlyResponseSays | beacon-server/db/observers.go:302-326 | in the response, of the selected observations: points ascend on multiples of the interval, one for every observation; airtime is their sum, an average times the number of reporting observations is their sum and lies between two of them, the minimum is the least, and each field is absent if and only if none reports it; the total is their number |
| ActivityPoints.FineResponseSays | beacon-server/db/observers.go:356-384 | the same of the stored observations of the window, for finer buckets |
| ActivityPoints.WindowIs | beacon-server/db/observers.go:225-234 | the window ends now or at the last multiple of the interval up to the end asked for, and starts at the first multiple at least one window length back |
| ActivityPoints.TailIs | beacon-server/db/observers.go:272-281 | the tail starts an hour after the latest complete hour, but no earlier than 24 hours before the end |
| ObserverActivityRead.StitchedBucket | beacon-server/db/sqlc/queries.sql.go:815-841 | for any tail start and any gaps, a bucket adds up the complete hours that start below the tail and what is stored from it on |
| ActivityOnce.EachObservationOnce | beacon-server/db/observers.go:266-288 | clock, watermark and rows read at three moments of any run, with any gaps: every bucket is the aggregate of one selection from everything ever heard; it takes an observation twice if and only if a complete hour straddles the tail with stored observations of the observer above it (never with a tail on the hour), and one from outside the window if and only if a complete hour straddles its end (never within 35 minutes); otherwise no bucket counts too many |
| ActivityOnce.OneMomentCountsOnce | beacon-server/db/observers.go:266-288 | read at one moment, nothing counts twice and nothing outside the window |
| ActivityOnce.SelectionIsExactIff | beacon-server/db/observers.go:266-288 | with nothing missing where the rows are read, the selection is everything heard in the window if and only if neither tail nor end is straddled |
| ActivityOnce.ExactAcrossMoments | beacon-server/db/observers.go:266-288 | then every bucket is one pass over everything ever heard, whatever happened between the reads |
| ActivityRace.CountsOnceIff | beacon-server/db/observers.go:266-291 | in the state of the watermark read: every continuation counts every observation once if and only if no stored observation above the tail lies in an hour below it that is or can still become complete |
| ActivityRace.NeverCompletes | beacon-server/db/sqlc/rollup.sql.go:188-197 | an incomplete hour that deletion has reached and no committing roll holds stays incomplete over every run |
| ActivityRace.OneObservationCountsTwice | beacon-server/db/observers.go:266-291 | a run with a roll between the two statements whose response shows one observation as two |
| ActivityOnce.StitchedIsCounted | beacon-server/db/sqlc/queries.sql.go:815-841 | for any tail and any gaps each bucket is the aggregate of that selection |
| ActivityOnce.StepKeepsOnlyHeard | beacon-server/db/sqlc/queries.sql.go:256-272 | what is stored is always a part of what was ever inserted |
| ObserverActivityRead.SourcesAreDisjoint | beacon-server/db/observers.go:266-288 | when watermark and rows are read in one state no instant is on both sides of the tail |
| ObserverActivityRead.ActivityIsExact | beacon-server/db/observers.go:266-288 | when both reads see one state, the hours below the tail are complete and cleanup has not reached it, each bucket's count, airtime, SNR sum and minimum and RSSI sum are one pass over everything ever heard |
| ObserverActivityRead.RawBucketIsExact | beacon-server/db/sqlc/queries.sql.go:994-1008 | finer buckets are one pass over the stored rows, and over everything ever heard where cleanup has not reached the window |
| ObserverActivityRead.BucketsAscend | beacon-server/db/sqlc/queries.sql.go:839-840 | each bucket appears once, in ascending order |
| ObserverActivityRead.LatestComplete | beacon-server/db/sqlc/series.sql.go:25-27 | the greatest complete hour, if there is one |
| PacketPages.ListPacketsByIATAs | beacon-server/db/packets.go:192-253 | the page cut, hasMore and the next cursor over the query's rows; at most limit packets, none twice, the one last heard first by the scanned hearings, and the next cursor comes from the last of them or the scan floor |
| PacketPages.PageInOrder | beacon-server/db/sqlc/queries.sql.go:3849-3860 | that order, of every page |
| PacketPages.FloorIsExact | beacon-server/db/sqlc/queries.sql.go:3838-3848 | there is a scan floor exactly if some site returned 8 (limit + 1) rows, and it is the newest of such sites' oldest scanned times |
| PacketPages.PageShows | beacon-server/db/sqlc/queries.sql.go:3817-3860 | for every table, a matching packet whose newest hearing lies above the bound and below the cursor is on the page, although sites are scanned to a fixed depth and duplicates collapse |
| PacketPages.PageOnlyShows | beacon-server/db/sqlc/queries.sql.go:3849-3860 | a page shows only matching packets heard below the cursor and not at or above it |
| PacketPages.UnreadIsBelowFloor | beacon-server/db/sqlc/queries.sql.go:3838-3848 | whatever a saturated scan left unread lies at or below the scan floor |
| PacketPages.NextIsOlder | beacon-server/db/packets.go:235-248 | each next cursor is smaller than the cursor it came from |
| PacketPages.PageHasNoGap | beacon-server/db/packets.go:235-248 | at microsecond times every matching packet whose newest hearing lies in [next cursor, cursor) is on the page, when newest hearings keep their millisecond to themselves (to other newest hearings only, where no scan fills up) |
| PacketPages.EmptyPageIff | beacon-server/db/sqlc/queries.sql.go:3849-3860 | a page is empty exactly when its scans read only packets heard at or above the cursor |
| PacketPages.StrandedIff | beacon-server/db/packets.go:195-203 | over the table, where packets do not share a time: a page is empty above packets it should show if and only if each of their hearings has a whole scan of newer hearings of shown packets above it at its site |
| PacketPages.FewEchoesKeepPages | beacon-server/db/packets.go:195-203 | no page is empty below a filled scan when every site has fewer hearings of packets heard again later than the scan depth |
| PacketWalk.WalkIsExact | beacon-server/db/packets.go:162-253 | following next cursors shows exactly the wanted packets, for every page size, under those two conditions on the table |
| PacketWalk.WalkByColumns | beacon-server/db/sqlc/queries.sql.go:3817-3860 | the same in columns: payload and route type, scope and first hearing as asked, heard at a site asked for and not at or above the cursor |
| PacketWalk.LaterIsBelowNext | beacon-server/db/packets.go:235-248 | a packet of a later page was never heard at a requested site at or above the next cursor |
| PacketWalk.LaterIsOlder | beacon-server/db/packets.go:235-248 | below a page that its last row bounds no later page shows a packet heard after the newest hearing of one of its own |
| PacketWalk.WalkIsInOrder | beacon-server/db/packets.go:162-253 | where no scan fills up that is every page: the walk never goes back in time |
| PacketWalk.WalkShowsAll | beacon-server/db/packets.go:162-253 | under the first of them alone, unless the last page is empty although a scan filled up |
| PacketWalk.WalksCompleteIff | beacon-server/db/packets.go:235-248 | where no scan fills up, all page sizes from all cursors show everything wanted if and only if no two newest hearings share a millisecond |
| PacketWalk.OneOfTwoIsLost | beacon-server/db/packets.go:246-247 | of two packets with newest hearings in one millisecond, equal times included, a walk one by one from just above never shows both |
| PacketPages.ShownIffNotOlder | beacon-server/db/packets.go:238-247 | a page bounded by its last row shows a packet that is alone at its newest time if and only if it is not older than that row |
| PacketWalk.LeftOutForGood | beacon-server/db/packets.go:246-247 | what a page leaves out at or above its own next cursor no later page shows |
| PacketExamples.SubMillisecondTimesLoseAPacket | beacon-server/db/packets.go:246-247 | two packets within a millisecond, one per page: the second is never shown |
| PacketExamples.FloorLosesAPacket | beacon-server/db/packets.go:243-247 | a scan floor at an old hearing loses a packet of its millisecond although no two newest hearings share one |
| PacketExamples.EchoesCutTheWalkOff | beacon-server/db/packets.go:195-203 | seventeen hearings of one packet end the walk on an empty page above an older packet |
| CounterFilter.Counter.constructor | beacon-server/internal/api/telemetry.go:79-81 | a new counter is unseeded |
| CounterFilter.Counter.Add | beacon-server/internal/api/telemetry.go:31-52 | the increment and the whole new state, for seeding, gap, reboot, rejection and re-seeding |
| CounterFilter.IncrementBound | beacon-server/internal/api/telemetry.go:39-51 | an increment lies between 0 and twice the rate over the gap, and only an accepted reading has one |
| CounterFilter.SpanBound | beacon-server/internal/api/telemetry.go:43-51 | the increments of any ascending list fit in twice the rate over the span from baseline to baseline |
| CounterFilter.TotalBound | beacon-server/internal/api/telemetry.go:31-52 | all increments of an ascending list fit in twice the rate over last minus first time |
| CounterFilter.HonestTelescopes | beacon-server/internal/api/telemetry.go:35-51 | from a baseline on, honest growth loses nothing: the increments add up to the final value minus the baseline |
| CounterFilter.HonestCounterTelescopes | beacon-server/internal/api/telemetry.go:35-51 | so from a fresh counter they add up to the final minus the first reading |
| CounterFilter.BootsTelescope | beacon-server/internal/api/telemetry.go:39-42 | over any number of reboots honest growth adds up to the last total of every boot, less the baseline |
| CounterFilter.TwoReadings | beacon-server/internal/api/telemetry.go:31-52 | what the second reading adds to the first, in numbers: its growth if it comes within the gap and is at most twice the rate allows, else nothing |
| CounterFilter.FewRejects | beacon-server/internal/api/telemetry.go:44-50 | the reject count stays below 3 between calls on any input |
| CounterFilter.ThirdRejectionReseeds | beacon-server/internal/api/telemetry.go:44-50 | the third rejected reading in a row becomes the new baseline with increment 0 |
| TelemetryBuckets.BucketTelemetry | beacon-server/internal/api/telemetry.go:77-146 | the loop over rows with three counters gives one point per bucket, with sums, rounded means and the uptime |
| TelemetryPoints.ServeTelemetry | beacon-server/internal/api/telemetry.go:77-146 | on ascending rows: a point for exactly the buckets some row that is no replay lands in from since on, and in it each counter its column's increments at one second of airtime or ten errors a second, each mean its sum over its count (rounded for battery and queue), the longest uptime, and each field absent if and only if no row reports it |
| TelemetryPoints.TelemetryIsExact | beacon-server/internal/api/telemetry.go:77-146 | the same of any answer made from the buckets |
| TelemetryPoints.TraceFollows | beacon-server/internal/api/telemetry.go:85-102 | the state between rows is that of three counters read at every row that is no replay, rebooted where the uptime fell |
| TelemetryBuckets.BucketsPartition | beacon-server/internal/api/telemetry.go:99-119 | bucket starts strictly ascend, each bucket is the fold of exactly the rows that start there, and any choice of buckets adds up to the rows in them |
| TelemetryBuckets.ItemsAligned | beacon-server/internal/api/telemetry.go:103 | every bucket starts on a multiple of the size |
| TelemetryBuckets.RowLands | beacon-server/internal/api/telemetry.go:85-106 | a replayed row changes nothing, a row before since only the baselines, any other lands in the bucket of its time |
| TelemetryBuckets.BucketBound | beacon-server/internal/api/telemetry.go:104-110 | no bucket total reaches four times the rate over the bucket size |
| TelemetryBuckets.BucketMeanWithin | beacon-server/internal/api/telemetry.go:134-142 | each mean lies between the bounds of its bucket's samples |
| TelemetryBuckets.BucketUptime | beacon-server/internal/api/telemetry.go:117-119 | a bucket's uptime is the largest reported in it |
| Migrations.MigrationsSurviveCrashes | beacon-server/db/migrate.go:92-103 | over any start-ups with any crashes a transactional file is applied once if recorded and never otherwise, a recorded concurrent index exists and is valid unless it says IF NOT EXISTS, and the baseline check never locks the database out |
| Migrations.StartKeepsInv | beacon-server/db/migrate.go:145-199 | one start-up keeps that, however it ends, and one that succeeds has recorded every file |
| Migrations.UndisturbedStartCompletes | beacon-server/db/migrate.go:59-88 | after any crashes, one undisturbed start-up completes and records every file |
| Migrations.UndisturbedStart | beacon-server/db/migrate.go:111-199 | on any database: refused unchanged exactly if the ledger has rows but not the baseline's or there are packets without a ledger row, otherwise every new file takes effect once, every recorded one is left alone, and the ledger gains exactly the files |
| Migrations.RetryRepairs | beacon-server/db/migrate.go:57-88 | a retry repairs an invalid index if and only if the file does not say IF NOT EXISTS |
| Migrations.LenientIndexStaysInvalid | beacon-server/db/migrate.go:32-37 | a broken build and a clean restart that leave such a file recorded with an invalid index |
| MigrationRunner.Connection.ApplyMigration | beacon-server/db/migrate.go:59-88 | the calls on the connection are those of the model, whatever fate each meets |
| MigrationRunner.Connection.ApplyAndRecord | beacon-server/db/migrate.go:92-103 | likewise, with file and ledger row in one call or two |
| MigrationRunner.Connection.CheckBaseline | beacon-server/db/migrate.go:111-125 | refuses exactly a ledger without the baseline and tables without a ledger |
| MigrationRunner.Connection.ApplyUnlessRecorded | beacon-server/db/migrate.go:169-195 | a recorded file is skipped, any other applied, as in the model |
| MigrationRunner.Connection.RunAll | beacon-server/db/migrate.go:145-199 | the whole start-up is the model's |
| EvidenceCursor.PrintThenParse | beacon-server/internal/api/route_evidence.go:82-111 | a valid cursor printed and parsed is itself; the length limit never rejects it |
| EvidenceCursor.ParseThenPrint | beacon-server/internal/api/route_evidence.go:86-111 | an accepted text parses to a valid cursor that prints as that text |
| EvidenceCursor.AcceptsExactlyPrints | beacon-server/internal/api/route_evidence.go:86-111 | the parser accepts exactly the printed forms of valid cursors |
| EvidenceCursor.RoundTripIffValid | beacon-server/internal/api/route_evidence.go:82-84 | a cursor survives printing if and only if it is valid, whole-millisecond window included |
| EvidenceCursor.SubMillisecondWindowIsLost | beacon-server/internal/api/route_evidence.go:82-84 | a cursor with a window off the millisecond comes back as another cursor |
| EvidenceCursor.ParseCursor | beacon-server/internal/api/route_evidence.go:86-111 | the loop over the four numbers, with its bounds, computes the parser |
| RouteEvidence.SavedPathInjective | beacon-server/db/route_evidence.go:18-32 | two saved routes of one hop count that look for the same width and bytes have the same prefixes |
| RouteEvidence.GetRouteEvidence | beacon-server/db/route_evidence.go:34-93 | rejects bad requests and foreign cursors, reports a route without a usable path, and otherwise cuts the page and prints the next cursor |
| EvidenceColumns.SavedPathIff | beacon-server/db/route_evidence.go:18-32 | a route is looked for by this width and these bytes if and only if it has 2 to 63 prefixes of that width, 1 to 3, and the bytes spell them one after the other |
| EvidenceColumns.RefusedIff | beacon-server/db/route_evidence.go:34-42 | refused exactly if site, key, window or limit is no good or the cursor text is not the printed form of one for this request, both written out |
| EvidenceColumns.AvailableIff | beacon-server/db/route_evidence.go:54-57 | whether the match is available, and nothing shown if not |
| EvidenceColumns.WalkShowsEvidence | beacon-server/db/sqlc/route_evidence.sql.go:43-59 | a walk of enough pages shows a report if and only if its columns match: site, window, hop count, a type other than 9, and bytes that spell the prefixes; newest first, then higher id first |
| RouteEvidence.QueryIsSuffix | beacon-server/db/sqlc/route_evidence.sql.go:55-58 | the keyset predicate selects exactly what follows the cursor's report, and the first bound excludes nothing |
| RouteEvidence.CursorSurvives | beacon-server/db/route_evidence.go:87-91 | a next cursor, sent back and parsed, is accepted for the same request |
| RouteEvidence.PageAt | beacon-server/db/route_evidence.go:62-91 | the page after any number of reports shows the next ones and says where to go on |
| RouteEvidence.WalkIsExact | beacon-server/db/route_evidence.go:62-91 | following cursors to the end shows every matching report exactly once, newest first, for every limit, also among equal timestamps |

## Left out

* MQTT, HTTP, WebSocket, Redis, profiling, backup, start-up code and the web client: plumbing and user interface.
* Packet decoding, the key and scope stores and ingest itself: they appear only as the assumptions above.
* The finer concurrency of single statements: every statement but the roll is one atomic step. In particular a retention
  delete that waited on a roll's row lock with an older statement snapshot is not modelled; here it takes place after the roll.
* Errors of the database connection outside a roll and outside migrations.
* Display names stored inside families, the order of hours in the missing and dirty work lists, and the counters
  `observation_count` and `message_count`.
* Rounding, NaN and infinity of floating point; int32 and int64 overflow of results; index-name case folding.
* The per-item packet summary fields, endpoint lookups and the unfiltered packet list.
* The live summary and payload-type breakdown of observer activity, and its radio fields.
* The duplicate check on the observation is by packet and observer, without its other columns.
- ObserverActivityRead.ActivityIsExact: states exactness for intervals of whole hours, because those are the coarse intervals the handler offers (1h, 6h, 24h); a rolled hour cannot be split over two buckets.
- ActivityPoints.HourlyResponseSays: likewise for intervals of whole hours, on an interval that is a multiple of one hour.
- RouteEvidence.WalkIsExact: is about windows on whole milliseconds on a table that does not change during the walk, because only such windows survive printing (see RoundTripIffValid) and the walk promises nothing about rows that come or go.
- PacketWalk.WalkIsExact: is about a table that does not change during the walk and holds no time in the first millisecond of 1970, where a next cursor would read as none. Its two conditions are sufficient where scans fill up; the converse is stated only where none does (WalksCompleteIff), since a packet is lost there only if a page happens to end inside the shared millisecond.
- Migrations.MigrationsSurviveCrashes: a non-transactional file without a concurrent index (VACUUM, say) is applied at least once, not exactly once, because its effect and its ledger row are two calls.
