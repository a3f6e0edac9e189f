# FX analyzer verification model

The system ingests daily exchange rates and policy rates from two providers, keeps every version of every
observation together with the interval during which it was the latest knowledge, and answers questions "as of"
any past instant. Workers claim ingestion runs from a shared database, fetch one scope of dates at a time, and may
die at any point; a planner decides what is due, and a quality service judges what is missing.

This project models that behaviour and proves properties of it over every input, every run and every interleaving:

| file | what it models |
|---|---|
| `Observations.dfy` | the revision rule that turns sightings into an immutable version timeline, in place and as a function |
| `AsOf.dfy` | as-of reads, and a naive event log that they refine |
| `Lineage.dfy` | what the lineage table says about every run of sightings |
| `Keyset.dfy`, `Cursor.dfy`, `CursorFormat.dfy`, `Paging.dfy`, `HistoryRules.dfy` | ordered pages, opaque cursors, one request's refusals and rows, and a whole walk while the store grows |
| `Pipeline.dfy`, `BatchProvenance.dfy`, `Duplicates.dfy`, `SharedStore.dfy` | one fetched batch, its counters and quarantine, where its rows come from, ingesting it twice, and ingesting it among other writers |
| `Decimals.dfy`, `Fingerprints.dfy` | canonical decimal text and the tree behind a fingerprint |
| `IngestionTables.dfy`, `IngestionRules.dfy`, `IngestionProtocol.dfy` | run and scope rows, what every transaction on them means, and all interleavings |
| `ConflictOutcomes.dfy`, `WorkerOrder.dfy` | who gets a contested series, and the order in which a worker goes through its run |
| `ContestedGroups.dfy`, `ContestedDays.dfy`, `ContestedRuns.dfy` | which sets of waiting scopes can come to nothing, what becomes of their days, and runs from the empty database |
| `ClaimLocking.dfy`, `ClaimRaces.dfy`, `RacedRuns.dfy` | the same per step inside a claim, with and without the advisory lock |
| `Expectations.dfy`, `Scheduling.dfy`, `ReleaseRules.dfy` | release dates, due instants and planned commands, and what they mean on calendar and clock |
| `Quality.dfy`, `QualityReports.dfy` | assessments, and every field of them |
| `BisRequests.dfy`, `BisParser.dfy`, `BisReordering.dfy`, `BisRecords.dfy` | splitting requests, decoding responses by dimension name, and where each field of a record comes from |
| `EffectivePeriods.dfy`, `ReferenceTables.dfy`, `ReferenceSync.dfy`, `ReferenceRules.dfy` | configured periods, the reconciling of reference tables, and what each row then says and refers to |
| `Retries.dfy` | the bounded retry loop |

Instants are microseconds since the epoch in UTC and dates are days since the same epoch. A row's identifier is its
position in its table unless said otherwise. Values the source takes from the outside (clock readings, random draws,
replies, hash values, time zones) are parameters.

## Findings

Properties one would expect of the code that do not hold of it, each with its exact condition:

* **A manual run and those it conflicts with can cancel each other out.** The claim of a manual run raises on an
  overlap; its transaction, and with it the advisory lock, is over before the handler's own transaction fails the
  scope. A contender that claims in between still sees the scope waiting and gives up too. Take any finite set of
  waiting scopes together with every active scope that contends with one of them, let each worker go through its run
  in order of the scopes' identifiers, one scope over before the next is claimed, and let no new run be submitted.
  Two things have to precede others: a scope ends before its worker's next scope of the set is claimed, and it loses
  its claim before some contender of it ends (a skipped scope ends as it loses its claim, a rejected one later). The
  whole set can end skipped or rejected exactly when every nonempty set of these claims and endings has one that need
  not precede another of them, so that it can be the last (`ContestedGroups.AllLoseExactlyWhenOrdered`).
  * For scopes of different runs this says: exactly when each is contested and linked to a scope of a manual run by a
    chain of conflicts (`ContestedGroups.AllLoseExactlyWhenExposed`), and when each conflicts with every other, exactly
    when one belongs to a manual run (`ContestedGroups.MeleeLosesExactlyWhenManual`, for two
    `ContestedGroups.BothLoseExactlyWhenManual`, from an empty database `ContestedRuns.ManualAndScheduledBothLose`).
  * With several scopes in one run the order matters: a manual and a scheduled run for the same two series can lose all
    four scopes when both workers take the series in the same order, and cannot when they take them in opposite orders
    (`ContestedRuns.OrderDecides`).
  * Submissions in between can make a given set of automatic scopes lose, but never the set enlarged by what was
    submitted: automatic scopes together with everything active since that conflicts with them never all lose
    (`ConflictOutcomes.AutomaticClustersNeverAllLose`).
* **A contested day can be left to nobody.** Scopes are skipped whole, so a scope for days 1 to 5 skipped because of
  one for days 4 to 8 drops days 1 to 3. Two automatic scopes with nobody else in the way and no new submissions always
  keep every day they want exactly when they want the same days (`ContestedDays.DaysKeptExactlyWhenSameRange`).
* **The advisory lock is not what excludes running scopes.** A waiting scope already counts as active, so of two
  overlapping claims the later check sees the other scope, lock or no lock
  (`ClaimLocking.RunningScopesNeverConflict`). What the lock decides is whether racing claims can all end skipped:
  waiting automatic scopes, with everything that contends with them, no claim under way, each worker in order and no
  new submissions, can exactly when the engine takes no lock and every nonempty set of their checks and commits has one
  that can be the last (`ClaimRaces.AllSkipExactlyWithoutLock`). For scopes of different runs the latter means that
  each is contested (`ClaimRaces.AllSkipExactlyWhenContested`); for two runs of two scopes each it depends on the order
  of the workers (`RacedRuns.RaceOrderDecides`).
* **Ingesting a batch again is not always idempotent, even without a duplicate conflict.** A candidate dated beyond
  the future tolerance is quarantined the first time and inserted once its day is near enough. A batch that went
  through repeats exactly when there is no conflict and every such candidate was already held before
  (`Duplicates.ReingestionRepeatsExactly`); in a store that holds nothing beyond the tolerance, exactly when there is
  neither a conflict nor such a candidate (`Duplicates.ReingestionOfAdmittedStore`, `Duplicates.FutureDatedIsInsertedLater`).
* **A recovered worker can make another scope's counters wrong.** It changes no run or scope row any more, but it may
  still persist observations of dates that a later scope now runs for, and that scope's counters then miss versions its
  own observations gained (`SharedStore.RecoveredWorkerBreaksBalance`).
* **A failed scope may have stored everything**, if its binding sets the optional quality trigger, which no binding of
  the application does. When the trigger raises behind the last record, the scope counts one failure and no record,
  though all of them are stored (`Pipeline.FailedScopeKeepsPrefix`).
* **The planner raises instead of planning nothing** while a policy's first effective date lies after the local
  date (`Scheduling.LatestDueFailsExactly`).
* **A retry delay can be negative**, for a policy with a negative backoff duration, which nothing refuses
  (`Retries.DelaysInRangeExactly`).

## Model

| member | source | states |
|---|---|---|
| Observations.RevisionService.LockOrCreate | app/repositories/observations.py:65-81 | the row of a natural key exists afterwards: the old one untouched, or an empty new one, and no other row changes |
| Observations.RevisionService.ApplyRevision | app/repositories/observations.py:254-280 | revising a locked row in place does what the revision rule says: refuse, stamp the current version, or close it and open the next |
| Observations.RevisionService.RecordLineage | app/repositories/observations.py:298-304 | a sighting is recorded once per version, run and raw record and keeps the later time |
| Observations.RevisionService.PersistCandidate | app/repositories/observations.py:182-214 | one persist transaction: an invalid, unsourced or out-of-order candidate leaves every table as it was |
| Observations.ApplyKeepsTimeline | app/repositories/observations.py:254-280 | one accepted revision keeps the whole timeline invariant |
| Observations.RunKeepsTimelines | app/repositories/observations.py:254-309 | after any calls in any time order, versions are numbered 1..n, intervals abut, only the last is open and current, neighbours differ, none is invalid |
| Observations.RunMeetsDeclaredConstraints | app/database/models.py:281-292 | no run of persists violates a unique, partial-unique or check constraint of the version table, given candidates with a 64-character fingerprint and, for FX, a positive value; the enumerated columns hold one value or a state that is never "invalid" |
| Lineage.LineageIsLatestSighting | app/repositories/observations.py:298-304 | after any calls there is a line for exactly the sighted versions, runs and raw records, showing the latest retrieval time of its accepted sightings |
| Lineage.LastObservedIsLatestLine | app/repositories/observations.py:254-304 | every line names a stored version, and a version was last observed at the latest time its lines show |
| AsOfReads.VisibleIsUnique | app/repositories/observations.py:97-113 | at no instant are two versions of an observation visible |
| AsOfReads.CurrentIsOpen | app/repositories/observations.py:83-113 | the row the current pointer names is the open row, which is what a read without an instant finds |
| AsOfReads.ApplySimulatesLog | app/repositories/observations.py:254-280 | one sighting is accepted exactly when the log accepts it, reports what it does to the log, and keeps every as-of answer in step |
| AsOfReads.RunSimulatesLog | app/repositories/observations.py:174-309 | the simulation holds over whole runs and all observations |
| AsOfReads.AsOfRefinesLog | app/repositories/observations.py:90-113 | as of t one reads the last-processed accepted sighting retrieved by t, or nothing when there is none or the date lies after t |
| AsOfReads.OutcomeRefinesLog | app/repositories/observations.py:182-280 | a persist succeeds exactly when the log accepts the sighting, and its outcome is its effect on the log |
| AsOfReads.PersistKeepsPast | app/repositories/observations.py:97-113 | a persist at T alters no as-of answer before T |
| AsOfReads.RunKeepsPast | app/repositories/observations.py:97-113 | nor does any sequence of later persists |
| AsOfReads.UnchangedIsInvisible | app/repositories/observations.py:258-261 | an "unchanged" outcome alters no as-of answer at any instant |
| Keyset.ListingIsUnique | app/application/queries/observations.py:99 | ordering by date and id leaves exactly one listing of the rows |
| Keyset.PageAtPosition | app/application/queries/observations.py:220-244 | the page behind the k-th row is the next pageSize rows of the listing, and names a successor exactly when more follow |
| Keyset.CollectAll | app/application/queries/observations.py:91-100 | walking unchanging rows page by page ends and yields the whole listing |
| Cursors.FromDayRoundTrip | app/application/queries/observations.py:227-236 | the calendar date of a day number leads back to it, over Python's whole date range |
| Cursors.IsoRoundTrip | app/application/queries/observations.py:227-236 | an ISO date text parses to its date |
| Cursors.UndashedDashed | app/application/queries/observations.py:227-236 | the grouped identifier text gives its digits back |
| Cursors.JsonPairRoundTrip | app/application/queries/observations.py:228-235 | the JSON array of two plain texts parses to both |
| Cursors.Base64RoundTrip | app/application/queries/observations.py:229-234 | base64url decoding (section 5 of RFC 4648) inverts encoding for every byte text |
| Cursors.PaddingRoundTrip | app/application/queries/observations.py:229-234 | stripping the padding and padding again restores the encoded text |
| Cursors.CursorRoundTrip | app/application/queries/observations.py:227-238 | every position a page can end at survives the opaque text, which is never empty |
| CursorFormat.DaysFollowCalendar | app/application/queries/observations.py:227-236 | day numbers follow the Gregorian calendar: day 0 is 1970-01-01 and each day is followed by the next date, leap years included |
| CursorFormat.AlphabetIsStandard | app/application/queries/observations.py:229 | sextets are written in the order of Table 2 of RFC 4648, with characters that need no escaping in a URL |
| CursorFormat.GroupIsBigEndian | app/application/queries/observations.py:229 | four characters stand for the number three bytes make |
| CursorFormat.CursorMeans | app/application/queries/observations.py:227-229 | a cursor is URL-safe and its bytes are the JSON array of the ISO date and the dashed hexadecimal identifier |
| Paging.FilterDropsNothing | app/application/queries/observations.py:157-162 | the extra validation-state filter removes no visible row |
| Paging.SnapshotIsAsOf | app/application/queries/observations.py:148-162 | the joined rows are exactly the versions the as-of read returns for the observations in range |
| Paging.RunKeepsSnapshot | app/application/queries/observations.py:148-162 | persists retrieved after the instant leave the snapshot as it was |
| Paging.CollectIgnoresText | app/application/queries/observations.py:220-244 | a walk that passes positions through opaque text collects what one that passes the positions themselves collects |
| Paging.WalkIsSnapshot | app/application/queries/observations.py:71-100 | a walk over the FX history with one fixed instant ends and yields the sorted snapshot, each observation once, though the store grows and the local date changes between requests |
| HistoryRules.RefusalsMean | app/application/queries/observations.py:71-85 | a request is refused for inverted dates, dates before 1900 or after today, more than 9132 days, a page size outside 1 to 500 or a cursor that does not decode, each with its own error in this order, and answered otherwise |
| HistoryRules.PageMeans | app/application/queries/observations.py:91-100 | an answer holds the first rows behind its cursor by date and identifier, at most a page; a successor exactly when rows remain, whose cursor leads back to the last row |
| Pipeline.SharedPipeline.Process | app/application/ingestion/orchestrator.py:99-144 | one record: quarantined, skipped, persisted and counted, or raised with nothing kept; what passes is said in BatchProvenance.BatchMeans |
| Pipeline.SharedPipeline.Execute | app/application/ingestion/orchestrator.py:90-97 | the batch loop runs the records in order and stops at the first raise, keeping what came before; a raise of the quality trigger keeps them all |
| Pipeline.PersistAddsVersion | app/repositories/observations.py:254-280 | a persist adds one version row unless it reports "unchanged", and loses none |
| Pipeline.AdmittedIsStorable | app/domain/validation.py:131-136 | a candidate that passes validation fits the version table: an FX value is positive |
| BatchProvenance.BatchMeans | app/application/ingestion/orchestrator.py:99-144 | a batch that goes through: every version gained carries the data, state, time, run and raw row of a record that is mapped, free of errors, at most one day ahead and positive if FX; every such record is stored; every other mapped record has one quarantine row at validation and every unmapped one at mapping, each with its raw row, and there are no others |
| BatchProvenance.FirstRecordsMean | app/application/ingestion/orchestrator.py:93-94 | the same for the first n records, so also for those before a raise |
| BatchProvenance.CountsMean | app/application/ingestion/orchestrator.py:90-144 | a batch that goes through counts as inserted the observations that got their first version, as revised the further versions, as quarantined the rows added, and as unchanged the remaining candidates |
| Pipeline.SucceededScopeAccounts | app/application/ingestion/orchestrator.py:90-97 | a scope succeeds exactly when no record and not the quality trigger raised; with nobody else writing, its counters add up over all records and equal the growth of versions and quarantine |
| Pipeline.FailedScopeKeepsPrefix | app/application/ingestion/orchestrator.py:239-249 | with nobody else writing, a failed scope counts one failure only, and what it stored is exactly the records before the one that raised, or all of them when the quality trigger, if any, did |
| SharedStore.SharedBatchBalances | app/application/ingestion/orchestrator.py:90-144 | while others persist outside the scope between its records, the counters add up over all records and equal the growth of the scope's own versions and of the quarantine rows it adds |
| SharedStore.SharedBatchIsAlone | app/application/ingestion/orchestrator.py:90-144 | while others persist outside the scope between its records, a batch goes through or raises as it would alone, with the same counters, quarantine rows and own observations |
| SharedStore.FailedSharedBatchKeepsPrefix | app/application/ingestion/orchestrator.py:239-249 | a batch that raises among others leaves its own observations as the records before that one make them |
| SharedStore.RunningScopesWriteApart | app/application/ingestion/scope_coordinator.py:37-51 | in every reachable state, no observation lies within two running scopes of different runs and one kind, so workers of running scopes do write outside each other |
| SharedStore.RecoveredWorkerBreaksBalance | app/application/ingestion/run_manager.py:90-118 | a late persist into the scope's own dates makes its observations gain a version its counters do not show |
| Duplicates.DetectBatchDuplicates | app/domain/validation.py:174-195 | the loop over a dictionary of first fingerprints finds what comparing with the earliest candidate of each key finds |
| Duplicates.FindingsMean | app/domain/validation.py:174-195 | one finding for each candidate that repeats an earlier key, in order: identical or in conflict as its fingerprint is or is not that of the earliest candidate of the key |
| Duplicates.NoConflictMeansKeysAgree | app/domain/validation.py:174-195 | no conflict is reported exactly when any two candidates of one key have one fingerprint |
| Duplicates.UnchangedExactlyWhenHeld | app/repositories/observations.py:256-261 | a candidate reports "unchanged" exactly when the current version is it, and then nothing held changes |
| Duplicates.RepeatsExactlyWhenHeld | app/application/ingestion/orchestrator.py:93-144 | a batch goes through and inserts and revises nothing exactly when no record raises and the store holds every admissible candidate beforehand |
| Duplicates.IngestStoresNothingBeyond | app/domain/validation.py:90-95 | a batch stores no observation dated beyond the future tolerance of its retrieval |
| Duplicates.ReingestionRepeatsExactly | app/application/ingestion/orchestrator.py:93-144 | a batch that went through repeats later exactly when its admitted candidates hold no conflict and each of the others that has come within tolerance was held before the first time |
| Duplicates.ReingestionOfAdmittedStore | app/application/ingestion/orchestrator.py:93-144 | in a store with nothing dated beyond the first tolerance, exactly when there is no conflict and none of the others has come within tolerance |
| Duplicates.RepeatChangesNothing | app/application/ingestion/orchestrator.py:93-144 | a repeat adds no version, alters no as-of answer and reports every admitted candidate unchanged |
| Duplicates.FutureDatedIsInsertedLater | app/domain/validation.py:90-95 | a conflict-free batch that is quarantined one day and inserted the next |
| Decimals.ParseRecoversValue | app/domain/fingerprints.py:13-19 | reading the canonical text of any finite number gives its value back |
| Decimals.CanonicalExactlyWhenEqual | app/domain/fingerprints.py:13-19 | two finite numbers have one canonical text exactly when they are numerically equal, over all signs, coefficients and exponents |
| Decimals.TrailingZeroText | app/domain/fingerprints.py:16-18 | moving a trailing zero from the coefficient to the exponent does not show |
| Decimals.ZeroText | app/domain/fingerprints.py:19 | every zero, negative or scaled, is "0" |
| Decimals.ParseFixedPoint | app/domain/fingerprints.py:16 | fixed-point rendering shows exactly the coefficient at its scale |
| Fingerprints.InstantTextInjective | app/domain/fingerprints.py:33-36 | different instants have different texts, with or without microseconds |
| Fingerprints.FxFingerprintMeans | app/domain/fingerprints.py:54-62 | two FX candidates have one canonical tree exactly when series, day, numeric value, quote type and publication instant agree, and all attributes do or, when names are chosen, each chosen one is missing from both or the same in both |
| Fingerprints.RateFingerprintMeans | app/domain/fingerprints.py:65-75 | the same for policy rates, with unit, frequency and rate type |
| IngestionTables.IngestionStore.ClaimNextRun | app/repositories/ingestion_runs.py:32-46 | claims the unlocked pending run first in request order and starts it, or nothing |
| IngestionTables.NextRunAmong | app/repositories/ingestion_runs.py:34-40 | the chosen run is pending, unlocked and no later than any other such run; none is chosen only when there is none |
| IngestionTables.IngestionStore.Beat | app/repositories/ingestion_runs.py:48-51 | stamps a running run and refuses any other |
| IngestionTables.IngestionStore.Totals | app/repositories/ingestion_runs.py:68-73 | sums the six counters over the scopes of one run |
| IngestionTables.IngestionStore.FinalizeRun | app/repositories/ingestion_runs.py:53-66 | ends a running run with the totals of its scopes and refuses a non-terminal status or another run |
| IngestionTables.IngestionStore.StartScope | app/repositories/ingestion_runs.py:99-103 | starts a pending scope only |
| IngestionTables.IngestionStore.CompleteScope | app/repositories/ingestion_runs.py:105-121 | ends an active scope only, with non-negative counters and a terminal status |
| IngestionTables.IngestionStore.FindOverlap | app/repositories/ingestion_runs.py:123-131 | true exactly when an active scope of another run overlaps the wanted dates |
| IngestionRules.OverlapGoesByDays | app/repositories/ingestion_runs.py:123-131 | that is, exactly when a waiting or running scope of another run wants one of the same days of the series |
| IngestionRules.ClaimGoesByDays | app/application/ingestion/orchestrator.py:199-213 | the claim of a waiting scope starts it exactly when no waiting or running scope of another run wants one of its days of the series; else a manual run raises and any other skips the scope, and the row changes accordingly |
| IngestionRules.CompletionMeans | app/repositories/ingestion_runs.py:105-121 | a scope is completed exactly when it is active, the status is final and no counter negative; its row alone changes, to these |
| IngestionTables.IngestionStore.Begin | app/application/ingestion/orchestrator.py:199-213 | claim and start, claim and skip, or a rejection that leaves the tables alone |
| IngestionTables.IngestionStore.Derive | app/application/ingestion/run_manager.py:77-88 | counting the statuses gives the derived status, or refuses while a scope is active |
| IngestionTables.IngestionStore.RecoverOne | app/application/ingestion/run_manager.py:98-117 | fails the active scopes of one abandoned run, keeping their counters plus one failure, and finalizes it |
| IngestionTables.IngestionStore.Recover | app/application/ingestion/run_manager.py:90-118 | does that for every expired run that was selected and not locked, one after the other |
| IngestionTables.IngestionStore.CreateRun | app/application/ingestion/run_manager.py:31-75 | adds one pending run and its pending scopes, or refuses with the first failing check and adds nothing |
| IngestionRules.CreationGoesByDays | app/application/ingestion/run_manager.py:31-75 | a run is created exactly when its request is in order and, if manual, none of its days of the planned series is taken; then one pending run and one pending scope for each planned series over all requested days are added |
| IngestionRules.FinishMeans | app/application/ingestion/run_manager.py:77-88 | a run is finished exactly when it runs and has no active scope; its row alone changes, to the status its scopes make and six counters that are each the sum over its scopes |
| IngestionRules.RecoveryMeans | app/application/ingestion/run_manager.py:90-118 | recovery ends exactly the running, unlocked runs whose last heartbeat lies before the cutoff, failing their active scopes with one failure more; every other run keeps its row and scope rows |
| IngestionRules.LiveRunsSurvive | app/application/ingestion/run_manager.py:92-97 | a run that beat or was claimed at or after the cutoff survives recovery with all its scopes |
| IngestionProtocol.DoKeeps | app/application/ingestion/orchestrator.py:161-257 | every transaction keeps the invariant and rewrites no finished row |
| IngestionProtocol.ScopesMutuallyExclude | app/application/ingestion/scope_coordinator.py:37-51 | in every reachable state, running scopes of different runs want no common date of a series |
| IngestionProtocol.TerminalRunsAbsorb | app/repositories/ingestion_runs.py:53-79 | a terminal run and all its scopes are fixed for good, all terminal, and its counters are their sums |
| IngestionProtocol.RecoveredWorkerIsHarmless | app/application/ingestion/run_manager.py:90-118 | recovery ends every expired run it can lock, and no later step, of the old worker or anyone, changes its rows |
| IngestionProtocol.DerivedStatusMeans | app/application/ingestion/run_manager.py:77-88 | succeeded when all scopes did, failed when some did not and none did, partial when both occur, refused exactly while one is active |
| IngestionProtocol.RecoverFirstKeeps | app/application/ingestion/run_manager.py:90-118 | recovery keeps the invariant and ends the selected runs |
| ConflictOutcomes.AcquiredExactlyWhenAlone | app/application/ingestion/scope_coordinator.py:43-51 | a pending scope is started exactly when every scope it overlaps is over |
| ConflictOutcomes.LastClaimedIsAcquired | app/application/ingestion/orchestrator.py:199-213 | from a state where no running scope conflicts with an active one, without new submissions, a scope claimed when no conflicting one waits any more starts |
| ConflictOutcomes.AutomaticClustersNeverAllLose | app/application/ingestion/orchestrator.py:204-212 | in any interleaving, submissions included: automatic scopes, together with every scope active since the start that conflicts with one of them, never all lose |
| ConflictOutcomes.UnopposedNeverLoses | app/application/ingestion/scope_coordinator.py:43-51 | without new submissions, a scope nobody contends with is never skipped or rejected, in any interleaving |
| ContestedGroups.AllLoseExactlyWhenOrdered | app/application/ingestion/orchestrator.py:176-249 | workers going through their runs in order, without new submissions: any finite set of waiting scopes closed under contention can all end skipped or rejected exactly when every nonempty set of their claims and endings has one that no order of workers or conflict forces before another of it |
| ContestedGroups.AllLoseExactlyWhenExposed | app/application/ingestion/orchestrator.py:176-249 | for scopes of pairwise different runs: exactly when each is contested and linked to a manual scope by a chain of conflicts |
| ContestedGroups.MeleeLosesExactlyWhenManual | app/application/ingestion/orchestrator.py:204-249 | two or more waiting scopes, each in conflict with every other and with nobody else in the way, can all lose exactly when one belongs to a manual run |
| ContestedGroups.BothLoseExactlyWhenManual | app/application/ingestion/orchestrator.py:204-249 | the same for two scopes |
| ContestedDays.EqualRangesKeepDays | app/application/ingestion/scope_coordinator.py:43-51 | when all scopes of an automatic cluster want the same days, each of those days is wanted by one that has not lost, submissions included |
| ContestedDays.DaysKeptExactlyWhenSameRange | app/application/ingestion/scope_coordinator.py:43-51 | two contending automatic scopes with nobody else in the way, workers in order and no new submissions, always keep every day they want exactly when they want the same days |
| ContestedRuns.ManualAndScheduledBothLose | app/application/ingestion/orchestrator.py:176-249 | a complete run from the empty database, workers in order, in which a manual and a scheduled scope both lose |
| ContestedRuns.OrderDecides | app/application/ingestion/orchestrator.py:176-178 | from the empty database, a manual and a scheduled run for the same two series: all four scopes exposed, all can lose under equal orders of the workers and cannot under opposite ones |
| ClaimLocking.NextKeepsExclusion | app/application/ingestion/scope_coordinator.py:37-51 | every step inside a claim keeps apart whatever runs or has passed its check |
| ClaimLocking.RunningScopesNeverConflict | app/application/ingestion/scope_coordinator.py:37-51 | exclusion at the granularity of lock, check, write and commit, whether or not the engine locks and whatever keys collide |
| ClaimLocking.ContendersWait | app/application/ingestion/scope_coordinator.py:40-42 | two claims for one series are never both past the lock |
| ClaimLocking.LockedClaimsNeverAllSkip | app/application/ingestion/scope_coordinator.py:37-51 | with the lock, step by step and submissions included: automatic scopes, together with every scope active since the start that conflicts with one of them, never all end skipped |
| ClaimRaces.UnlockedClaimsAllSkip | app/application/ingestion/scope_coordinator.py:40-51 | without it, racing claims of automatic scopes, each worker one at a time, can all end skipped when there is always one that can be the last |
| ClaimRaces.AllSkipExactlyWithoutLock | app/application/ingestion/scope_coordinator.py:40-51 | without new submissions and with each worker claiming one scope of its run at a time, in order: waiting automatic scopes, with everything that contends with them, can all end skipped exactly when the engine takes no lock and every nonempty set of their checks and commits has one that can be the last |
| ClaimRaces.AllSkipExactlyWhenContested | app/application/ingestion/scope_coordinator.py:40-51 | for scopes of pairwise different runs: exactly when the engine takes no lock and each of them is contested |
| RacedRuns.RaceIsReachable | app/application/ingestion/scope_coordinator.py:40-51 | two submissions from the empty database make such a race, which both claims can lose exactly without the lock |
| RacedRuns.RaceOrderDecides | app/application/ingestion/orchestrator.py:176-178 | two automatic runs for the same two series, without the lock: all four scopes contested, all can be skipped under equal orders of the workers and cannot under opposite ones |
| ReleaseCalendar.FindReleaseDate | app/application/quality/expectations.py:109-119 | the bounded search returns the specified release date or its error |
| ReleaseCalendar.WeeklyReleaseIsLeast | app/application/quality/expectations.py:112-119 | under a weekly cadence, the release is the least business release day of the fourteen, and fails exactly when there is none |
| ReleaseCalendar.ReleaseIsMonotone | app/application/quality/expectations.py:109-119 | later dates are never released earlier, and a release day is its own release |
| ReleaseCalendar.GenerateExpectations | app/application/quality/expectations.py:85-106 | the loop lists what the recursive definition lists, or fails as it does |
| ReleaseCalendar.ExpectationsAreSchedule | app/application/quality/expectations.py:85-106 | a call succeeds exactly when its arguments fit and every applicable date has a release; it then lists exactly those dates in order with their due instants |
| ReleaseCalendar.DueIsMonotone | app/application/quality/expectations.py:103-104 | due instants follow release dates strictly, whatever the zone's offsets |
| ReleaseRules.ExpectationsMean | app/application/quality/expectations.py:85-119 | a call succeeds exactly when its arguments fit and every working day of the policy is published; each listed date is due at the instant of the wall time that lies the grace period after the publication time of its release date |
| ReleaseRules.DueMeans | app/application/quality/expectations.py:85-119 | a date counts as due exactly when it is observed and that instant is past |
| Scheduling.LatestDueIsGreatest | app/application/scheduling.py:90-102 | the two-stage maximum is the greatest due observation date of all; the window only ever turns an older answer into none |
| Scheduling.WeeklyPlanIsReleaseDay | app/application/scheduling.py:100-102 | under a weekly cadence the planned date is itself a release day whenever the policy applies on its release |
| Scheduling.LatestDueFailsExactly | app/application/scheduling.py:93-95 | the planner raises exactly when the policy starts after the local date, does not fit, or a date in the window has no release |
| Scheduling.DueCommands | app/application/scheduling.py:49-87 | the loop yields one command for each provider with something due, in order, and raises as the first failing provider does |
| Scheduling.CommandCoversLatestDue | app/application/scheduling.py:69-81 | a command ends at the greatest due date and spans one day, or seven under a weekly cadence |
| ReleaseRules.CommandMeans | app/application/scheduling.py:49-102 | a command asks its provider for the greatest date fallen due, alone or with the six days before it under a weekly cadence; none is planned only when nothing of the last 14 days has fallen due |
| Quality.EvaluationConserves | app/application/quality/service.py:115-132 | once something is due, expected = missing + available due dates, the missing ones are exactly those due and not available, and the newest expected and available dates are the greatest due and the greatest due and available ones |
| Quality.EvaluationClassifies | app/application/quality/service.py:49-77 | each state holds exactly under its condition; stale exactly when the allowance of every due instant has passed |
| Quality.EvaluationReplays | app/repositories/quality.py:48-61 | evaluated at t on the dates known at t, the assessment never changes, however much is persisted later |
| QualityReports.NothingKnownIsReported | app/application/quality/service.py:49-52 | without a calendar in force on both ends, or when the expectations fail, the assessment is unknown, a warning with its reason, and counts nothing |
| QualityReports.NothingDueIsReported | app/application/quality/service.py:54-61 | while nothing has fallen due it is not due, and counts all observed dates and no missing one |
| QualityReports.DueIsReported | app/application/quality/service.py:62-82 | once something has, state, severity and reason follow from what is missing, the fetch evidence and the allowances; counts, missing dates in order and newest dates are those of the dates fallen due |
| BisRequests.Requests | app/providers/bis/client.py:37-66 | the nested loops produce the specified chunks, or refuse an empty key list |
| BisRequests.RequestsTileExactly | app/providers/bis/client.py:37-66 | every day of every distinct key is asked for exactly once and nothing else is, each request within both limits |
| BisRequests.FirstRequestIsScope | app/application/runtime_bindings.py:87-90 | for one series there is a single request equal to the scope exactly when the range check accepts the range, so keeping only the first loses nothing |
| BisParser.DecodeKey | app/providers/bis/parser.py:188-199 | the dictionary loop decodes a key part by part, or refuses it |
| BisParser.DecodeAttributes | app/providers/bis/parser.py:213-226 | the loop decodes each non-null, defined position and keeps unresolvable values as they are |
| BisParser.ParseJson | app/providers/bis/parser.py:57-142 | all records of all series in order, or nothing once anything is broken |
| BisRecords.ResponseMeans | app/providers/bis/parser.py:57-142 | one record for each observation of each series, in order; each field is the value of a key part or attribute whose name stands for it, or the configured default when none does; date, value, key and attributes are those its series and observation give |
| BisReordering.DecodedReordered | app/providers/bis/parser.py:188-199 | permuting dimensions and key together decodes to the same names |
| BisReordering.CanonicalIgnoresOrder | app/providers/bis/parser.py:97-98 | without a shared alias, the order of the names does not show in the alias dictionary |
| BisReordering.TimeReordered | app/providers/bis/parser.py:76-78 | the one time dimension is found wherever it stands |
| BisReordering.ReorderingIsInvisible | app/providers/bis/parser.py:94-142 | permuting series and observation dimensions with all keys changes no record and breaks or mends no response |
| EffectivePeriods.ValidateNoOverlaps | app/config/reference.py:400-408 | grouping, sorting and comparing neighbours accepts exactly the periods that are pairwise disjoint within their group |
| EffectivePeriods.ValidatePeriods | app/config/reference.py:287-292 | dates are refused first; accepted exactly when all periods are valid and disjoint within groups |
| EffectivePeriods.SortKeepsApart | app/config/reference.py:405 | stable sorting orders the periods and changes neither their members nor whether they are disjoint |
| EffectivePeriods.NeighboursSuffice | app/config/reference.py:405-408 | in a sorted group, neighbours are apart exactly when all pairs are, open-ended ones included |
| EffectivePeriods.AcceptedStartsDiffer | app/config/reference.py:400-408 | accepted periods of one group never start on the same day |
| ReferenceTables.Reconciler.Upsert | app/repositories/reference.py:118-129 | inserts a missing row or sets the differing columns of the one there, counting which |
| ReferenceTables.Reconciler.Disable | app/repositories/reference.py:131-135 | switches off and counts the active rows that are not configured, and touches no other |
| ReferenceTables.ReconcileSettles | app/repositories/reference.py:35-65 | reconciling one table gives every item its row, switches the rest off, and keeps every row and key |
| ReferenceTables.SettledStays | app/repositories/reference.py:118-135 | reconciling a settled table changes and counts nothing |
| ReferenceSync.ReferenceRepository.Synchronize | app/repositories/reference.py:22-33 | reconciles the seven tables in dependency order, resolving references in the tables just reconciled, and reports the counts |
| ReferenceSync.SynchronizeSettles | app/repositories/reference.py:22-110 | from any database with unique keys and no other pair of the same currencies, and a validated configuration, every table settles and no row is deleted or re-keyed |
| ReferenceSync.SecondSyncIsIdle | app/repositories/reference.py:22-135 | a second synchronization changes nothing and reports (0, 0, 0) |
| ReferenceSync.ActiveExactlyWhenConfigured | app/repositories/reference.py:35-110 | afterwards a row is active exactly when it is configured and enabled, in every table with the flag |
| ReferenceRules.SynchronizedRowsRefer | app/repositories/reference.py:35-110 | afterwards every configured item has its row with its own facts, and each pair, relationship and series refers to the rows of the codes its item names |
| ReferenceRules.TallyMeans | app/repositories/reference.py:118-135 | reconciling one table counts the rows it adds, the configured old rows it changes and the other active rows, which it switches off |
| Retries.Fetch | app/providers/http.py:100-121 | the loop sleeps after every retried attempt with its delay and ends as its last attempt decides |
| Retries.RetriesAreBounded | app/providers/http.py:100-121 | at most maxAttempts attempts, delays in range and in all within the time budget, and a success reports one attempt more than delays |
| Retries.DelaysInRangeExactly | app/providers/http.py:182-197 | every delay lies in [0, maxBackoff], including a capped Retry-After (section 10.2.3 of RFC 9110), exactly when the backoff durations are not negative |
| Retries.RunIsUnique | app/providers/http.py:100-121 | replies, clock and draws decide the delays and the outcome |
| Retries.SleepsMean | app/providers/http.py:108-121 | each sleep follows a transient failure, lasts the seconds its Retry-After asks for up to the limit, or a draw from a backoff that doubles up to it, and fits the time budget |
| Retries.EndMeans | app/providers/http.py:100-121 | a run ends with a success, a permanent failure, the last allowed attempt, or a next sleep that would leave the budget |

## Left out

- Cursors.CursorRoundTrip: decoding is modelled for the canonical text the encoder writes; Python's decoders also accept other spellings (whitespace in JSON, non-canonical base64, short date forms), which no page ever hands out.
- Observations.RunMeetsDeclaredConstraints: columns have no limited precision here, so a positive value too small for twelve decimal places stays positive; foreign keys other than the current pointer are not part of the constraints.
- Paging.WalkIsSnapshot: stated for the FX history query; the policy-rate query has the same shape with other filters. The joined configuration columns are not modelled, nor are a version's `valid_to`, `last_observed_at` and current flag in the view, which later persists do rewrite.
- Paging.WalkIsSnapshot: a fixed `as_of` is needed, because without one every request takes a fresh instant.
- Pipeline.SharedPipeline.Execute: fetching and storing the raw response are outside, and the quality trigger is only whether it raises; whatever makes a record raise before mapping is one case. A batch has one retrieval instant, as both providers give it. Metrics and logs are left out.
- Pipeline.SharedPipeline.Process: validation errors other than the date and the sign, and its warnings, come with the candidate.
- Pipeline.SucceededScopeAccounts: the batch is the only writer there; SharedStore.SharedBatchBalances adds other writers, and takes for granted that a batch's candidates are of the scope's series and dates, as the providers' requests ask for.
- Duplicates.ReingestionRepeatsExactly: validation errors other than the date check do not depend on the retrieval instant, as in the runtime bindings, which pass no history and no staleness limit.
- Fingerprints.FxFingerprintMeans: JSON text and SHA-256 are taken as injective, so a fingerprint stands for its tree; attribute values are plain JSON, which canonicalization leaves as it is.
- IngestionTables.IngestionStore.CompleteScope: the retry count, HTTP status and error details of a scope row are not modelled; an error is its code alone.
- IngestionTables.IngestionStore.CreateRun: command validation, the dataset lookup and the planning of scopes arrive as part of the request.
- ContestedGroups.AllLoseExactlyWhenOrdered: each claimed run is taken to have its worker still; the transactions of IngestionProtocol allow more orders than a worker takes, so everything proved of all interleavings covers the orderly ones.
- IngestionProtocol.ScopesMutuallyExclude: one transaction is one step; waiting for row locks and stale session objects are not modelled, locked runs are a parameter, and a heartbeat may happen at any time.
- ClaimLocking.LockedClaimsNeverAllSkip: a series belongs to one dataset, so scopes of one series name one lock key.
- Scheduling.LatestDueIsGreatest: a time zone is a map from wall time to UTC that is strictly monotone across calendar days and agrees with local dates; the zone database is not part of this model.
- Scheduling.DueCommands: each provider's dataset, policy and calendar come looked up.
- Quality.EvaluationReplays: appending results and reading the latest result per instrument are left out as easy.
- BisParser.ParseJson: begins behind JSON parsing, decompression and the check of the container types; encoded keys are given as their integer parts, dimension names are ASCII, and record paths and checksums are not part of a record.
- BisParser.DecodeAttributes: attribute values are texts.
- ReferenceSync.SynchronizeSettles: the constraint that no two FX pairs have the same two currencies (app/database/models.py:71) is not modelled: the database is assumed to hold no pair of another symbol with the currencies of a configured one, nor the configuration two such pairs, since the synchronization would raise.
- ReferenceSync.SynchronizeSettles: a dataset's provider and dataset codes are one key text; attribute columns are compared as values.
- ReferenceRules.SynchronizedRowsRefer: the facts of the base tables and of series come as configured values; how the settings files are read is not part of this model.
- Retries.RetriesAreBounded: seconds are reals without NaN; the clock is assumed not to run backwards and a sleep to last at least its delay.
- The database command sink, latest-value queries, movement checks, CSV responses, the Valet parser and mapper, endpoint templates, settings loading, sanitizers, the license gate, web routes and migrations are left out: field-by-field branches or plumbing.
