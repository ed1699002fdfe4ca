# Verified model of the retention, monitoring and replay code

This Dafny project models the parts of the repository whose correctness is about whole runs, and proves it.

* **Retention.** `archive_table.py` exports and fingerprints a day range; `archive_and_trim.py` verifies the archive,
  freezes the rows, compares them with the manifest and deletes them in batches, while other writers change the same
  table and `analysis_history.py` copies it. `Retention` is the whole system as one state machine: a step is one SQL
  statement, one file write or one transaction of somebody else, so a run is any interleaving, cut short anywhere.
  `ArchiveOrigins` finds the export behind every file and manifest, `RetentionSafety` and `HistoryReader` hold the results
  about all runs, `RetentionLimits` and `ReaderLimits` the runs that lose a row or a key when a condition is dropped.
  `TrimHost` is the trimmer's imperative code; each method is proved to be a stretch of a run of the machine. `Digest` is
  the order-independent digest, `Partitions` the dropping of day partitions, `PsqlStream` the marker framing of the shared
  psql session, with `CsvRecords` for the rows it copies.
* **The ops monitor.** `AlertEngine` is the alert automaton of one name, `AlertMonitor` the class over the persisted
  dictionaries, proved to run all automata at once; `AlertReports` checks every notification against the ones before it,
  `AlertDecisions` says exactly when one is sent, `AlertRecovery` how tight the bounds are and how damaged state heals.
  `StorageGrowth` and `StorageRecovery` are the storage detector and the incident it opens and closes, `SwapPressure` and
  `MemoryTrend` the two memory detectors.
* **Accounting sweeps.** `FifoMatching`, `CapitalSweep`, `ValueArea`, `Replay` and `Buckets` are loops of the research and
  backfill scripts, each proved against a short independent statement of what it computes.
* **Paging and framing.** `KlinePaging` and `Framing`, with the server and the JSON decoder as arbitrary oracles.

`Numerals` and `Sorting` are shared helpers. `dafny verify dfyconfig.toml` checks everything.

## Hypotheses

The results about retention hold for every run of the machine in which

* the hash comparisons actually made meet no collision (`Retention.CollisionFree`): different rows whose hashes have the
  same number, total and bit parities (`Digest.SameFigures`), or different files with the same checksum; nothing is assumed
  of the hash functions in general;
* a row version's id is not given to another version, and an update leaves a new version behind.

Two things about one archive decide whether a row it lets go is kept, and both are conditions on that archive alone. Export
and fingerprint are two queries: `ArchiveOrigins.MadeQuietly` says that nobody else changed the range between the two. And
only `decision_traces` gets a name of its own for every archive: for the other tables the condition is that no export has
used the name since. Where names are fresh it holds by itself, and corollaries say so. Each result also has an exact form
without these conditions.

## What does not hold

Where the code does not meet a property one would expect, the model keeps the code and says exactly when it does:

* Archives under reused names: a deleted row is in its archive's file later if and only if the last export into that file
  since found a row of the same content, or there was none and the row was archived when it was deleted
  (`RetentionSafety.DeletedRowSurvivesIff`). A prune
  cut short after its first batch and its own retry on the same day lose rows, with nobody else around
  (`RetentionLimits.AbortedRetryLosesRow`). Looking for a manifest of that name before the export is a sufficient guard
  (`RetentionSafety.RunKeepsFiles`).
* Busy ranges: a deleted row is in its archive if and only if a row of its content was in the range when the archive was
  exported (`RetentionSafety.DeletionIsSafeIff`, for every single deletion of a prune finished or cut short); for a
  completed prune that is all of them if and only if the rows fingerprinted are all among those exported
  (`CompletedPruneIsSafeIff`, `RetentionLimits.BusyRangeLosesRow`).
* A synchronized history: a key is built if and only if it was in the hot table at the hot export, or in an archive's range
  when the archive that stands at the listing was exported, or is in a file left over locally
  (`HistoryReader.SyncedHistoryIsExact`). The abort and retry above hide a key from a sync that began before it
  (`ReaderLimits.AbortedRetryHidesKey`). Looking for a manifest before each export is a sufficient guard here too
  (`HistoryReader.GuardedSyncIsComplete`).
* Copied rows: the locked session reads its stream as text, so a raw carriage return in a row is digested as a newline;
  the rows are digested as they are if and only if none has one (`CsvRecords.UniversalKeeps`, `PsqlStream.CopyIsExact`).
* Storage incidents: a size query that fails leaves the recovery hold as it was, and an over-budget reading had switched it
  off. A recovery is earned if and only if the required number of cycles did not all go blind right after an over-budget
  reading (`StorageRecovery.RecoveryIsEarnedUnlessBlind`, `BlindnessRecovers`, `FalseRecovery`). One failed query is enough
  for many cycles, since the failure is cached for a sampling interval.
* Notifications: downgrades of the storage alert skip its cooldown, so its bound grows by three per downgrade
  (`AlertEngine.NotificationBound`) and without that term there is none (`AlertRecovery.StorageAlertIsUnbounded`). There
  are no more downgrades than raises less severe than the one before (`AlertEngine.DowngradesAreFalls`).
* Entry fees in `pair_trades` are conserved if and only if no sell splits a lot that bears a fee
  (`FifoMatching.SurchargesAreSplits`, `SplitLotOvercharges`).
* Bars before the first trade show the last price read, which may be a later one (`Buckets.LeadingBarsAreRight`,
  `LeadingBarShowsLaterPrice`).
* A download whose range is not a whole number of intervals always fails against a server that has every candle: the piece
  left over at the end asks for a candle that ends behind the range. It succeeds if and only if the range is empty or a
  whole number of intervals (`KlinePaging.WholeGridIsReturned`, `OddRangeFails`).
* `allow_missing_tail`, against a server that keeps to the grid, misses no more than a tail if and only if no page has a
  hole between its first candle and its last (`KlinePaging.OnlyTailIsMissing`, `LenientKeepsHoles`).

## Model

| member | source | states |
|---|---|---|
| Digest.StreamingContentDigest.Update | deploy/ops/stream_digest.py:32-36 | after any feeding the fields are the number of rows, the total of their hashes modulo 2^256, and a word in which a bit is set if and only if an odd number of the hashes has it |
| Digest.StreamingContentDigest.Hexdigest | deploy/ops/stream_digest.py:38-42 | the text is that of the rows fed so far |
| Digest.StreamDigest | deploy/ops/archive_table.py:167-186 | the streaming loop's text is the digest of every reordering of the rows it saw |
| Digest.DigestTellsFigures | deploy/ops/stream_digest.py:17-42 | two row lists have the same digest text if and only if their hashes agree in number, total modulo 2^256 and the parity of every bit: a collision, told by the hashes alone |
| Digest.OneRowTells | deploy/ops/stream_digest.py:32-42 | lists that differ in one row have the same text if and only if that row and its replacement have the same hash |
| Digest.DigestIgnoresOrder | deploy/ops/stream_digest.py:17-25 | row lists with the same multiset have the same digest text, for any hash |
| Digest.DigestCombines | deploy/ops/stream_digest.py:32-36 | the digest of a concatenation is the componentwise combination of the parts' digests |
| Digest.RenderInjective | deploy/ops/stream_digest.py:38-42 | two accumulators print the same text if and only if they are equal |
| Digest.EqualDigestsEqualCounts | deploy/ops/stream_digest.py:20-24 | equal digest texts come from equally many rows, whatever the hash does |
| Retention.ScansAgree | deploy/ops/archive_table.py:167-182 | two scans of the same rows, in any orders, return the same multiset |
| RetentionSafety.StepKeepsInv | deploy/ops/archive_and_trim.py:608-704 | every step of trimmer, reader or other writers that meets no collision keeps: manifests describe their files and scans truthfully, and mid-prune the frozen rows and the fingerprinted rows correspond |
| RetentionSafety.RunKeepsInv | deploy/ops/archive_and_trim.py:608-704 | the same after every step of every collision-free run, busy or quiet |
| ArchiveOrigins.QuietArchiveIsFaithful | deploy/ops/archive_table.py:429-451 | if the range was quiet while this archive was made, whatever happened to others, its fingerprint is that of the very rows in its file |
| ArchiveOrigins.ArchiveIsExport | deploy/ops/archive_table.py:429-470 | on any run the file a manifest was written for is exactly what the range held at the export step behind that manifest |
| RetentionSafety.MatchingDigestMeansPrinted | deploy/ops/archive_and_trim.py:662-671 | an accepted fingerprint means that the frozen rows still standing are, as contents, those fingerprinted at archive time, in both directions |
| RetentionSafety.MatchingDigestMeansArchived | deploy/ops/archive_and_trim.py:662-671 | after an accepted fingerprint the frozen rows that still exist are all in the verified file if and only if the rows fingerprinted are; equal multisets are enough for that |
| RetentionSafety.ComparisonIsExact | deploy/ops/archive_and_trim.py:662-671 | without a collision the comparison accepts if and only if the frozen rows still standing are, as a multiset, the rows fingerprinted, or those in the file where the two are the same |
| RetentionSafety.BatchDeletesArchivedRows | deploy/ops/archive_and_trim.py:590-605 | a row a delete batch removes was frozen and fingerprinted, lies before the day of the effective cutoff, and is in the verified archive before and after if and only if its own archive was written with it |
| RetentionSafety.PruneSafety | deploy/ops/archive_and_trim.py:608-704 | on every collision-free run, however others interleave and wherever it stops, a row that vanishes in a step of ours vanishes in a delete batch before the day floor of the cutoff, fingerprinted, and, if its own archive was made quietly, with its exact content in that archive |
| RetentionSafety.DeletionIsSafeIff | deploy/ops/archive_and_trim.py:608-704 | every single deletion, of a prune finished or cut short over a range quiet or busy: the row is in its archive if and only if a row of its content was in the range when the archive was exported |
| RetentionSafety.RetiredIdsStayRetired | deploy/ops/archive_and_trim.py:570-578 | a row version once gone never comes back under its id |
| RetentionSafety.ReturnMeansFrozenSetGone | deploy/ops/archive_and_trim.py:689-701 | on every collision-free run a normal return means exactly the recorded number of rows was deleted, they are the frozen ones, and none is left then or later |
| RetentionSafety.CompletedPruneDeletesPrinted | deploy/ops/archive_and_trim.py:662-701 | what a completed prune deletes is, row for row, what was fingerprinted |
| RetentionSafety.CompletedPruneIsSafeIff | deploy/ops/archive_and_trim.py:662-701 | every row a completed prune deletes is in the archive file if and only if the rows fingerprinted are all among those exported |
| RetentionSafety.RunKeepsFiles | deploy/ops/archive_table.py:418-427 | while every export finds no manifest of its name, all archives stay complete and every deleted row is among those its archive was fingerprinted from |
| RetentionSafety.RunGrowsArchives | deploy/ops/archive_table.py:418-427 | a stored archive stays as it is over any run while no export has its name |
| RetentionSafety.DeletedRowsStayArchived | deploy/ops/archive_and_trim.py:754-1013 | over any sequence of archive and prune runs, finished or aborted, of any table, a row ever deleted stays archived as it was for as long as no export has that name, and it was archived if that archive was made quietly |
| RetentionSafety.FreshNamesKeepDeletedRows | deploy/ops/archive_table.py:421-424 | where every archive has a name of its own there is no end to that |
| ArchiveOrigins.ReuseDropsRow | deploy/ops/archive_table.py:429-440 | after an export its file holds a row if and only if the range does, whatever the file held before |
| ArchiveOrigins.FileIsLastScan | deploy/ops/archive_table.py:429-440 | on any run a file holds exactly the scan of the last export into it |
| RetentionSafety.DeletedRowSurvivesIff | deploy/ops/archive_table.py:418-440 | on every collision-free run a deleted row is in its file at a later moment if and only if the last export into that file since found a row of that content, or there was none and it was archived at its deletion |
| RetentionLimits.BusyRangeLosesRow | deploy/ops/archive_table.py:429-451 | a write between export and fingerprint makes every check pass and a row vanish that no file holds |
| RetentionLimits.ReusedNameLosesRow | deploy/ops/archive_table.py:418-427 | with reused names a quiet and collision-free run of two complete prunes, with a row put back in between, loses the first row from every file |
| RetentionLimits.AbortedRetryLosesRow | deploy/ops/archive_and_trim.py:675-701 | with reused names a prune aborted after one batch and its own retry lose a row, with no other writer in the run |
| HistoryReader.SyncedHistoryIsExact | scripts/analysis_history.py:143-191 | for every finished sync beside any trimmer run: a key is built if and only if it was hot at the hot export, or in the range when an archive standing at the listing was exported, or is in a local file no manifest is for |
| HistoryReader.SyncedHistoryIsComplete | scripts/analysis_history.py:143-191 | so every key present at the start of the sync, neither removed by others, nor forgotten by a replaced manifest, nor last deleted under an archive from a busy range, has exactly one row in the built history, the hot one where there is one |
| HistoryReader.ReplacementForgets | deploy/ops/archive_table.py:467-470 | after a manifest is written a key is archived if and only if its new file or another archive has it |
| HistoryReader.GuardedSyncIsComplete | deploy/ops/archive_table.py:418-427 | if every export finds no manifest of its name, no manifest is ever replaced, and every such key is built |
| HistoryReader.FreshSyncIsComplete | deploy/ops/archive_table.py:421-424 | fresh archive names always pass that guard |
| ReaderLimits.AbortedRetryHidesKey | deploy/ops/archive_and_trim.py:675-701 | with reused names a sync beside a prune aborted after one batch and its own retry finishes without a key that was there when it began, with no other writer in the run |
| HistoryReader.BuildKeepsOneRowPerKey | scripts/analysis_history.py:349-355 | the built relation has a key if and only if a source has it, from the hot export first and else from the last archive in name order |
| TrimHost.Host.DeleteBatchOf | deploy/ops/archive_and_trim.py:590-605 | a batch takes at most the limit out of the frozen set, deletes those that still exist, and counts them |
| TrimHost.Host.FreezeAndCompare | deploy/ops/archive_and_trim.py:647-671 | accepts only after count, algorithm prefix and fingerprint match; if others leave the range alone it accepts whenever the range is what the manifest promises |
| TrimHost.Host.CompareFrozen | deploy/ops/archive_and_trim.py:657-671 | accepts if and only if the digest of the frozen rows still standing is the expected one, and only then deleting begins |
| TrimHost.Host.FencedBatch | deploy/ops/archive_and_trim.py:679-685 | the next fence answer is asked and used up; one that is no ends it with nothing deleted, otherwise one batch follows directly behind that check |
| TrimHost.Host.DeleteLoop | deploy/ops/archive_and_trim.py:674-687 | the loop's count is the number of frozen rows it removed; every batch comes directly behind a passed check of its own and none behind a failed one; if others leave the range alone it reaches the recorded number |
| TrimHost.Host.DeleteFrozen | deploy/ops/archive_and_trim.py:674-701 | returns only with the recorded number deleted and no target left, and raises otherwise, at a failed check at once |
| TrimHost.Host.RunLockedPrune | deploy/ops/archive_and_trim.py:608-704 | every way through it is a stretch of a machine run; the fence is asked first and again directly before each deletion, answers are used in order, and one that is no ends it raised with nothing deleted since; if others leave the range alone, it finishes with the whole range gone or raises, and finishes when fences hold and the range is what the manifest promises |
| TrimHost.FirstRefusalDeletesNothing | deploy/ops/archive_and_trim.py:633-645 | a prune whose first fence answer is no has raised, asked only once, and taken no step but the abort |
| TrimHost.Host.AskFence | deploy/ops/archive_and_trim.py:630-633 | the first check of a prune comes before every step of its own |
| TrimHost.Host.VerifyFence | deploy/ops/archive_and_trim.py:633 | the answer is the next one of the schedule, which loses exactly that one, and the check is recorded with the moment it was made |
| TrimHost.Host.ExportTo | deploy/ops/archive_table.py:429-440 | the file holds one scan of the range |
| TrimHost.Host.Fingerprint | deploy/ops/archive_table.py:442-451 | the text is the digest of the range at a second scan |
| TrimHost.Host.PutManifest | deploy/ops/archive_table.py:453-470 | the manifest records range, count, fingerprint and the file's checksum |
| TrimHost.Host.ArchiveTable | deploy/ops/archive_table.py:381-478 | as a run of the machine with others in between; if they leave the range alone, it makes a manifest if and only if the range is not empty, and the manifest and file hold the range |
| TrimHost.Host.ExportAndPrint | deploy/ops/archive_table.py:429-470 | the file holds the range as of the export, and the manifest has the digest of the range as of the second query |
| TrimHost.Host.VerifyArchive | deploy/ops/archive_and_trim.py:902-948 | accepts if and only if the manifest exists, has the pending count, and its file exists with its checksum |
| TrimHost.Host.ArchiveAndPrune | deploy/ops/archive_and_trim.py:853-1013 | if others leave it alone, a planned range of the planned size moves out of the table into the archive file row by row |
| TrimHost.Host.TrimTable | deploy/ops/archive_and_trim.py:786-1013 | if others only add rows of later days, no row before the day of the effective cutoff remains and an archive file holds every one of them; undisturbed, nothing else is removed |
| TrimHost.Host.PlanTable | deploy/ops/archive_and_trim.py:800-850 | plans up to the day of the cutoff; if others only add rows of later days there is a plan if and only if rows are due, it covers exactly them and has their number |
| TrimHost.OldestDay | deploy/ops/archive_and_trim.py:800-807 | no row lies before the day and one lies in it |
| TrimHost.HostLosesNothing | deploy/ops/archive_and_trim.py:608-704 | whatever this code deleted, in full or in part, was fingerprinted; if its archive was made quietly, it is in a stored archive now unless that name was exported again since, and with fresh names it always is |
| Partitions.Catalog.DropExpired | deploy/ops/archive_and_trim.py:727-751 | exactly the partitions dated before the cutoff go, up to the first name that is no date, which raises |
| Partitions.NothingSinceCutoffIsLost | deploy/ops/archive_and_trim.py:739-750 | no row dated at or after the cutoff is lost, and no table whose name is not a dated partition's |
| Partitions.AllExpiredGo | deploy/ops/archive_and_trim.py:727-751 | without false dates a table remains if and only if it is no expired partition |
| Partitions.NameIsRead | deploy/ops/archive_and_trim.py:739-744 | eight digits name a day if and only if it exists, leap years included, and then exactly that day; otherwise the name is a false date |
| Partitions.ForeignNames | deploy/ops/archive_and_trim.py:736-741 | a name is left alone if and only if its prefix, its length or one of its eight last characters is not that of a partition |
| PsqlStream.Session.Run | deploy/ops/archive_and_trim.py:190-210 | returns the unread lines and the output up to the first line that is the new marker, and leaves the rest unread |
| PsqlStream.RunIsExact | deploy/ops/archive_and_trim.py:198-208 | on a clean stream a statement gets exactly its own output if and only if no line of it is its own marker |
| PsqlStream.MarkersDiffer | deploy/ops/archive_and_trim.py:198-199 | two statements have the same marker if and only if they are the same |
| PsqlStream.Session.CopyDigest | deploy/ops/archive_and_trim.py:212-243 | digests the records up to the one that is the new marker and leaves the rest unread, and fails on a record that is not one field |
| PsqlStream.CopyIsExact | deploy/ops/archive_and_trim.py:228-240 | on a clean stream exactly the copied rows are digested, line breaks unified, if and only if no row is the statement's own marker; lines inside a row may look like it |
| PsqlStream.OtherRecordsFail | deploy/ops/archive_and_trim.py:234-236 | behind any rows of the copy a record of no field or of several fails the digest |
| PsqlStream.ObjectRowsAreExact | deploy/ops/archive_and_trim.py:580-586 | rows that are JSON objects without raw carriage returns are digested to the last and as they are |
| PsqlStream.SessionStaysInStep | deploy/ops/archive_and_trim.py:190-243 | over a whole session every statement, printed or copied, gets its own answer if and only if none has its own marker as a line or a row; other markers do no harm |
| CsvRecords.ValueRoundTrip | deploy/ops/archive_and_trim.py:231-240 | one column written as CSV, quoted or not, quotes doubled and line breaks inside, is read back as one record of that value, and reading stops right behind it |
| AlertEngine.RunKeepsHealthy | deploy/ops/cml_ops_monitor.py:2661-2889 | on every run from an empty state active means a deliverable context, occurrences and a passed debounce, and absences stay under the threshold |
| AlertEngine.NotesAlternate | deploy/ops/cml_ops_monitor.py:2661-2889 | notifications read (alert+ resolved)*, and the name is active exactly while the last one is an alert and exactly while it has a context |
| AlertEngine.AbsencesAreTheStreak | deploy/ops/cml_ops_monitor.py:2819-2849 | the pending count of an active name is its run of consecutive cycles absent and not held |
| AlertEngine.RecoveryIsExact | deploy/ops/cml_ops_monitor.py:2819-2849 | a recovery is sent if and only if an active name has been absent for exactly the required number of consecutive cycles |
| AlertEngine.OccurrencesCountRaises | deploy/ops/cml_ops_monitor.py:2717-2743 | an open incident's occurrence count is the number of raises since the opening one, that included |
| AlertEngine.ResolvedReportsRaises | deploy/ops/cml_ops_monitor.py:2855-2878 | a recovery reports exactly that number |
| AlertEngine.StepBudget | deploy/ops/cml_ops_monitor.py:2691-2731 | for every name a notification that is neither escalation nor downgrade comes a full cooldown after the last one, an escalation climbs a severity rank, and only the storage alert is downgraded |
| AlertEngine.EscalationsAreFew | deploy/ops/cml_ops_monitor.py:2697-2709 | over a run of any name there are at most three notifications per one that is no escalation |
| AlertEngine.UnforcedAreSpaced | deploy/ops/cml_ops_monitor.py:2710-2731 | notifications of any name that are neither escalations nor downgrades lie its cooldown apart over the whole run |
| AlertEngine.NotificationBound | deploy/ops/cml_ops_monitor.py:2661-2804 | from an empty state and a clock that never goes back, at most 3 * (span / cooldown + 1 + downgrades) alerts of any name; no downgrades of any but the storage one, and of that at most one per raise less severe than the raise before |
| AlertEngine.DowngradesAreFalls | deploy/ops/cml_ops_monitor.py:2697-2709 | the context of an active storage alert is as severe as its latest raise, so a downgrade needs a raise less severe than the one before |
| AlertReports.StepTells | deploy/ops/cml_ops_monitor.py:2691-2803 | one raise or cycle end keeps state and sent notifications in agreement; an alert carries the new occurrence count |
| AlertReports.EveryNoteFits | deploy/ops/cml_ops_monitor.py:2691-2889 | on every run each notification fits those before it: escalations, storage downgrades, incident start, flaps and their count, and what a recovery repeats |
| AlertDecisions.AlertIsExact | deploy/ops/cml_ops_monitor.py:2661-2804 | on any proper run a raise is notified if and only if the debounce is passed or an incident open, and it escalates, downgrades the storage alert, or has no alert of the name within the cooldown; told from the events and the notes before it |
| AlertDecisions.RaisesArePending | deploy/ops/cml_ops_monitor.py:2673-2817 | the pending count is the number of raises since the last recovery or the last cycle that the name ended absent without an open incident |
| AlertDecisions.CooldownRunsFromLatest | deploy/ops/cml_ops_monitor.py:2710-2731 | the cooldown runs from the latest alert sent, in whatever incident |
| AlertDecisions.RecoveryRepeatsAlert | deploy/ops/cml_ops_monitor.py:2855-2878 | a recovery is dated at its cycle and repeats the alert that was last sent |
| AlertRecovery.BoundIsReached | deploy/ops/cml_ops_monitor.py:2697-2731 | for every debounce and every n a proper run over n cooldowns sends 3 * (n + 1) alerts: the bound is tight at every span |
| AlertRecovery.StorageAlertIsUnbounded | deploy/ops/cml_ops_monitor.py:2703-2731 | for every debounce and every n a proper run of the storage alert sends n alerts at one time |
| AlertRecovery.CycleMends | deploy/ops/cml_ops_monitor.py:2682-2690 | a cycle from orphaned state sends no recovery and leaves it orphaned only by counting up below the debounce |
| AlertRecovery.OrphansAreMended | deploy/ops/cml_ops_monitor.py:2631-2659 | from any persisted state with a non-negative counter an orphaned name is mended within the debounce's number of cycles, and none of those cycles sends a recovery |
| AlertMonitor.OpsMonitor.RepairOrphan | deploy/ops/cml_ops_monitor.py:2629-2646 | clears the name's delivery entries, the storage detector's for its name, and nothing of any other name |
| AlertMonitor.OpsMonitor.EmitAlert | deploy/ops/cml_ops_monitor.py:2661-2804 | moves the name's entries and notifications as the automaton's raise does, and no other name's |
| AlertMonitor.OpsMonitor.Deliver | deploy/ops/cml_ops_monitor.py:2689-2804 | the same for the part behind debounce and repair |
| AlertMonitor.OpsMonitor.ResolveOne | deploy/ops/cml_ops_monitor.py:2819-2889 | one active name's turn in the resolution pass is the automaton's cycle end |
| AlertMonitor.OpsMonitor.Recover | deploy/ops/cml_ops_monitor.py:2850-2889 | the recovery names context, opening time and occurrences, and the incident is forgotten |
| AlertMonitor.OpsMonitor.LapsePending | deploy/ops/cml_ops_monitor.py:2814-2817 | exactly the pending counts of names neither raised nor active lapse |
| AlertMonitor.OpsMonitor.EmitResolutions | deploy/ops/cml_ops_monitor.py:2806-2889 | in whatever order the names come, every name ends as its own automaton's cycle end says |
| AlertMonitor.OpsMonitor.FinishCycle | deploy/ops/cml_ops_monitor.py:1850-1871 | a cycle adds to each name's history its raises that are not silenced and one cycle end, and the dictionaries stay those of all automata run side by side |
| AlertMonitor.WhatIsAudible | deploy/ops/cml_ops_monitor.py:1850-1860 | outside maintenance every alert is published, during maintenance all but noise that does not name postgres |
| AlertMonitor.WhatIsActive | deploy/ops/cml_ops_monitor.py:1861-1868 | a name counts as present if and only if an alert has it, or it is noise, active, and maintenance is on |
| AlertMonitor.CyclesStayOrderly | deploy/ops/cml_ops_monitor.py:1869-1871 | cycles under a clock that never goes back keep every name's history in order |
| AlertMonitor.MonitorLifecycle | deploy/ops/cml_ops_monitor.py:2661-2889 | lifecycle and notification bound for every name of a monitor that started with nothing saved |
| StorageGrowth.Retain | deploy/ops/cml_ops_monitor.py:1447-1494 | the loop, the sort and the append keep what the specification keeps |
| StorageGrowth.KeptExactly | deploy/ops/cml_ops_monitor.py:1450-1494 | from any stored list the kept samples are, in time order, those in the window, the latest one within an interval before it, and the new one if and only if all of those are an interval old |
| StorageGrowth.KeptStaysSpaced | deploy/ops/cml_ops_monitor.py:1450-1494 | whatever the clock does, samples stay an interval apart and at most the first is older than the window |
| StorageGrowth.KeptIsBounded | deploy/ops/cml_ops_monitor.py:1450-1494 | at most window / interval + 2 samples are stored |
| StorageGrowth.RunKeepsWindow | deploy/ops/cml_ops_monitor.py:1450-1494 | both after every run of observations |
| StorageGrowth.FullWindowIsMeasurable | deploy/ops/cml_ops_monitor.py:1463-1481 | a full window can be measured if and only if a stored sample is that old, give or take one interval |
| StorageGrowth.ReadingIsExact | deploy/ops/cml_ops_monitor.py:1497-1540 | nothing is measured if and only if no kept sample is old enough, the reading is stale if and only if some are but all of them by more than two intervals too much, and otherwise growth is judged against the latest one in that span |
| StorageGrowth.BandsAreExact | deploy/ops/cml_ops_monitor.py:1557-1592 | the bands in exact arithmetic, free of the truncation: over budget if and only if a measured rate reaches its budget, critically so if and only if one reaches its critical budget, below if and only if every one is strictly under its lower threshold |
| StorageRecovery.GrowthDetector.Observe | deploy/ops/cml_ops_monitor.py:1425-1610 | samples, hold, timer and reading after one footprint, valid or not |
| StorageRecovery.RunIsGrounded | deploy/ops/cml_ops_monitor.py:1571-1610 | the timer dates from a calm cycle undisturbed since, and an active incident without hold has earned it or has been blind since an over-budget reading; a cycle that measured nothing never counts toward it |
| StorageRecovery.AnsweredRecoveryIsEarned | deploy/ops/cml_ops_monitor.py:1571-1610 | with all queries answered an incident recovers only after growth stayed below both lower thresholds in every observation across the recovery time, and each of the required last cycles measured it below |
| StorageRecovery.CalmLiftsHold | deploy/ops/cml_ops_monitor.py:1594-1610 | conversely, growth below the thresholds at two cycles the recovery time apart, with nothing to the contrary between, lifts the hold at the second one |
| StorageRecovery.EarnedRecoveryComes | deploy/ops/cml_ops_monitor.py:1594-1610 | each such cycle counts, and with the required number of them the incident is over |
| StorageRecovery.RecoveryIsEarnedUnlessBlind | deploy/ops/cml_ops_monitor.py:1831-1848 | with failing queries a recovery is earned if and only if the required cycles did not all go blind right after an over-budget reading |
| StorageRecovery.BlindnessRecovers | deploy/ops/cml_ops_monitor.py:1831-1848 | that many failing queries after an over-budget reading always report the incident as recovered |
| StorageRecovery.FalseRecovery | deploy/ops/cml_ops_monitor.py:1831-1848 | a concrete run that does so |
| SwapPressure.PressureMonitor.Observe | deploy/ops/cml_ops_monitor.py:2449-2468 | one service's baseline and report move as specified, the other services' not at all |
| SwapPressure.BaselineIsLeast | deploy/ops/cml_ops_monitor.py:2449-2468 | the stored baseline is the least reading since the last report |
| SwapPressure.ReportIsRiseOverLeast | deploy/ops/cml_ops_monitor.py:2449-2468 | a reading is reported if and only if it lies the threshold or more above the least reading since the last report, and the amount reported is that difference |
| SwapPressure.RisesAreReported | deploy/ops/cml_ops_monitor.py:2465-2468 | between two readings that rise by the threshold or more there is a report |
| SwapPressure.ReportsAreFunded | deploy/ops/cml_ops_monitor.py:2449-2468 | reports times the threshold never exceed the total upward movement |
| MemoryTrend.MemoryMonitor.Observe | deploy/ops/cml_ops_monitor.py:2512-2600 | one service's samples, breaches, container and alert move as specified, the other services' not at all |
| MemoryTrend.RunForeverIsPaced | deploy/ops/cml_ops_monitor.py:1244-1260 | cycles started an interval apart, each read before the next interval has passed, pace the readings |
| MemoryTrend.LimitIsIdle | deploy/ops/cml_ops_monitor.py:2577-2584 | at that pace the sample limit never drops a sample of the window |
| MemoryTrend.StoredIsBounded | deploy/ops/cml_ops_monitor.py:2577-2584 | at any pace no more samples are stored than fit the window, or 120 if that is more |
| MemoryTrend.StoredIsWindow | deploy/ops/cml_ops_monitor.py:2549-2584 | the stored samples are exactly those of the container's whole history that lie in the window |
| MemoryTrend.RetainedIsWindow | deploy/ops/cml_ops_monitor.py:2549-2563 | so the baseline is the true oldest sample of the window |
| MemoryTrend.GrowthIsOverOldest | deploy/ops/cml_ops_monitor.py:2549-2576 | growth is seen if and only if the reading, on the same container as before, exceeds by the growth the oldest sample that container has in the window |
| MemoryTrend.BreachesAreStreak | deploy/ops/cml_ops_monitor.py:2565-2576 | the breach count is the run of consecutive readings on one container that saw the growth |
| MemoryTrend.AlertIsSustainedGrowth | deploy/ops/cml_ops_monitor.py:600-640 | an alert if and only if the growth was seen in the required number of consecutive readings on one container near enough its limit |
| FifoMatching.PairTrades | scripts/research_archive/analyze_live_orderflow_winner_features.py:170-262 | the loop over the fills computes the specified book |
| FifoMatching.OneFill | scripts/research_archive/analyze_live_orderflow_winner_features.py:192-258 | a fill of no quantity or another side does nothing, a purchase queues one lot of its own, a sale within the front lot shortens that one alone |
| FifoMatching.BookIsExact | scripts/research_archive/analyze_live_orderflow_winner_features.py:170-262 | the book told from the fills alone: the lots are the purchases behind the matched units, the trades are the credited matches, one counter counts the matches and the other the sells that found too little open |
| FifoMatching.TradesStandForMatches | scripts/research_archive/analyze_live_orderflow_winner_features.py:224-258 | there is exactly one trade for each signal time, or lot time without a signal, among the matches; it opened with the lot of its first match and closed with the sale of its last |
| FifoMatching.TradesGatherTheirSignal | scripts/research_archive/analyze_live_orderflow_winner_features.py:224-258 | the notional of a trade, with what is still open, is the cost of the purchases of its signal time |
| FifoMatching.TradesBearTheirFees | scripts/research_archive/analyze_live_orderflow_winner_features.py:229-248 | and its entry fees are those purchases' fees but for one further share per split |
| FifoMatching.MatchSell | scripts/research_archive/analyze_live_orderflow_winner_features.py:224-258 | the loop over the queue computes the specified sale |
| FifoMatching.SellIsDrop | scripts/research_archive/analyze_live_orderflow_winner_features.py:224-260 | a sale leaves the lots behind its quantity, and what exceeds them stays unmatched |
| FifoMatching.QueueIsFifo | scripts/research_archive/analyze_live_orderflow_winner_features.py:192-260 | the queue is the purchases without their first matched units; sales are matched but for the deepest shortfall; bought is matched plus open |
| FifoMatching.SellAdds | scripts/research_archive/analyze_live_orderflow_winner_features.py:226-258 | what one sale adds, to all trades of the cohort and to the one with any given key: the cost and fees that leave the queue, and the matched units' share of the fill's fee and profit |
| FifoMatching.CostsAreConserved | scripts/research_archive/analyze_live_orderflow_winner_features.py:247-253 | for the cohort and for each single trade, all cost bought is in the trades or still open; fees likewise but for one further share per split |
| FifoMatching.TradesAreKeyed | scripts/research_archive/analyze_live_orderflow_winner_features.py:230-254 | there is one trade per key, and its net result is its gross result less both fees |
| FifoMatching.SurchargesAreSplits | scripts/research_archive/analyze_live_orderflow_winner_features.py:229-248 | entry fees are conserved if and only if no sell splits a lot that bears a fee, where the lots are the purchases behind the units matched so far |
| FifoMatching.SplitLotOvercharges | scripts/research_archive/analyze_live_orderflow_winner_features.py:229-248 | a lot with a fee of one, closed in halves, is charged one and a half |
| FifoMatching.ExitsAreConserved | scripts/research_archive/analyze_live_orderflow_winner_features.py:228-250 | where sales never exceed purchases and all purchases are in scope, the fills' exit fees and profits are in the trades to the last |
| CapitalSweep.Sweep | scripts/research_archive/analyze_candle_entry_boundary.py:87-102 | for all inputs the area is notional times holding time and everything opened is closed; the peak is the maximum over instants of what is open |
| CapitalSweep.AreaIsHeld | scripts/research_archive/analyze_candle_entry_boundary.py:92-102 | the area of the sorted events is the sum over positions |
| CapitalSweep.PeakIsHighestOpen | scripts/research_archive/analyze_candle_entry_boundary.py:92-102 | the swept peak bounds what is open at every instant, ends included, and is reached |
| CapitalSweep.MaxDrawdown | scripts/research_archive/analyze_candle_entry_boundary.py:72-78 | the result is the deepest fall of the equity curve from any earlier point, the start included |
| ValueArea.Histogram | scripts/research_archive/analyze_breakout_acceptance.py:271-280 | a bin exists if and only if a usable row falls into it and holds what was traded there; over any span holding them all the bins sum to everything traded |
| ValueArea.Total | scripts/research_archive/analyze_breakout_acceptance.py:284 | the sum of the bins is the volume of any span that holds them all |
| ValueArea.Control | scripts/research_archive/analyze_breakout_acceptance.py:285 | a bin of greatest volume and, among those, nearest the anchor |
| ValueArea.Expand | scripts/research_archive/analyze_breakout_acceptance.py:286-299 | terminates with the volume of a gapless area around the point of control, target reached or both neighbours missing, every widening taking the larger neighbour and still needed |
| ValueArea.Profile | scripts/research_archive/analyze_breakout_acceptance.py:261-318 | a profile if and only if the anchor is positive and a row usable; its total is everything traded, its value the volume inside, and a bin of greatest volume lies in it |
| ValueArea.MissedOnlyAtGaps | scripts/research_archive/analyze_breakout_acceptance.py:289-299 | a target within the total is missed only where bins lie beyond a gap |
| Replay.Left | scripts/research_archive/analyze_breakout_acceptance.py:106-115 | everything before the index is earlier than the value and nothing after it is |
| Replay.AtOrBefore | scripts/research_archive/analyze_breakout_acceptance.py:99-104 | a latest time not after the value, if there is one |
| Replay.RunSameExit | scripts/research_archive/analyze_breakout_acceptance.py:603-649 | an event is traded if and only if its states are known and no earlier trade of its symbol is still open at its entry; one counter counts the events that are blocked, the other those that are not and lack their states |
| Replay.TradesDoNotOverlap | scripts/research_archive/analyze_breakout_acceptance.py:626-643 | two trades of a symbol never overlap |
| KlinePaging.ReadPage | scripts/download_official_15m_klines.py:142-175 | a malformed row raises; otherwise the in-range candles are stored, later ones winning |
| KlinePaging.FetchSymbol | scripts/download_official_15m_klines.py:113-223 | for any server it ends with the specified fault or the stored candles once each in time order, and strict success covers every grid point from the effective start |
| KlinePaging.FaultsAreExact | scripts/download_official_15m_klines.py:126-207 | a search fails with a fault if and only if it comes by a page with that fault, each said of the page served: a gap, for one, if and only if the first in-range candle of a page behind the first lies after the cursor |
| KlinePaging.WholeGridIsReturned | scripts/download_official_15m_klines.py:113-223 | against a server that answers each request with the next candles of the grid, lenient and strict searches succeed if and only if the range is empty or a whole number of intervals, and return exactly that grid, over however many pages |
| KlinePaging.OddRangeFails | scripts/download_official_15m_klines.py:126-178 | any other range ends at its last piece, for which no candle ends in the range |
| KlinePaging.PagedIsSound | scripts/download_official_15m_klines.py:126-207 | for any server every stored candle lies in the range under its own start, and an effective start behind the requested one is a stored candle's |
| KlinePaging.PagedAligns | scripts/download_official_15m_klines.py:180-194 | against a server that keeps to the grid everything stored is aligned and not before the effective start |
| KlinePaging.StrictIsExact | scripts/download_official_15m_klines.py:209-223 | then strict success returns exactly the grid from the effective start to the end |
| KlinePaging.TurnKeepsHoles | scripts/download_official_15m_klines.py:180-194 | one page leaves everything behind the new cursor stored if and only if that held before and the page has no hole: a hole behind the cursor is never filled |
| KlinePaging.OnlyTailIsMissing | scripts/download_official_15m_klines.py:180-223 | against a server that keeps to the grid a successful search, lenient or strict, returns exactly the grid up to its last cursor if and only if no page read has a hole between its first and last candle |
| KlinePaging.LenientKeepsHoles | scripts/download_official_15m_klines.py:201-222 | a concrete server that keeps to the grid and whose page has a hole that `allow_missing_tail` lets pass |
| Framing.CursorAdvances | scripts/download_tradingview_futures_15m_klines.py:51-62 | whatever the length field says, negative too, a non-empty body moves the cursor at least six places on |
| Framing.ParseFrames | scripts/download_tradingview_futures_15m_klines.py:49-66 | terminates on every input and yields what the specification parses |
| Framing.RoundTrip | scripts/download_tradingview_futures_15m_klines.py:44-66 | parsing any concatenation of frames yields exactly the object payloads that are no heartbeats, in order, delimiters in payloads included |
| Framing.NoisyRoundTrip | scripts/download_tradingview_futures_15m_klines.py:49-66 | the same with any text between the frames that does not hold the delimiter |
| Numerals.DecimalRoundTrip | scripts/download_tradingview_futures_15m_klines.py:46-57 | a printed length reads back as itself |
| Buckets.Bucket.Add | scripts/backfill_binance_15s_from_aggtrades.py:196-213 | one trade updates all ten fields as specified |
| Buckets.FoldedMeans | scripts/backfill_binance_15s_from_aggtrades.py:196-213 | a bucket holds first and last price and time, the extremes, the count, the notional, and as buys and sells the notionals of the trades whose buyer is not, and is, the maker |
| Buckets.ReadRows | scripts/backfill_binance_15s_from_aggtrades.py:231-263 | every bucket holds the fold of exactly its in-range trades in reading order |
| Buckets.AggregateSymbol | scripts/backfill_binance_15s_from_aggtrades.py:265-328 | one bar per bucket start, with its trades or the carried price |
| Buckets.BarMeans | scripts/backfill_binance_15s_from_aggtrades.py:269-290 | a bar with trades shows their first and last price, extremes, count and sums under its bucket's start |
| Buckets.OneSelected | scripts/backfill_binance_15s_from_aggtrades.py:231-259 | a trade counts if and only if price and quantity are proper and its time lies in the range, and then in the fifteen seconds that hold its time |
| Buckets.BarsReachEnd | scripts/backfill_binance_15s_from_aggtrades.py:269-271 | the bars reach just past the end of the range |
| Buckets.WeightIsConserved | scripts/backfill_binance_15s_from_aggtrades.py:258-291 | every in-range trade is in exactly one bar: any weight sums to the same over bars and trades |
| Buckets.BarsConserve | scripts/backfill_binance_15s_from_aggtrades.py:269-291 | counts, notionals and buys of the bars sum to those of the in-range trades |
| Buckets.BarIsConsistent | scripts/backfill_binance_15s_from_aggtrades.py:269-290 | low, opening, close and high are in order, and buys plus sells are the notional |
| Buckets.EmptyBarCarriesClose | scripts/backfill_binance_15s_from_aggtrades.py:269-291 | from the first traded bucket on an empty bar shows the nearest earlier close |
| Buckets.LeadingBarShowsLastRead | scripts/backfill_binance_15s_from_aggtrades.py:265-268 | before it an empty bar shows the last price read at all |
| Buckets.LeadingBarsAreRight | scripts/backfill_binance_15s_from_aggtrades.py:265-268 | with trades in time order that is the last price before the range if and only if nothing was traded in it or the last trade has that price |
| Buckets.LeadingBarShowsLaterPrice | scripts/backfill_binance_15s_from_aggtrades.py:265-268 | one trade in the second bucket and none before: the first bar shows its price |

## Left out

- PostgreSQL, docker, ssh, zstd and files beyond table steps and named contents; a manifest or file write is one step, and a run may stop only between steps.
- SHA-256 is a parameter; no collision is assumed only for the comparisons a run makes.
- `RetentionAuthority`, `resolve_dataset_scope` and the retention models are not part of this model: the plan's cutoff is any instant, and a fence check may raise.
- Deleting `universe_snapshots` cascades to `universe_entries` and `monitoring_memberships`; a delete in the model removes rows of its own table only, and the results do not cover the rows that go with it.
- Advisory locks: they only order prunes among themselves, and the machine has one trimmer.
- The partitioned path of `run_locked_prune` checks no fingerprint and reports the recorded number; only which partitions it drops is modelled.
- `_current_oom`, disk, log, heartbeat, retention-timer and container detectors: single-branch code or text.
- Persisted monitor state that is no dictionary, and start times that are no numbers: the fallbacks of `_emit` for them.
- Clock values are integers; prices, notionals, rates and fractions are reals, so floating-point and decimal rounding are not modelled.
- Alert wording, payload details, durations and delivery; `print` output.
- The cache of the last size query: a cached answer or failure is one more answer or failure of the query.
- The alert `run_forever` raises for a failed iteration: a raise outside a cycle, which the runs of `AlertEngine` allow and `OpsMonitor` does not perform.
- Capacity estimates and the sustained or recent label of the storage alert, which do not change when it is raised.
- PsqlStream.Session.CopyDigest: how PostgreSQL chooses to quote is left open, and the field size limit is not modelled.
- Replay.RunSameExit: when a single position exits is a function of its event, and events come in entry order, as `build_entry_events` leaves them.
- FifoMatching.PairTrades: one symbol at a time with fills in trade order; signals are a parameter, and `side` is already upper case.
- ValueArea.Profile: which bin a price falls into is a parameter, and of two equal candidates for the point of control any may be taken.
- KlinePaging.FetchSymbol: one answer per cursor; retries, pauses and printed warnings are left out.
- Framing.RoundTrip: `int` is only assumed to read plain numerals; what it makes of signs, spaces or underscores is arbitrary.
- Buckets.AggregateSymbol: the dictionary holds bucket values instead of `Bucket` objects, so aliasing between buckets is not modelled; days and files are one sequence of rows.
- AlertMonitor.OpsMonitor.FinishCycle: the resolution pass visits names in any order, and saving the state is not modelled.
- The decision archive's row validation, log normalisation, DuckDB views other than the one-row-per-key relation, reports, statistics and migrations.
