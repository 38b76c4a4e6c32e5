# Drive9: a Dafny model of its hard parts

Drive9 is a network drive. Its server keeps metadata in TiDB and large objects in S3; a Go
client uploads in parts, and an Obsidian plugin merges notes. This project models the parts
of it that carry state or algorithms of their own, and proves what they promise.

| file | part of the system |
|---|---|
| `LineDiff.dfy`, `Merge3.dfy` | the plugin's line diff and three-way merge |
| `QuotaLedger.dfy`, `QuotaSaga.dfy`, `QuotaStore.dfy`, `QuotaReplay.dfy` | the central quota: counters, reservations, the mutation log and its replay, and the collector's part in it |
| `Journal.dfy` | the hash-chained journal: idempotent append, paged listing, verification |
| `PartLayout.dfy`, `PatchUpload.dfy`, `AppendUpload.dfy` | part arithmetic, patch and append uploads, the size check at confirm |
| `FileTables.dfy`, `RevisionCas.dfy` | the file rows written twice, and conditional writes over them |
| `GcLease.dfy` | the lease queue of the file garbage collector |
| `StreamWriter.dfy` | the concurrent streaming writer |
| `TokenBudget.dfy` | token and byte budgets of extracted image text |
| `SchemaScan.dfy` | the two quote-aware SQL scanners |
| `TextOps.dfy`, `Options.dfy` | string operations of the standard libraries, optional values |

`dafny verify dfyconfig.toml` checks everything.

## How it is modelled

- A database is a set of maps. One transaction is one atomic step, and a transaction that
  fails changes nothing. Interleavings are sequences of steps; reads that a caller uses in a
  later transaction are values it carries along, so they may be stale.
- Code that updates fields, rows, arrays or local variables is a class or a method with
  loops, proved against a function of the old state. What the source promises is then proved
  about those functions, over all inputs and all runs.
- Clocks, identifiers, network results and hashes are parameters. The journal's hash is any
  function; tamper evidence and key reuse also take it as injective over its documents.
- Integers are unbounded.

## Where code and promise differ

The model follows the code. In these places a promise, or what its comments suggest, does
not hold for all inputs; each has the exact condition beside it.

- After a conflict block of unequal removals the merge goes on with misaligned cursors
  (`Merge3.AlignedExactly`, `Merge3.ConflictCanDuplicateALine`).
- An abort whose reservation was settled after its lookup releases the bytes again
  (`QuotaSaga.StaleAbortExact`, `QuotaSaga.DoubleAbortReleasesTwice`).
- The collector's guard does not look at pending upload completions, and a write logged
  after it was read escapes it (`QuotaSaga.CollectorGuardExact`, `QuotaSaga.StaleGuardRestores`).
- A repeated reservation is reported as over quota when it would no longer fit
  (`QuotaSaga.RetriedReserve`).
- Verification races with append and then reports a broken chain
  (`JournalStore.VerifyDuringAppends`).
- `SplitTopLevelComma` drops an empty last definition (`SchemaScan.SplitUndoesJoin`).
- Confirming a file that was not inserted at revision 1 separates the two tables, and an
  unconditional update revives an unconfirmed file only while the legacy table exists
  (`FileTables.ConfirmAgreesExactly`, `FileTables.ModesAgreeExactly`); such an update leaves a
  confirmed file that no path names (`RevisionCas.OrphanExact`).
- The writer's comment says nothing is accepted after completion; Abort still is
  (`StreamWriter.AbortFollowsComplete`).
- Parts numbered below 1 are left out of the completed list (`StreamWriter.EveryPartIsSent`).
- The floor of one token is never reached (`TokenBudget.BlankIsFree`).

## Model

| member | source | states |
|---|---|---|
| `LineDiff.LcsTable` | obsidian-plugin/src/diff3.ts:155-170 | the dp table, filled from the back, holds at every cell the length of the longest common subsequence of the two remaining texts |
| `LineDiff.WalkTable` | obsidian-plugin/src/diff3.ts:172-187 | the forward walk over that table yields the matches of the recursive walk |
| `LineDiff.WalkIsCommon` | obsidian-plugin/src/diff3.ts:172-187 | the walk is a common subsequence past its start, as long as the table cell says |
| `LineDiff.LcsIsLongest` | obsidian-plugin/src/diff3.ts:160-170 | no common subsequence past a cell is longer than the cell |
| `LineDiff.WalkIsEarliest` | obsidian-plugin/src/diff3.ts:172-187 | of all longest common subsequences past a cell, the walk starts with the one whose first match comes earliest in the second text, which fixes what it does on a tie |
| `LineDiff.LcsSkipOne` | obsidian-plugin/src/diff3.ts:160-170 | skipping one line on either side changes the cell by at most one |
| `LineDiff.LongestCommonSubsequence` | obsidian-plugin/src/diff3.ts:155-188 | the result is a common subsequence and no common subsequence is longer |
| `LineDiff.ScriptSpells` | obsidian-plugin/src/diff3.ts:115-148 | keep and remove lines spell the source, keep and add lines the target, and the keeps are the matches |
| `LineDiff.ScriptShape` | obsidian-plugin/src/diff3.ts:115-148 | the script has the shape (remove\* add\* keep)\* remove\* add\* |
| `LineDiff.KeepsBounded` | obsidian-plugin/src/diff3.ts:115-148 | no script between two texts keeps more lines than the table says |
| `LineDiff.DiffIsShortest` | obsidian-plugin/src/diff3.ts:115-148 | the script spells both texts, has the shape, and is no longer than any other script between them |
| `LineDiff.EmitScript` | obsidian-plugin/src/diff3.ts:119-147 | the emitting loops produce that script from the matches |
| `LineDiff.DiffLines` | obsidian-plugin/src/diff3.ts:115-148 | diffLines returns a shortest script of that shape which spells both texts |
| `Merge3.AlignedStep` | obsidian-plugin/src/diff3.ts:36-101 | every step outside a conflict block leaves both cursors at the same base line |
| `Merge3.ConflictIffClash` | obsidian-plugin/src/diff3.ts:36-101 | the loop reports a conflict if and only if some base position was changed by both sides |
| `Merge3.CleanMergeIsSlots` | obsidian-plugin/src/diff3.ts:36-104 | without conflict the text is, gap by gap, the lines one side adds there followed by the base line if both sides keep it |
| `Merge3.AdditionsSurvive` | obsidian-plugin/src/diff3.ts:36-101 | conflict or not, every line either side added is in the output in that side's order |
| `Merge3.ConflictText` | obsidian-plugin/src/diff3.ts:71-89 | where both sides changed something, the output goes on with the local marker, exactly the lines ours adds up to its next kept line, the separator, exactly those of theirs up to its next kept line, and the remote marker; then the merge of what is left |
| `Merge3.OneSideLeft` | obsidian-plugin/src/diff3.ts:90-100 | once one side is exhausted, the other contributes its kept and added lines, in order |
| `Merge3.NothingKept` | obsidian-plugin/src/diff3.ts:71-89 | two scripts that change something and keep no line merge to one conflict block with all of ours above all of theirs |
| `Merge3.RewritesConflict` | obsidian-plugin/src/diff3.ts:18-104 | two different rewrites that share no line with the base, or two different texts over an empty base, merge to the local marker, every line of ours, the separator, every line of theirs and the remote marker, with the conflict flag set |
| `Merge3.AlignedAfterBlock` | obsidian-plugin/src/diff3.ts:71-89 | after a conflict block the cursors agree if and only if both runs removed equally many base lines |
| `Merge3.AlignedExactly` | obsidian-plugin/src/diff3.ts:36-101 | the cursors stay on the same base line through the whole loop if and only if every conflict block removes equally many lines on both sides |
| `Merge3.ConflictCanDuplicateALine` | obsidian-plugin/src/diff3.ts:18-104 | three concrete texts for which merge3 emits a line twice that each of them holds once |
| `Merge3.MergeSwap` | obsidian-plugin/src/diff3.ts:36-104 | swapping the scripts keeps the conflict flag and, without conflict, the lines |
| `Merge3.MergeUnchanged` | obsidian-plugin/src/diff3.ts:36-101 | a side that keeps every line merges to the other side's text |
| `Merge3.DiffSelfKeeps` | obsidian-plugin/src/diff3.ts:115-148 | a text diffed against itself is kept line by line |
| `Merge3.MergeWithSelf` | obsidian-plugin/src/diff3.ts:36-101 | two equal scripts conflict if and only if they change something |
| `Merge3.JoinSplitLines` | obsidian-plugin/src/diff3.ts:219-226 | joinLines undoes splitLines on every text, the empty one included |
| `Merge3.ShortcutsAgree` | obsidian-plugin/src/diff3.ts:22-27 | the shortcuts for an unchanged side return what the general loop computes through splitLines and joinLines |
| `Merge3.EqualSidesShortcutNeeded` | obsidian-plugin/src/diff3.ts:19-21 | without the shortcut for equal sides the loop conflicts if and only if they differ from the base |
| `Merge3.MergeSymmetric` | obsidian-plugin/src/diff3.ts:18-104 | swapping local and remote keeps the conflict flag and, without conflict, the text |
| `Merge3.MergeMeaning` | obsidian-plugin/src/diff3.ts:18-104 | merge3 conflicts if and only if the two diffs touch a common position, and otherwise returns the gap-by-gap merge |
| `Merge3.PushRun` | obsidian-plugin/src/diff3.ts:71-89 | one inner loop of a conflict block pushes exactly the additions up to the next kept line |
| `Merge3.Branch` | obsidian-plugin/src/diff3.ts:46-100 | one pass outside a conflict moves each cursor past at most one edit and pushes at most one line, as the merge of the remaining scripts asks; one of the cursors moves |
| `Merge3.PlainStep` | obsidian-plugin/src/diff3.ts:46-100 | each branch outside a conflict advances and keeps pushed lines plus remaining merge equal to the whole merge |
| `Merge3.ConflictStep` | obsidian-plugin/src/diff3.ts:71-89 | a conflict block does the same and sets the flag |
| `Merge3.MergeEdits` | obsidian-plugin/src/diff3.ts:36-101 | the two-cursor loop computes the recursive merge of the two scripts |
| `Merge3.MergeTexts` | obsidian-plugin/src/diff3.ts:18-104 | merge3 with its shortcuts computes the merge of the three texts |
| `QuotaLedger.UpsertExact` | pkg/meta/quota.go:355-365 | by how much an upsert with a charge moves each counter away from the sum of its rows |
| `QuotaLedger.DeleteExact` | pkg/backend/file_gc_worker.go:185-237 | deleting a meta row keeps the counters right if and only if the subtracted size and flag are the row's |
| `QuotaLedger.SettleTotals` | pkg/meta/quota.go:482-492 | settling takes exactly the held bytes out of the sum of active reservations |
| `QuotaLedger.CompleteUploadExact` | pkg/backend/upload_reservation.go:254-298 | completing an upload keeps all counters equal to their rows if and only if the payload matches the rows, on both settle branches |
| `QuotaLedger.EffectExact` | pkg/backend/mutation_replay.go:139-258 | every mutation keeps storage, media and reserved counters equal to their rows if and only if its payload matches the recorded file meta and reservation |
| `QuotaLedger.ExpireReleases` | pkg/meta/quota.go:571-625 | the expiry sweep releases exactly the bytes of the rows it aborts |
| `QuotaLedger.SweepExact` | pkg/meta/quota.go:571-625 | the sweep aborts exactly the active rows whose expiry lies before the given time and leaves every other row and column as it was; a reserved counter that agreed with the rows then counts just the active ones that did not expire |
| `QuotaLedger.SettledRow` | pkg/backend/upload_reservation.go:82-298 | abort and completion change the status of the one active row they name, to aborted and to completed, and no other row; without such a row they change none |
| `QuotaLedger.ReserveGrants` | pkg/meta/quota.go:301-335 | a reservation is granted exactly to an upload without a row whose bytes fit beside storage and reservations; it adds one active row with those bytes and that expiry, and is refused as over quota exactly when it does not fit |
| `QuotaLedger.RetryExact` | pkg/meta/quota.go:782-795 | a failed replay raises the retry count of the pending entry by one and gives it up exactly on the fifth; nothing else changes |
| `QuotaSaga.StepExact` | pkg/backend/upload_reservation.go:35-215 | every step of the saga keeps the counters equal to their rows if and only if it is sound |
| `QuotaSaga.SoundRunKeepsCounters` | pkg/backend/quota_mutation.go:49-158 | every run of sound steps does |
| `QuotaSaga.AttemptExact` | pkg/backend/mutation_replay.go:130-137 | an apply does if and only if its payload matches |
| `QuotaSaga.ReserveExact` | pkg/meta/quota.go:301-335 | a reservation always does |
| `QuotaSaga.AbortExact` | pkg/backend/upload_reservation.go:82-126 | an abort does if and only if the bytes it releases are the bytes still held |
| `QuotaSaga.RowIsStableOverRuns` | pkg/meta/quota.go:455-492 | over every run a reservation row keeps its size and a settled one is never active again |
| `QuotaSaga.StaleAbortExact` | pkg/backend/upload_reservation.go:82-126 | whatever ran between an abort's lookup and its release, the release is right if and only if the row is still active or held nothing |
| `QuotaSaga.DoubleAbortReleasesTwice` | pkg/backend/upload_reservation.go:82-126 | a concrete run in which two aborts of one upload drive reserved_bytes below zero |
| `QuotaSaga.StaleGcExact` | pkg/backend/file_gc_worker.go:185-212 | the collector's delete is right if and only if the row it read is unchanged or gone |
| `QuotaSaga.LaterGcIsInVain` | pkg/backend/file_gc_worker.go:185-237 | once the row is gone, a collection of the file anywhere in any later run changes nothing, if and only if no write of the file was pending; the run logs no new write of it |
| `QuotaSaga.GcSubtractsOnce` | pkg/backend/file_gc_worker.go:185-237 | a collection and any run after it, with further collections of the file anywhere, take its size and media unit out of the counters once; nothing is pending for the file and the run logs no new write of it |
| `QuotaSaga.SettleBranchesAgree` | pkg/backend/upload_reservation.go:254-298 | an expiry sweep before or after the completion of an upload leaves the same counters and file rows, if and only if the sweep spares its reservation or reserved and new size are the reserved bytes |
| `QuotaSaga.EffectCharges` | pkg/backend/mutation_replay.go:139-258 | a create, overwrite or upload completion changes a counter by an amount fixed by its payload alone |
| `QuotaSaga.CountersFollowTheLog` | pkg/backend/quota_mutation.go:49-89 | over every interleaving of inserts, applies, failures and replays, each counter has moved by the applied entries, each counted once, less what was collected |
| `QuotaSaga.OrderDoesNotMatter` | pkg/backend/mutation_replay.go:72-137 | two runs that applied the same mutations end on the same counters, whatever the order and path |
| `QuotaSaga.SettledEntriesStay` | pkg/meta/quota.go:761-795 | a log entry keeps its payload, and applied or failed is final |
| `QuotaSaga.StaysGoneExactly` | pkg/backend/file_gc_worker.go:185-212 | a row that is gone is not restored by any later run that logs no new write of the file, if and only if no write of it is pending |
| `QuotaSaga.GuardPersists` | pkg/backend/file_gc_worker.go:214-223 | a guard that passed still passes after any run that logs no new write of the file |
| `QuotaSaga.PendingSplits` | pkg/meta/quota.go:734-755 | nothing is pending for a file exactly if the collector's guard finds neither a create nor an overwrite of it and no upload completion of it is pending |
| `QuotaSaga.CollectorGuardExact` | pkg/backend/file_gc_worker.go:185-223 | with the guard read first and the row deleted later, the row stays gone if and only if no write of the file is pending at the deletion; if none was logged in between, if and only if no upload completion is |
| `QuotaSaga.StaleGuardRestores` | pkg/backend/file_gc_worker.go:185-223 | an overwrite logged after the guard was read survives the deletion, and its replay restores the row |
| `QuotaSaga.ReserveRespectsLimit` | pkg/meta/quota.go:301-335 | a granted reservation stays within the limit and belongs to a new upload; a refused one changes nothing |
| `QuotaSaga.RetriedReserve` | pkg/backend/upload_reservation.go:35-74 | a repeated reservation claims nothing, and is recognised as a duplicate if and only if it would still fit |
| `QuotaStore.Store.constructor` | pkg/meta/quota.go:159-165 | an empty tenant, whose counters equal its rows |
| `QuotaStore.Store.AtomicReserveAndInsertUpload` | pkg/meta/quota.go:301-335 | counter test first, then the insert, which on a duplicate undoes the counter |
| `QuotaStore.Store.SettleActiveReservation` | pkg/meta/quota.go:482-492 | reports and flips exactly an active row |
| `QuotaStore.Store.ReleaseAborted` | pkg/backend/upload_reservation.go:110-116 | releases the looked-up bytes whether or not the row was still active |
| `QuotaStore.Store.AbortUploadReservation` | pkg/backend/upload_reservation.go:82-126 | lookup and release with nothing between them keep the counters right |
| `QuotaStore.Store.SumExpired` | pkg/meta/quota.go:579-603 | the loop sums the active reservations past their expiry |
| `QuotaStore.Store.ExpireActiveReservations` | pkg/meta/quota.go:571-625 | aborts exactly those rows and releases their sum |
| `QuotaStore.Store.UpsertFileMeta` | pkg/meta/quota.go:355-365 | replaces one row, keeps the others |
| `QuotaStore.Store.DeleteFileMetaIfExists` | pkg/meta/quota.go:413-425 | removes the row and reports whether it was there |
| `QuotaStore.Store.ApplyUploadComplete` | pkg/backend/upload_reservation.go:254-298 | the settled flag picks which counter pays; new state as the specification says |
| `QuotaStore.Store.ApplyDelete` | pkg/backend/file_gc_worker.go:185-237 | counters are charged only if a row was removed |
| `QuotaStore.Store.ApplyMutation` | pkg/backend/mutation_replay.go:139-258 | dispatches every mutation kind to its effect |
| `QuotaStore.Store.InsertMutationLog` | pkg/meta/quota.go:683-695 | appends one pending entry |
| `QuotaStore.Store.MarkMutationApplied` | pkg/meta/quota.go:761-773 | succeeds and marks exactly a pending entry |
| `QuotaStore.Store.ApplyInTx` | pkg/backend/mutation_replay.go:130-137 | apply and mark together, or neither |
| `QuotaStore.Store.LogAndApply` | pkg/backend/quota_mutation.go:49-89 | a durable pending entry, then one attempt; a failed attempt leaves it pending |
| `QuotaStore.Store.IncrMutationRetry` | pkg/meta/quota.go:782-795 | counts a retry of a pending entry and fails it at the limit; others are left alone |
| `QuotaStore.Store.CollectFile` | pkg/backend/file_gc_worker.go:185-237 | refused while a create or overwrite is pending; otherwise the row is gone and the counters stay right |
| `QuotaReplay.Barrier` | pkg/backend/mutation_replay.go:72-128 | after a tenant's first entry that is not applied, all its later entries of the batch are skipped |
| `QuotaReplay.ItemExact` | pkg/backend/mutation_replay.go:96-117 | per outcome, what one item does to its tenant's log: applied, it is marked and takes effect; failed, its retry count rises unless that fails too; skipped, nothing |
| `QuotaReplay.BatchIsARun` | pkg/backend/mutation_replay.go:72-137 | for every tenant, the database after a batch is the database after the ledger run made of the apply and retry steps that the outcomes stand for |
| `QuotaReplay.TenantsAreIsolated` | pkg/backend/mutation_replay.go:72-128 | a tenant ends a mixed batch as if the batch had held only its own entries |
| `QuotaReplay.ReplayBatch` | pkg/backend/mutation_replay.go:72-128 | the loop computes that batch and counts applied, failed and skipped, which add up to the batch |
| `JournalChain.HeadFixesChain` | pkg/journal/journal.go:612-634 | two chains that end on one hash have one genesis and the same entries |
| `JournalChain.BuildIsLinked` | pkg/datastore/journal.go:231-273 | the entries an append builds are linked to each other and to the previous hash, and numbered without a gap |
| `JournalChain.EntriesHoldTheInputs` | pkg/datastore/journal.go:235-273 | entry i of a committed batch holds every column of input i, its own id, the resolved actor, the writer, the source and the append id |
| `JournalChain.OutcomeExact` | pkg/datastore/journal.go:152-229 | which of the answers an append gets, on the batch size, the closed flag and the stored request row |
| `JournalChain.FirstAnswer` | pkg/datastore/journal.go:274-307 | a first append answers with the sequence range, the count and the head hash that the journal then has |
| `JournalChain.AppendKeepsChain` | pkg/datastore/journal.go:212-309 | an append keeps numbers contiguous from 1, every prev_hash equal to the hash before it, and head_hash equal to the last |
| `JournalChain.AppendKeepsRows` | pkg/datastore/journal.go:212-309 | and keeps the ranges of the request rows inside the entries, disjoint, and ending on their head hash |
| `JournalChain.RunKeepsChain` | pkg/datastore/journal.go:139-315 | so does every run of appends |
| `JournalChain.FirstOfItsKeyCommits` | pkg/datastore/journal.go:212-309 | in every run a call commits if and only if it is the first acceptable one with its key, and the journal is open without a row for it |
| `JournalChain.NoKeyCommitsTwice` | pkg/datastore/journal.go:220-229 | no key commits twice, whatever its calls carry |
| `JournalChain.EntriesAreTheBatches` | pkg/datastore/journal.go:206-315 | under any retries and reuses, the entries are the batches of the first call of each key, in that order |
| `JournalChain.RowsAreFinal` | pkg/datastore/journal.go:212-309 | a key keeps its row for good, and entries only grow at the end |
| `JournalChain.RetryNamesTheSameRange` | pkg/datastore/journal.go:495-505 | the first answer names exactly the range of its batch, and every retry while the journal is open gets the same range and changes nothing |
| `JournalChain.ReuseConflicts` | pkg/datastore/journal.go:220-229 | a key reused with another request, writer or source is refused and changes nothing |
| `JournalChain.ReachableVerifies` | pkg/datastore/journal.go:389-482 | every journal that create and append can produce verifies |
| `JournalChain.TamperEvidence` | pkg/datastore/journal.go:431-472 | against the original head, a listing verifies if and only if genesis, genesis hash and every entry are the original ones |
| `JournalChain.GrowsExactly` | pkg/datastore/journal.go:212-309 | a run adds entries if and only if one of its calls commits |
| `JournalStore.AfterIsSuffix` | pkg/datastore/journal.go:317-358 | listing after a number gives exactly the rows past it, in order |
| `JournalStore.AfterPage` | pkg/datastore/journal.go:426-469 | asking past the k-th listed row gives the rows from k on |
| `JournalStore.ListedIsEverything` | pkg/datastore/journal.go:317-358 | on a journal built by appends, listing from zero gives every entry |
| `JournalStore.PageStep` | pkg/datastore/journal.go:426-469 | each page continues the list where the last one ended |
| `JournalStore.PagesAreASnapshot` | pkg/datastore/journal.go:426-469 | however appends fall between the pages, a listing that ends is the journal as its last read found it |
| `JournalStore.VerifyDuringAppends` | pkg/datastore/journal.go:389-482 | with the head read first and pages read between appends, verification reports a good chain if and only if no append committed before its last read |
| `JournalStore.Store.constructor` | pkg/datastore/journal.go:21-137 | a new journal is chained, with its genesis hash as head |
| `JournalStore.Store.CreateAgain` | pkg/datastore/journal.go:68-97 | creating it again is accepted for the request it was created with and, for an injective hash, for no other |
| `JournalStore.Store.BuildBatch` | pkg/datastore/journal.go:231-273 | the loop seals each input onto the chain as the specification says |
| `JournalStore.Store.AppendJournalEntries` | pkg/datastore/journal.go:139-315 | answer and new state of an append, with all its refusals, and the chain kept |
| `JournalStore.Store.CommitBatch` | pkg/datastore/journal.go:231-309 | a committed batch adds its entries, its request row and the new head |
| `JournalStore.Store.VerifyJournal` | pkg/datastore/journal.go:389-482 | for any stored rows and any page size, every listed row is visited once and the verdict is that of the whole chain |
| `JournalStore.Store.VerifyPage` | pkg/datastore/journal.go:444-463 | one page extends the verdict and the running hash |
| `PartLayout.CountExact` | pkg/s3client/s3client.go:164-178 | the part count reaches the total and its last part is not empty |
| `PartLayout.CountUnique` | pkg/s3client/s3client.go:164-178 | no other count does |
| `PartLayout.CountWithin` | pkg/s3client/s3client.go:164-178 | a total needs at most n parts if and only if n parts can hold it |
| `PartLayout.CutsTile` | pkg/s3client/s3client.go:164-178 | parts are non-empty, all full except possibly the last, and tile the object |
| `PartLayout.CalcParts` | pkg/s3client/s3client.go:164-178 | the loop returns those parts, numbered from 1, with the fallback part size |
| `PartLayout.AdaptiveFits` | pkg/s3client/s3client.go:144-161 | the adaptive size is legal, and keeps to 10000 parts if and only if the file fits at 512 MiB |
| `PartLayout.AdaptiveIsSmallest` | pkg/s3client/s3client.go:144-161 | the adaptive size is aligned, and no aligned size from the default up that keeps within the part limit is smaller |
| `PatchUpload.SplitIsPartition` | pkg/backend/patch.go:242-302 | copied and uploaded parts partition 1..n, each list in order |
| `PatchUpload.RangeInSource` | pkg/backend/patch.go:242-302 | every copy range is non-empty, inside the source, and ends with the part or the source |
| `PatchUpload.ClampedExact` | pkg/backend/patch.go:242-302 | a copied part has its full size if and only if the part ends inside the source |
| `PatchUpload.DirtySet` | pkg/backend/patch.go:224-228 | the set built from the client's list |
| `PatchUpload.SplitParts` | pkg/backend/patch.go:242-302 | the split loop fills the copies and offers the rest, in order, with their read-back ranges |
| `PatchUpload.ConfirmExact` | pkg/backend/upload.go:880-895 | comparing listed parts by position accepts exactly the uploads that hold every part at its size |
| `PatchUpload.ConfirmSizes` | pkg/backend/upload.go:880-895 | the comparison loop |
| `PatchUpload.ConfirmedPatchIsFaithful` | pkg/backend/upload.go:880-895 | in a confirmed patch every part is the client's bytes or exactly the source's bytes at that offset |
| `PatchUpload.PatchConfirmsExact` | pkg/backend/patch.go:206-302 | with every client part in place, confirm succeeds if and only if no copy was cut short |
| `PatchUpload.ShortCopyExact` | pkg/backend/patch.go:206-302 | a copy is cut short if and only if the part with the source's last byte is left clean while the file grows past it |
| `AppendUpload.FirstDirtyExact` | pkg/backend/patch.go:119-142 | the first dirty part is the one the end of the base lies in or starts |
| `AppendUpload.DirtyEndsPastBase` | pkg/backend/patch.go:119-142 | a part ends past the base if and only if it is not before that one |
| `AppendUpload.AppendDirtyPartNumbers` | pkg/backend/patch.go:119-142 | the list holds, in order, exactly the parts that end past the base |
| `AppendUpload.AppendNeverShort` | pkg/backend/patch.go:100-142 | an append never cuts a copy short |
| `AppendUpload.OverlapMeansRead` | pkg/client/append.go:168-174 | the client expects a read-back range exactly when the server offers one |
| `AppendUpload.PartData` | pkg/client/append.go:66-83 | a dirty part is what the base still holds of it followed by the next appended bytes |
| `AppendUpload.BuildPart` | pkg/client/append.go:67-83 | one part is built from the read-back bytes and the reader, or fails because the reader ran out |
| `AppendUpload.CheckReads` | pkg/client/append.go:58-62 | the loop accepts if and only if every overlapping part has its range |
| `AppendUpload.BuildParts` | pkg/client/append.go:58-93 | building succeeds if and only if the reader holds enough bytes and no range is missing; then nothing remains and every part is its slice of base and append |
| `AppendUpload.AppendEndToEnd` | pkg/client/append.go:58-93 | copied and client-built parts confirm, and concatenate to base followed by append |
| `AppendUpload.PlanAppend` | pkg/backend/patch.go:67-142 | the server copies everything before the first dirty part and offers the rest |
| `AppendUpload.AppendFlow` | pkg/client/append.go:58-95 | the whole append succeeds if and only if the reader delivers the announced bytes, and the object is then base followed by those bytes |
| `AppendUpload.ConfirmUpload` | pkg/backend/upload.go:880-895 | confirm accepts exactly complete uploads and completes to the concatenated parts |
| `AppendUpload.AppendAndPatchAgree` | pkg/backend/patch.go:100-106 | the patch step keeps the part size the dirty parts were computed with, and accepts if and only if the wish is at most 5 GiB and 10000 parts hold the file at the wished or the largest adaptive size |
| `AppendUpload.AppendPartSizeExact` | pkg/backend/patch.go:100-106 | the part size an append settles on, and when there is none |
| `SchemaScan.BodyEndExact` | internal/schemaspec/schemaspec.go:100-136 | the scan stops at k if and only if k closes the text before it |
| `SchemaScan.BodyIsBalanced` | internal/schemaspec/schemaspec.go:100-136 | a body is returned if and only if it is balanced, closes its quotes and is followed by its parenthesis |
| `SchemaScan.BalancedIsProper` | internal/schemaspec/schemaspec.go:100-136 | the scanner accepts a text as balanced exactly if it is one of the grammar: bare characters, escapes, quoted stretches and parenthesised bodies |
| `SchemaScan.OneDefinitionIsProper` | internal/schemaspec/schemaspec.go:141-185 | a text is a single definition exactly if it is one of that grammar without a comma outside quotes and parentheses |
| `SchemaScan.ScanBody` | internal/schemaspec/schemaspec.go:100-136 | the loop returns a body if and only if there is one, and that body is balanced |
| `SchemaScan.JoinPieces` | internal/schemaspec/schemaspec.go:141-185 | the pieces of any text, joined by commas, are the text |
| `SchemaScan.PiecesOfJoin` | internal/schemaspec/schemaspec.go:141-185 | the pieces of a comma-join of single definitions are those definitions |
| `SchemaScan.PiecesAreDefinitions` | internal/schemaspec/schemaspec.go:141-185 | every piece of a balanced text is one definition |
| `SchemaScan.SplitUndoesJoin` | internal/schemaspec/schemaspec.go:141-185 | splitting the comma-join of trimmed single definitions gives the list back if and only if its last one is not empty |
| `SchemaScan.SplitReportsTrimmed` | internal/schemaspec/schemaspec.go:141-185 | every reported definition is its piece less the white space around it, and at most the last piece is not reported |
| `SchemaScan.ScannersAgree` | internal/schemaspec/schemaspec.go:100-185 | on text the first scanner accepts, the second one passes through the same states |
| `SchemaScan.BodySplitsCleanly` | internal/schemaspec/schemaspec.go:100-185 | any body the first scanner returns leaves the second outside quotes at depth zero, in whole definitions |
| `SchemaScan.SplitTopLevelComma` | internal/schemaspec/schemaspec.go:141-185 | the loop returns the trimmed pieces, without an empty last one |
| `TokenBudget.EstimateAt` | pkg/backend/image_extract_structured.go:334-359 | a rune that is no ASCII letter or digit cuts the estimate in two and costs one unless it is white space |
| `TokenBudget.TokensOfRun` | pkg/backend/image_extract_structured.go:337-342 | a run of n ASCII letters and digits costs n / 4, rounded up |
| `TokenBudget.PrefixMonotone` | pkg/backend/image_extract_structured.go:334-359 | the estimate never falls as a prefix grows |
| `TokenBudget.BlankIsFree` | pkg/backend/image_extract_structured.go:355-357 | the estimate is zero exactly on blank text, so the floor of one never applies |
| `TokenBudget.TrimIsCheaper` | pkg/backend/image_extract_structured.go:331-331 | trimming raises neither the estimate nor the byte length |
| `TokenBudget.EstimateTokens` | pkg/backend/image_extract_structured.go:334-359 | the streaming loop computes the estimate |
| `TokenBudget.TruncateByEstimatedTokens` | pkg/backend/image_extract_structured.go:317-332 | the binary search finds the longest prefix in budget; text in budget is returned as it is |
| `TokenBudget.TruncateUTF8Bytes` | pkg/backend/image_extract.go:400-417 | the longest prefix of whole runes in the byte limit, trimmed |
| `TokenBudget.RuneLenExact` | pkg/backend/image_extract.go:400-417 | the length of a rune is that of its encoding by section 3 of RFC 3629, from which the rune can be read back |
| `TokenBudget.BytesOfEncoding` | pkg/backend/image_extract.go:400-417 | the byte length of a text is the length of its encoding |
| `TokenBudget.EstimateOfFields` | pkg/backend/image_extract_structured.go:334-359 | the estimate is the sum over the fields, whatever the white space between them |
| `TokenBudget.CleanedKeepsFields` | pkg/backend/image_extract_structured.go:195-208 | the clean-up keeps every field in order and the estimate |
| `TokenBudget.CleanedLine` | pkg/backend/image_extract_structured.go:195-208 | a single line is cleaned to its words with one blank between them |
| `TokenBudget.CleanedAt` | pkg/backend/image_extract_structured.go:195-208 | two texts joined by a line break are cleaned separately and joined again, without the break when one of them is blank |
| `TokenBudget.CleanedTwice` | pkg/backend/image_extract_structured.go:195-208 | cleaning twice is cleaning once |
| `TokenBudget.SanitizeStructured` | pkg/backend/image_extract_structured.go:195-213 | never over the byte limit, never dearer than its input, no field lost unless bytes had to go |
| `TokenBudget.PrepareStructured` | pkg/backend/image_extract_structured.go:80-96 | the structured text that is stored satisfies the token budget and, when set, the byte limit |
| `TokenBudget.SanitizeExtracted` | pkg/backend/image_extract.go:388-398 | the plain text likewise fits the byte limit and keeps its fields when they fit |
| `GcLease.RunKeepsSound` | pkg/datastore/file_gc_tasks.go:116-316 | every run keeps one row per file id, one row per receipt, and a lease exactly on the rows in processing |
| `GcLease.EveryReachableIsSound` | pkg/datastore/file_gc_tasks.go:116-394 | so does every run from an empty table |
| `GcLease.OneTaskPerFile` | pkg/datastore/file_gc_tasks.go:345-394 | a file id keeps its row and never gets a second one |
| `GcLease.EnqueueExact` | pkg/datastore/file_gc_tasks.go:345-394 | the row an enqueue inserts, column by column, and when it inserts none |
| `GcLease.ClaimExact` | pkg/datastore/file_gc_tasks.go:116-182 | a claim changes exactly a queued row that is due: it is in work, with one more attempt and the given receipt until now plus the given or the default lease time |
| `GcLease.LeaseEndsExact` | pkg/datastore/file_gc_tasks.go:185-251 | ack and retry change the row exactly for the holder of a lease that still runs: done, or queued again at the given time, or given up at the attempt limit |
| `GcLease.RecoverExact` | pkg/datastore/file_gc_tasks.go:254-316 | recovery changes exactly a row in work whose lease has lapsed: queued again, due now |
| `GcLease.RetriedWaits` | pkg/datastore/file_gc_tasks.go:208-251 | a row its holder retried cannot be claimed before the retry time |
| `GcLease.SpentStaysSpent` | pkg/datastore/file_gc_tasks.go:116-316 | a receipt no row carries any more never comes back |
| `GcLease.StaleWorkerIsRefused` | pkg/datastore/file_gc_tasks.go:185-251 | after recovery, retry or ack took a receipt off its row, its holder can neither ack nor requeue, in any later state |
| `GcLease.ExpiredLeaseIsLost` | pkg/datastore/file_gc_tasks.go:185-251 | with a clock that does not run backwards, a lease that has ended can never be acknowledged or retried |
| `GcLease.AckExcludesRecovery` | pkg/datastore/file_gc_tasks.go:185-316 | ack is possible exactly before the lease ends and recovery exactly after it |
| `GcLease.SettledIsFinal` | pkg/datastore/file_gc_tasks.go:116-316 | succeeded and dead-lettered rows never change again |
| `GcLease.NeverDeadLettered` | pkg/datastore/file_gc_tasks.go:237-246 | a row with max_attempts 0 is never dead-lettered |
| `GcLease.LeasesAreAccounted` | pkg/datastore/file_gc_tasks.go:116-316 | the attempt count is the number of leases handed out, each but the open one ended once, and a row is acknowledged once exactly when it succeeded |
| `GcLease.SweepIsARun` | pkg/datastore/file_gc_tasks.go:254-316 | a recovery sweep is a run of single recoveries and requeues exactly the expired rows it names |
| `GcLease.Queue.constructor` | pkg/datastore/file_gc_tasks.go:345-394 | an empty table |
| `GcLease.Queue.Enqueue` | pkg/datastore/file_gc_tasks.go:345-394 | inserts a queued row unless the id or the file id is there, and reports which |
| `GcLease.Queue.Claim` | pkg/datastore/file_gc_tasks.go:116-182 | leases a queued, available row under the new receipt |
| `GcLease.Queue.Ack` | pkg/datastore/file_gc_tasks.go:185-205 | succeeds exactly for the current receipt of a running lease; otherwise the right error and no change |
| `GcLease.Queue.Retry` | pkg/datastore/file_gc_tasks.go:208-251 | the same guard; dead-letters exactly at a positive limit, else requeues |
| `GcLease.Queue.RecoverExpired` | pkg/datastore/file_gc_tasks.go:254-316 | the loop requeues exactly the expired rows and counts them |
| `GcLease.RetryDelay` | pkg/backend/file_gc_worker.go:239-257 | the delay doubles with every attempt up to the maximum; the first attempt waits the base even above it |
| `GcLease.DelayDoubles` | pkg/backend/file_gc_worker.go:239-257 | the first delay is the base, two seconds by default, and each next one twice the last, up to the maximum, two minutes by default |
| `StreamWriter.Highest` | pkg/client/stream.go:239-245 | the loop over the map finds the highest part number |
| `StreamWriter.BuildParts` | pkg/client/stream.go:233-253 | the list is built exactly when parts 1..n are all there, n being the highest number |
| `StreamWriter.ListExact` | pkg/client/stream.go:233-253 | the list exists if and only if there is no gap, and then names parts 1..n in order with their tags |
| `StreamWriter.RunKeepsSound` | pkg/client/stream.go:96-292 | every run keeps the writer's flags, flight and recorded tags consistent |
| `StreamWriter.SentOnceAndExactly` | pkg/client/stream.go:181-257 | complete is sent at most once, never if a background part failed, and carries parts 1..n in order with the tags recorded last |
| `StreamWriter.EveryPartIsSent` | pkg/client/stream.go:233-256 | nothing recorded is left out of the list if and only if every part number is at least 1 |
| `StreamWriter.NothingEntersAfterSeal` | pkg/client/stream.go:96-127 | once sealed, no part newly enters flight |
| `StreamWriter.NothingInFlightAfterWait` | pkg/client/stream.go:196-213 | nothing is in flight at any time after the wait of Complete |
| `StreamWriter.ErrorIsSticky` | pkg/client/stream.go:286-292 | the first error stays, admits no part and lets no complete out |
| `StreamWriter.AbortFirstWins` | pkg/client/stream.go:262-283 | if Abort seals first, complete is never sent |
| `StreamWriter.AbortFollowsComplete` | pkg/client/stream.go:262-283 | after every complete an abort can still go out, because Abort does not look at the completed flag |
| `StreamWriter.AbortWaitsForParts` | pkg/client/stream.go:262-283 | over every run, an aborted writer has no part in flight then or later, and the server was told to abort exactly if the upload had been started |
| `StreamWriter.EnterExact` | pkg/client/stream.go:96-127 | a part enters flight exactly when nothing failed, completed, aborted or closed the writer and the upload is or gets initiated; a failed initiation becomes the error |
| `StreamWriter.SlotExact` | pkg/client/stream.go:134-142 | a part that waits for a slot starts or leaves; any other does neither |
| `StreamWriter.CheckExact` | pkg/client/stream.go:202-213 | after the wait, Complete goes on exactly if the upload was started and there is no error |
| `StreamWriter.FinalPartExact` | pkg/client/stream.go:215-228 | a final part that fails ends the call; one that succeeds is recorded under its own number |
| `StreamWriter.FailedNeverSends` | pkg/client/stream.go:181-257 | a call of Complete that failed never sends anything later |
| `StreamWriter.FailedIsTheRun` | pkg/client/stream.go:142-172 | over every run, the failure flag says exactly whether the failure of a running part occurred |
| `StreamWriter.AbortSealExact` | pkg/client/stream.go:262-271 | a call of Abort closes the writer and waits, unless one has finished before |
| `StreamWriter.LogIsTheRun` | pkg/client/stream.go:96-228 | over every run, what is recorded is what the steps reported, in order, each tag under the number its part entered with |
| `StreamWriter.WrittenIsSent` | pkg/client/stream.go:96-257 | parts written one after the other and then completed are sent as the list of parts 1 to n with just those tags |
| `StreamWriter.Writer.constructor` | pkg/client/stream.go:49-58 | a new writer is idle |
| `StreamWriter.Writer.EnterPart` | pkg/client/stream.go:96-127 | a part is admitted exactly when the writer is open, without error and initiated |
| `StreamWriter.Writer.SetError` | pkg/client/stream.go:286-292 | keeps the first error |
| `StreamWriter.Writer.RecordPart` | pkg/client/stream.go:169-171 | records the tag of one part |
| `StreamWriter.Writer.SealComplete` | pkg/client/stream.go:181-197 | at most one Complete gets past the seal |
| `StreamWriter.Writer.FinishComplete` | pkg/client/stream.go:230-257 | marks completed exactly when a list is sent |
| `StreamWriter.Writer.SealAbort` | pkg/client/stream.go:262-271 | seals unless already aborted |
| `FileTables.StepFollows` | pkg/datastore/file_tx.go:11-345 | every transaction does to the split tables and to the legacy table what it does to one simple table of files |
| `FileTables.UpdateFollows` | pkg/datastore/file_tx.go:47-147 | a content update, conditional or not, does |
| `FileTables.InsertFollows` | pkg/datastore/file_tx.go:11-32 | an insert does |
| `FileTables.ConfirmFollows` | pkg/datastore/file_tx.go:204-318 | a confirm does, for files inserted at revision 1 |
| `FileTables.DeleteFollows` | pkg/datastore/file_tx.go:323-345 | a delete-pending does |
| `FileTables.RunsAgree` | pkg/datastore/file_tx.go:11-345 | over every run with inserts at revision 1, legacy and split rows agree on every modelled column |
| `FileTables.ConfirmAgreesExactly` | pkg/datastore/file_tx.go:204-258 | confirming keeps the agreement if and only if the pending file is at revision 1 |
| `FileTables.ModesAgreeExactly` | pkg/datastore/file_tx.go:47-125 | with and without the legacy table an update does the same, if and only if it is conditional or the file is missing or confirmed |
| `FileTables.RevisionCountsCommits` | pkg/datastore/file_tx.go:47-147 | a file's revision is its first one plus the number of updates committed to it |
| `FileTables.RowColumns` | pkg/datastore/file_tx.go:11-32 | the stored row column by column: an empty content type or checksum is NULL, a reference is stored with its hash, an empty one without |
| `FileTables.UpdateAnswers` | pkg/datastore/file_tx.go:47-147 | when an update succeeds, with the revision it answers, and that it is otherwise a conflict if conditional and not found if not |
| `FileTables.OtherAnswers` | pkg/datastore/file_tx.go:11-345 | what insert, confirm and delete answer, on the rows they find |
| `FileTables.HashesMatch` | pkg/datastore/file_tx.go:11-345 | every stored reference hash belongs to the reference beside it |
| `FileTables.Store.constructor` | pkg/datastore/file_tx.go:11-32 | empty tables agree |
| `FileTables.Store.InsertFile` | pkg/datastore/file_tx.go:11-32 | legacy row first, then the split rows, or nothing |
| `FileTables.Store.UpdateFileContent` | pkg/datastore/file_tx.go:47-147 | guarded legacy update, then the split rows at the revision it got; every error leaves the tables as they were |
| `FileTables.Store.ConfirmPendingFile` | pkg/datastore/file_tx.go:204-318 | confirms exactly a pending file |
| `FileTables.Store.DeletePendingFile` | pkg/datastore/file_tx.go:323-345 | marks exactly a pending file deleted and clears its reference |
| `RevisionCas.ConditionalCommit` | pkg/backend/dat9.go:443-491 | a writer that expects r > 0 commits only over revision r of a confirmed file, and leaves its own row at r + 1 |
| `RevisionCas.CreateCommit` | pkg/backend/dat9.go:451-470 | a create-if-absent commits only on an absent path, and leaves a confirmed file at revision 1 |
| `RevisionCas.RefusedChangesNothing` | pkg/backend/upload.go:940-1098 | a write or finalize that does not commit changes nothing |
| `RevisionCas.WriteCommitsExactly` | pkg/backend/dat9.go:451-491 | when a direct write commits, and when it is refused as a revision conflict, a path conflict or not found, on what it saw, what it expects and what it finds |
| `RevisionCas.WriteStores` | pkg/backend/dat9.go:443-708 | every committed write stores its body in the row of the file it names, at the answered revision, which follows the old one or is 1 for a new file; an overwrite leaves the tree alone, a creation adds its one node |
| `RevisionCas.FinalizeCommitsExactly` | pkg/backend/upload.go:940-1081 | when a finalize commits, on the path as it is, the upload's pending file and the expectation |
| `RevisionCas.FinalizeRefusesExactly` | pkg/backend/upload.go:940-1081 | when a finalize is refused as a revision conflict or a path conflict |
| `RevisionCas.FinalizeStores` | pkg/backend/upload.go:940-1081 | a committed finalize over a file stores its body there at the next revision and retires its own pending file, deleted and without reference; otherwise that file is confirmed at revision 1 and gets the path |
| `RevisionCas.CommitSparesOthers` | pkg/backend/upload.go:940-1081 | no row of any other file changes |
| `RevisionCas.InitiateStores` | pkg/backend/upload.go:319-326 | initiating an upload gives a new id a pending row at revision 1 and no path |
| `RevisionCas.RunKeepsPending` | pkg/backend/upload.go:319-326 | over every run, pending files stand at revision 1 |
| `RevisionCas.UnlinkExact` | pkg/datastore/store.go:1544-1605 | unlinking takes away the one path, and marks deleted exactly a file that no other path names; if that file's row is missing, nothing is kept |
| `RevisionCas.AttachExact` | pkg/datastore/store.go:1075-1114 | a node gets only a free path, a file only while it is confirmed, and no row changes |
| `RevisionCas.RunKeepsPaths` | pkg/datastore/store.go:1075-1114 | over every run of writes, finalizes, unlinks and attaches, every path of a file names a confirmed row |
| `RevisionCas.OrphanExact` | pkg/datastore/file_tx.go:47-125 | a step leaves a confirmed row without a path exactly if it is an unconditional write, with the legacy table, over a row that is not confirmed |
| `RevisionCas.ConfirmedIffReachable` | pkg/datastore/store.go:1544-1605 | without the legacy table, over every run, a file is confirmed exactly while some path names it |
| `RevisionCas.AtMostOneCommit` | pkg/datastore/file_tx.go:83-104 | over every run, at most one writer commits per file and expected revision |
| `RevisionCas.NoLostUpdate` | pkg/backend/dat9.go:596-708 | if a writer that expects the revision read at some time commits later, the row it replaces is exactly the row read |
| `RevisionCas.AtMostOneWins` | pkg/backend/upload.go:952-1081 | while the path is not unlinked, at most one create-if-absent wins it, and none if it was present |
| `RevisionCas.Backend.constructor` | pkg/backend/dat9.go:443-491 | an empty tree |
| `RevisionCas.Backend.CreateAndWrite` | pkg/backend/dat9.go:504-595 | file row at revision 1 and node, or neither |
| `RevisionCas.Backend.Overwrite` | pkg/backend/dat9.go:596-708 | a guarded update of the file seen earlier |
| `RevisionCas.Backend.Write` | pkg/backend/dat9.go:443-491 | all branches on what was seen, the expected revision and the flags |
| `RevisionCas.Backend.FinalizeOverwrite` | pkg/backend/upload.go:952-1043 | update of the file at the path and retirement of the pending file, or neither |
| `RevisionCas.Backend.Finalize` | pkg/backend/upload.go:940-1098 | finalizing decides on the path as it is at commit time |
| `TextOps.SplitJoin` | obsidian-plugin/src/diff3.ts:219-226 | splitting undoes joining for pieces without the separator |
| `TextOps.SplitConcat` | obsidian-plugin/src/diff3.ts:219-226 | a text cut at a separator splits into the pieces of its two halves |
| `TextOps.TrimExact` | pkg/backend/image_extract_structured.go:203-203 | trimming takes white space off both ends, all of it and nothing else |
| `TextOps.FieldsJoin` | pkg/backend/image_extract_structured.go:203-203 | the fields of words joined by white space are those words |
| `TextOps.FieldsConcat` | pkg/backend/image_extract_structured.go:203-203 | white space always separates fields |
| `TextOps.TrimKeepsFields` | pkg/backend/image_extract_structured.go:203-203 | trimming keeps the fields |

## Left out

- HTTP, presigned addresses, SQL text, S3 calls, logging, metrics and configuration: they are I/O; S3 is a map of parts and the database a set of maps.
- The Obsidian sync engine, resolver, watcher and user interface: they depend on events and timers of the host.
- Parallel transfer workers in `pkg/client/transfer.go`: their outcomes depend on scheduling and cancellation.
- Vault, tokens, embeddings, search ranking, image and audio models: thin wrappers, floating point or external services.
- 64-bit overflow, including that of the doubling retry delay and the size checks of append.
- `simpleDiff` of the plugin: a truncated preview of the changed lines, shown to the user.
- `ConfirmUploadV2WithTags` and `ensureUploadPresignable`: the first compares tags given by the client, the second is a status test.
- The small-file rewrite of an append and the offset splice of a direct write: plain concatenations.
- `ParseCreateTableStatement` before the opening parenthesis: a search for the keywords and the table name, which the body does not depend on.
- The parsing of model output as JSON and the field and tag cleaning before the token budget.
- Label and subject projections that `VerifyJournal` also compares, journal search and the closing of a journal.
- `AbortActiveUploadReservations`: the expiry sweep without a clock.
- The historical `file_delete` mutation in order independence: what it charges depends on whether the row exists.
- File meta when an inline apply overtakes an older pending entry: the barrier covers one batch only.
- The description, embedding and encryption columns of the file rows: the two write paths treat an empty description differently.
- Mutual exclusion of Complete and Abort: the code does not provide it.
- The number of parts uploaded at once by the streaming writer.
- Rename, hard links and directory creation as such: they appear in `RevisionCas` as a step that attaches a node to an absent path, and a rename as that step followed by an unlink.
- The removal of a whole directory, and of tags and collector tasks with an unlinked file.
- Text that is not valid UTF-8: a string is its runes.
- GcLease.Queue.Claim: takes the row its query selected as an argument, so any choice among claimable rows is covered but the order by availability is not stated.
- GcLease.Queue.Enqueue: inserts queued rows only, as the one constructor of such rows builds them.
- JournalStore.Store.AppendJournalEntries: takes ids and entries as already normalised; the refusals of malformed ids, labels and fields come before and do not touch the journal.
- JournalStore.Store.VerifyJournal: gives the hash-chain verdict only; the comparison of stored labels and subjects is a separate flag.
- PatchUpload.ConfirmSizes: does not model the test for an empty part tag, because parts are their bytes.
- QuotaStore.Store.CollectFile: runs guard, read and delete with nothing in between; the interleaved forms are `QuotaSaga.StaleGcExact` and `QuotaSaga.CollectorGuardExact`.
- QuotaStore.Store.IncrMutationRetry: compares the retry count as it was before the statement.
- StreamWriter.BuildParts: does not model the order in which the map is visited, which does not matter to the result.
