# Illumia in Dafny

Illumia keeps photographs in a plain main library and in an encrypted vault. This project models the
parts of it whose correctness spans many functions, and proves what they promise.

1. **Vault transfer** (`TransferModel`, `TransferInvariant`, `TransferSteps`, `TransferSafety`, `TransferRows`,
   `TransferContents`, `TransferDelivery`, `TransferLimits`, `TransferService`). Import, export, direct ingest and reconciliation are a machine of
   atomic steps over two databases and a file system: a SQL transaction, a rename or an unlink is one
   step, a file is absent, partial or complete, and a crash keeps the disk and drops the program counters.
   The purge service and uploads to the main library are further actors whose steps fall anywhere.
   `NoLoss` is safety over whole runs; `RunRows` keeps the tables in order over them, and `CommitImportBrings` and
   `CommitExportBrings` say what a commit carries over, field by field and file by file; `TransferService.Store` writes unlock and reconciliation as programs
   whose history is such a run, and `Recover` says from which crash points they converge: an equivalence.
2. **Asset lifecycle in one database** (`LibraryTables`, `LibraryService`). Active, duplicate, trashed and
   purging rows, duplicate stars, stack structure, purge and the visibility cache. All invariants are one
   inductive predicate, `Library.Valid`, which every operation keeps, so it holds over every run.
3. **Encrypted blobs and the recovery key** (`BigEndian`, `VaultBlob`, `RecoveryKey`). The chunked writer and
   streaming reader under an ideal cipher, and Base32 with its unmasked 32-bit accumulator.
4. **Open-set clustering** (`Clustering`, `Seeding`, `FullClustering`, `Centroids`, `ClusterContract`,
   `ClusterService`, `ClusterAssign`, `FaceReview`). The sidecar's algorithm and its cost, the client's
   independent check of the response, and the face tables that store the result.
5. **Job queue and justified layout** (`JobQueue`, `JustifiedLayout`).

Where the source changes state the model is a class or a method with a loop; specification functions say
what it computes and lemmas say what that means. `Basics` holds shared types.

## What the proofs found

- Convergence has an exact condition: every asset of a committed export on record must still be a visible row
  of the main library. Validation (`vault.rs:2309`) asks for it, and so does the roll-back loop once the
  destination record is gone (`vault.rs:2418`); a visible row always has its complete original
  (`TransferDelivery.RunDelivers`). A trashed asset keeps its purge date through the export, so the hourly purge may
  mark it between a crash and the next unlock (`TransferLimits.ScheduledPurgeBlocksExport`), and from then on the
  transfer can never be closed (`TransferLimits.BlockedForEver`). `Store.Recover` states the equivalence and
  `Store.RecoverKept` the case in which no purge can interfere.
- A started export checks for pending exports only (`vault.rs:879`), and reconciliation takes a source record
  without a destination record for an abandoned transfer. One transfer or reconciliation at a time is thus
  a precondition of every transfer claim here, as the enabling conditions of `BeginImport` and `BeginExport` state it.
- After a crash while an export writes a file, the roll-back leaves a half-written original behind, because
  it removes an original only if it validates (`vault.rs:2433`). `RollBackFiles` states this and no more.
- `create_new` refuses an existing plain file, and the error path then unlinks that file (`RefusedFileIsLost`).
  Nothing else that was not there before survives a failed export (`FailedExportLeavesNothing`).
- While a transfer leases the canonical row of a hash, ingest of the same content finds no canonical row and
  the partial unique index rejects the insert (`Library.Ingest`).
- Without transfers and legacy data `restore_blocked_legacy_tombstone` never fires (`Library.NeverBlocked`). A lease
  looks like a blocked tombstone to it, though: a leased row that a leased duplicate links to may come back into
  sight as trashed while its files are being deleted (`LeaseCanBeUndone`).
- The unique index can never refuse the rows of an import or an export (`CommitsAccepted`): transfers exclude each
  other, so no lookup of a commit has a leased row to skip.
- One purge run is not a fixpoint, two are (`OneRunIsNotEnough`, `ThirdRunDeletesNothing`).
- Similarities are rounded to seven digits after the thresholds are applied, so a reported similarity of an
  assigned id can lie below the low threshold (`RoundingCrossesThreshold`). The plain bound holds for all inputs
  exactly when rounding does not lower the threshold (`ThresholdsHoldIff`), as with at most seven decimals.
- An unclamped filled row does not always end at the container's edge: a last tile cut to 0 pushes it beyond
  (`LastTileCut`); `FillsExactly` gives the exact condition.
- The admission count for ML jobs uses LIKE, which ignores the case of ASCII letters, while the guard uses
  `starts_with` (`LikeCountsMore`): it can only refuse more.
- Pruning compares an RFC 3339 text with the text of `datetime`, so only the dates decide (`ExpiresByDate`) and a
  finished job can stay almost a day longer than the retention says (`ExpiryCanBeLate`); it never does so
  exactly when the cut-off is at midnight (`RetentionMetIff`).

## Assumptions

- Ids (UUIDs) are fresh inputs, clocks are integer inputs, and a content stands for its own hash.
- The cipher is ideal: a box opens under a file key only if that key sealed it. Key wrapping binds a blob to
  one asset and one kind, so both belong to its name.
- Vectors and pixel arithmetic are over `real`: floating-point error is not modelled. Normalisation is any
  partial function; results that need more ask for exact unit vectors.
- SQL transactions are atomic and foreign keys, cascades and unique indexes act as the migrations declare; a
  transaction that an index refuses changes nothing, so it is no step of a run.

## Model

| member | source | states |
|---|---|---|
| `TransferSafety.NoLoss` | crates/illumia-core/src/vault.rs:830-963 | Over every legal run from rest, with a crash allowed after each step and the purge service and uploads interleaved anywhere, every followed asset has a complete reachable copy after every prefix of the run; a staged blob counts while its destination record exists |
| `TransferSafety.RunKeeps` | crates/illumia-core/src/vault.rs:944-1042 | The protocol invariant holds at the end of every legal run, for some flight that the two journals describe |
| `TransferSteps.StepKeeps` | crates/illumia-core/src/vault.rs:830-1108 | Every single step of import, export, direct ingest, reconciliation, purge, upload and crash keeps the protocol invariant and every followed asset |
| `TransferInvariant.InvGivesCopies` | crates/illumia-core/src/vault.rs:1095-1108 | In every state that satisfies the invariant each followed asset has a visible row with a matching original in main or a readable blob in the vault |
| `TransferSafety.SweepSparesCommittedBlobs` | crates/illumia-core/src/vault.rs:558-582 | In no reachable state may a roll-back, an orphan clean-up at unlock or the end of a transfer remove a staged file that a committed blob row names |
| `TransferSteps.InsertRowsSpec` | crates/illumia-core/src/vault.rs:1587-1652 | A chain of inserts, each with its own duplicate lookup over the rows before it, adds exactly the moved assets, keeps hashes and visibility, touches no other row, and gives no row a purge date it did not have |
| `TransferRows.InsertRowsLinks` | crates/illumia-core/src/vault.rs:1587-1652 | Row by row, what a chain of inserts with legal lookups writes: the link is what the lookup found and names an active row of the same hash without a link; a moved active or duplicate row is duplicate exactly when it has a link and active otherwise; other lifecycles stay; and a duplicate without a primary loses its date |
| `TransferRows.InsertRowsKeep` | crates/illumia-core/src/vault.rs:1587-1652 | With no pending source transfer in the way of a lookup, the chain leaves at most one canonical row a hash and no link that dangles or leads to a link |
| `TransferRows.RunRows` | crates/illumia-core/src/vault.rs:830-1108 | Over every legal run, transfers, purges, uploads and crashes mixed: on both sides at most one canonical row a hash, every link names a linkless row of the same hash, every page names a row, and nothing names the row a purge deletes |
| `TransferRows.CommitsAccepted` | crates/illumia-core/migrations/0001_init.sql:24-25 | In a reachable state the unique index cannot refuse the rows of an import or an export |
| `TransferRows.LeaseTakes` | crates/illumia-core/src/vault.rs:1095-1108 | The lease takes exactly the rows of the transfer out of sight |
| `TransferRows.LeaseCanBeUndone` | crates/illumia-core/src/purge.rs:183-221 | A leased row that another row links to is taken for a blocked tombstone: the repair puts it back in sight as trashed |
| `TransferRows.MarkDueRow` | crates/illumia-core/src/purge.rs:96-118 | Which rows a purge marks, from their lifecycle, date, pages and incoming links |
| `TransferRows.RestoredByTrace` | crates/illumia-core/src/purge.rs:183-221 | A repaired tombstone returns to the lifecycle its other fields tell of |
| `TransferRows.DirectArrives` | crates/illumia-core/src/vault.rs:283-345 | A direct ingest adds one row: a duplicate with a date exactly when its lookup found a canonical row |
| `TransferRows.IngestedArrives` | crates/illumia-core/src/assets.rs:112-140 | An upload during a transfer likewise |
| `TransferRows.PurgeTakes` | crates/illumia-core/src/purge.rs:120-178 | A purge unlinks the files of its row and then deletes that row alone |
| `TransferContents.StepCarries` | crates/illumia-core/src/vault.rs:1298-1360 | Every step keeps this: a transfer in the making holds each row as its source has it but for the lifecycle, has a source for each file, and what it has sealed or written so far is what that source holds |
| `TransferContents.RunCarries` | crates/illumia-core/src/vault.rs:830-963 | So this holds after every legal run |
| `TransferContents.CommitImportBrings` | crates/illumia-core/src/vault.rs:1358-1439 | The commit of an import brings every row, by what its lookup found, and for every whole file of its assets, thumbnails included, a blob with that content |
| `TransferContents.CommitExportBrings` | crates/illumia-core/src/vault.rs:1500-1585 | The commit of an export brings every row as the vault has it and every blob as a plain file with its content |
| `TransferContents.FailedExportLeavesNothing` | crates/illumia-core/src/vault.rs:1500-1585 | An export that fails before its commit leaves no file of its assets that was not there when it began, whatever purges and uploads do meanwhile |
| `TransferContents.RefusedFileIsLost` | crates/illumia-core/src/vault.rs:2241-2270 | The file an export refused to overwrite is gone although the export never wrote it |
| `TransferSteps.CommitImportKeeps` | crates/illumia-core/src/vault.rs:1358-1439 | The vault transaction of an import publishes only whole staged blobs, and the moved assets are safe whichever side is lost next |
| `TransferSteps.CommitExportKeeps` | crates/illumia-core/src/vault.rs:1500-1585 | The main transaction of an export commits only when every original is whole on disk |
| `TransferSteps.CommitDirectKeeps` | crates/illumia-core/src/vault.rs:250-373 | The commit of a direct ingest keeps the invariant: row, blob row and journal record appear together |
| `TransferSteps.PurgeKeeps` | crates/illumia-core/src/purge.rs:96-221 | No purge step, scheduled or resumed, takes a row or file that a followed asset relies on, even while a transfer leases or deletes the same rows |
| `TransferSteps.SweptFileIsUnpublished` | crates/illumia-core/src/vault.rs:2353-2375 | What a sweep may remove is named by no blob row |
| `TransferService.EnvRun` | crates/illumia-core/src/purge.rs:43-68 | Any run of the purge service and of uploads changes only main rows and plain files, and adds only for assets that no transfer names |
| `TransferService.Store.FinalizeImportFiles` | crates/illumia-core/src/vault.rs:2331-2351 | Restartable from every prefix of its renames: afterwards every blob of the transfer is in place, the staging directory is gone and no row has changed |
| `TransferService.Store.CompleteImport` | crates/illumia-core/src/vault.rs:965-1002 | From every recorded state an import or a direct ingest runs to the end: journals empty, vault tables untouched, no plain source file left |
| `TransferService.Store.AbortImport` | crates/illumia-core/src/vault.rs:944-963 | The branch for a missing destination record removes exactly that staging directory and that source record |
| `TransferService.Store.CompleteExport` | crates/illumia-core/src/vault.rs:1005-1042 | From every recorded state a committed export runs to the end, or fails at validation with everything still on record and one of its rows marked or taken by a purge; on success exactly the exported rows have left the vault and what is still visible in main is whole |
| `TransferService.Store.RollBackFiles` | crates/illumia-core/src/vault.rs:2418-2450 | After a roll-back no thumbnail and no whole original of an uncommitted export remains, while a half-written original may |
| `TransferService.Store.RollBackExport` | crates/illumia-core/src/vault.rs:944-963 | Without a destination record the export ends with empty journals and the vault unchanged, and fails only where it had committed and a purge has marked or taken one of its rows since |
| `TransferService.Store.ReconcileDirectIngests` | crates/illumia-core/src/vault.rs:541-557 | Every recorded direct ingest is completed and nothing else moves |
| `TransferService.Store.CleanUpOrphanStaging` | crates/illumia-core/src/vault.rs:558-582 | Exactly the staging directories that the vault journal names survive |
| `TransferService.Store.ReconcileImport` | crates/illumia-core/src/vault.rs:944-955 | One pending import is completed or aborted by its destination record, right both before that commit and after its clean-up |
| `TransferService.Store.ReconcileExport` | crates/illumia-core/src/vault.rs:956-963 | One pending export is completed or rolled back by its destination record, right both before that commit and after its clean-up; a failure changes no record and comes from a lost row only |
| `TransferService.Store.Recover` | crates/illumia-core/src/vault.rs:203-213 | Unlock plus reconciliation from every crash point, under every interference: success means empty journals and staging and each transfer settled on its side, and needs all rows of committed exports visible at the start; if no purge takes such a row in between, the end is clean and settled if and only if they all are |
| `TransferService.Store.RecoverKept` | crates/illumia-core/src/vault.rs:203-213 | Corollary: with no purge date on any asset of a committed export on record, recovery always ends clean and settled, whatever purges and uploads interfere |
| `TransferService.SettledExports` | crates/illumia-core/src/vault.rs:2309-2321 | With no purge in between, each asset of a committed export ends in main alone, visible, whole and with its former content |
| `TransferService.ClosedWasVisible` | crates/illumia-core/src/vault.rs:2309-2321 | If any continuation of a run ever empties the vault journal, every exported row was visible where the continuation began |
| `TransferDelivery.StepDelivers` | crates/illumia-core/src/vault.rs:905-939 | Every step keeps this: an exported row that is visible has its complete original, and one that is not is gone or marked with nothing left to restore it |
| `TransferDelivery.RunDelivers` | crates/illumia-core/src/vault.rs:905-939 | So this holds in every state that a run from rest reaches |
| `TransferDelivery.PurgeDelivers` | crates/illumia-core/src/purge.rs:120-221 | A purge removes files of marked rows only, and nothing unmarks an exported row |
| `TransferDelivery.ValidIffVisible` | crates/illumia-core/src/vault.rs:2309-2321 | The validation of a committed export succeeds exactly when every exported row is visible |
| `TransferDelivery.RolledBackIffVisible` | crates/illumia-core/src/vault.rs:2418-2450 | With the destination record cleaned up, the roll-back loop succeeds under the very same condition |
| `TransferService.RecoverySettles` | crates/illumia-core/src/vault.rs:944-963 | Why the end state is the right one: each transfer on record before is settled after, and no unrelated vault row comes, goes or changes |
| `TransferService.FlightOf` | crates/illumia-core/src/vault.rs:1133-1195 | The two journals of a reachable state describe one transfer only |
| `TransferLimits.ExportNeverCloses` | crates/illumia-core/src/vault.rs:2309-2321 | Once a purge has marked or taken an asset of a committed export, no run of any length closes that transfer |
| `TransferLimits.BlockedForEver` | crates/illumia-core/src/vault.rs:944-963 | From every reachable idle state with an exported row that is not visible, whatever runs leaves the transfer on record |
| `TransferLimits.ScheduledPurgeBlocksExport` | crates/illumia-core/src/vault.rs:905-939 | Such a state is reached from rest by exporting a due trashed asset, crashing after the commit and letting the purge mark it: the witness against unconditional convergence |
| `LibraryService.Library.Ingest` | crates/illumia-core/src/assets.rs:96-200 | A duplicate hangs on an existing unleased canonical row of its hash, a first copy becomes canonical, and a canonical row under lease makes the unique index reject the insert |
| `LibraryService.Library.Trash` | crates/illumia-core/src/assets.rs:211-232 | Any row but a purging one can be trashed, it leaves the timeline, its star is kept, and every table invariant holds |
| `LibraryService.Library.ReclaimStar` | crates/illumia-core/src/assets.rs:250-285 | The whole star of the hash moves to the restored row, leaving no other canonical row |
| `LibraryService.Library.Restore` | crates/illumia-core/src/assets.rs:238-309 | A trashed duplicate returns as a duplicate with a new date, a trashed canonical row takes its star back; exact new table in both cases |
| `LibraryTables.TakeOverKeeps` | crates/illumia-core/src/assets.rs:250-285 | Re-pointing keeps one-level stars, one canonical row a hash, purge safety and the visibility cache together |
| `LibraryTables.TakeOverReclaims` | crates/illumia-core/src/assets.rs:250-285 | The two UPDATEs of the take-over equal the declarative re-hanging of the star |
| `LibraryTables.AddedRowKeeps` | crates/illumia-core/src/assets.rs:115-185 | A new row of either kind keeps all table invariants |
| `LibraryTables.ChangedRowKeeps` | crates/illumia-core/src/assets.rs:211-309 | A change of lifecycle keeps all table invariants when no second canonical row arises and the cache is recomputed |
| `LibraryService.Library.NeverBlocked` | crates/illumia-core/src/purge.rs:183-221 | In every reachable state a purging row has neither a page nor an incoming link, so the legacy restore path never fires |
| `LibraryService.Library.FinishPurging` | crates/illumia-core/src/purge.rs:120-178 | A marked row is really deleted, exactly that row, and no reference dangles |
| `LibraryService.Library.ResumePurging` | crates/illumia-core/src/purge.rs:54-68 | After a crash every marked row and no other goes |
| `LibraryService.Library.MarkDue` | crates/illumia-core/src/purge.rs:96-118 | Exactly the rows become purging that are duplicate or trashed, past their date, on no page and named by no link; no other field changes |
| `LibraryService.Library.RunDue` | crates/illumia-core/src/purge.rs:43-52 | Exactly the tombstones go, and the duplicate or trashed rows past their date that are on no page and that no remaining row links to; the rest stays as it is, and the count is of the latter |
| `LibraryTables.DueRow` | crates/illumia-core/src/purge.rs:19-26 | A row is due exactly when it is duplicate or trashed, past its date, on no page and named by no link |
| `LibraryTables.RunTakesRow` | crates/illumia-core/src/purge.rs:43-52 | A run takes a row exactly when it was a tombstone, or is due once the links from tombstones are gone |
| `LibraryTables.RunCounts` | crates/illumia-core/src/purge.rs:43-52 | A run counts the rows it took beyond the tombstones |
| `LibraryService.Library.PurgeNow` | crates/illumia-core/src/purge.rs:71-94 | Deletes the row, or reports that it cannot, exactly by lifecycle, page and incoming link |
| `LibraryTables.RunKeeps` | crates/illumia-core/src/purge.rs:43-52 | A purge run keeps all invariants, changes no surviving row and leaves none half purged: a canonical row outlives its duplicates |
| `LibraryTables.SecondRunTakesCanonicals` | crates/illumia-core/src/purge.rs:19-26 | A second run can only take canonical rows whose last duplicate went in the first |
| `LibraryTables.ThirdRunDeletesNothing` | crates/illumia-core/src/purge.rs:43-52 | After two runs at one time a third changes nothing |
| `LibraryTables.OneRunIsNotEnough` | crates/illumia-core/src/purge.rs:43-52 | A concrete table on which one run is not the fixpoint |
| `LibraryTables.MarkingKeeps` | crates/illumia-core/src/purge.rs:96-118 | Marking unreferenced rows keeps every table invariant |
| `LibraryTables.RecomputeRestoresCache` | crates/illumia-core/src/stacks.rs:666-684 | The visibility cache is right again whenever the recomputed set covers every asset whose row or pages changed |
| `LibraryTables.EditKeepsAssets` | crates/illumia-core/src/stacks.rs:654-684 | The sets that a stack edit promotes and recomputes are large enough to keep stars, uniqueness, purge safety and the cache |
| `LibraryService.Library.RecomputeVisibility` | crates/illumia-core/src/stacks.rs:666-684 | Afterwards the cache of exactly the given assets says whether they are active, in the timeline and hidden by no page |
| `LibraryService.Library.PromoteDuplicates` | crates/illumia-core/src/stacks.rs:654-664 | Duplicates among the given assets become active and lose their purge date, keeping their link |
| `LibraryService.Library.ValidateAssets` | crates/illumia-core/src/stacks.rs:610-626 | Accepts exactly lists of existing assets that are not being purged |
| `LibraryService.Library.InsertPages` | crates/illumia-core/src/stacks.rs:628-652 | Appends the pages in order with consecutive numbers, meeting both uniqueness constraints |
| `LibraryService.Library.Create` | crates/illumia-core/src/stacks.rs:75-109 | Succeeds exactly for a bounded list of distinct usable assets; the new stack reads as that list with the first page as cover |
| `LibraryService.Library.DeleteStack` | crates/illumia-core/src/stacks.rs:236-247 | The stack, its chapters and its pages go, nothing else does, and freed assets become visible again |
| `LibraryService.Library.SetCover` | crates/illumia-core/src/stacks.rs:199-234 | Only a page of the stack can be the cover; all three outcomes |
| `LibraryService.Library.SetPageFlag` | crates/illumia-core/src/stacks.rs:437-460 | One flag changes and the cache of that asset follows; all three outcomes |
| `LibraryService.Library.NextPage` | crates/illumia-core/src/stacks.rs:314-403 | One more than the largest page number is one more than the length of the chapter |
| `LibraryService.Library.TargetChapter` | crates/illumia-core/src/stacks.rs:314-403 | The named chapter if it is of this stack, else the last one |
| `LibraryService.Library.AddPages` | crates/illumia-core/src/stacks.rs:314-403 | Exact condition for success and for each error, and on success the chapter reads as before with the new pages at its end |
| `LibraryService.Library.RenumberChapter` | crates/illumia-core/src/stacks.rs:743-767 | Numbers the remaining pages 1.. in their old order, row by row, without ever violating the uniqueness of page numbers |
| `LibraryTables.UniqueAfterUpdate` | crates/illumia-core/migrations/0001_init.sql:48-56 | No other page of the chapter holds the number that the next UPDATE writes |
| `LibraryTables.ListingUnique` | crates/illumia-core/src/stacks.rs:743-767 | The ordered query has one answer, so the order a reader sees is determined |
| `LibraryTables.WithoutKeepsOrder` | crates/illumia-core/src/stacks.rs:405-435 | Deleting one page leaves the rest in the same order |
| `LibraryService.Library.RemovePage` | crates/illumia-core/src/stacks.rs:405-435 | The chapter reads as before without the page, a removed cover gives way to the first page in reading order, and the cache follows |
| `LibraryService.Library.FirstPage` | crates/illumia-core/src/stacks.rs:405-435 | The query for the smallest chapter and page number finds the first page in reading order, or none exactly when the stack is empty |
| `LibraryTables.EarliestIsFirst` | crates/illumia-core/src/stacks.rs:405-435 | A page that none precedes by (chapter, page) number is the first of the structure |
| `LibraryService.Library.ReplaceStructure` | crates/illumia-core/src/stacks.rs:249-312 | Exact acceptance condition; on success the stack reads as the given chapters, old flags are kept, the cover stays or becomes the first page, and every dropped or added asset is recomputed |
| `LibraryTables.EachAssetOnce` | crates/illumia-core/migrations/0001_init.sql:48-56 | In a numbered structure one asset occurs at one place of a stack only |
| `LibraryTables.InsertKeepsNumbers` | crates/illumia-core/src/stacks.rs:628-652 | Appended pages keep every chapter numbered 1.. |
| `LibraryTables.DropKeepsPages` | crates/illumia-core/src/stacks.rs:249-312 | The cascade from chapters to pages keeps all other chapters numbered |
| `VaultBlob.Encrypt` | crates/illumia-core/src/vault.rs:2802-2861 | Succeeds exactly when the stream has the announced length within 128 MiB; every chunk is sealed once in order, the output is the framed blob, its length is 25 + len + 21 a chunk and inside the range the reader accepts |
| `VaultBlob.ChunkCount` | crates/illumia-core/src/vault.rs:2802-2815 | The smallest positive number of chunks that holds the bytes |
| `VaultBlob.RecordsLength` | crates/illumia-core/src/vault.rs:2802-2861 | The framing adds 21 bytes a chunk, at every prefix of the blob |
| `VaultBlob.AadInjective` | crates/illumia-core/src/vault.rs:2964-2975 | The additional data of two chunks of a blob agree only if header, index and finality agree |
| `VaultBlob.NonceFresh` | crates/illumia-core/src/vault.rs:2953-2962 | Chunks of one write never share a nonce |
| `VaultBlob.OpenedChunk` | crates/illumia-core/src/vault.rs:596-655 | Whatever opens under the file key at some index is that chunk of this write, with its header and finality |
| `VaultBlob.WrittenPasses` | crates/illumia-core/src/vault.rs:378-441 | Every written blob passes the reader's checks of length, magic and chunk size |
| `VaultBlob.VaultBlobReader.ReadRecord` | crates/illumia-core/src/vault.rs:596-630 | The bytes taken are the record returned, and an intact file yields its next record |
| `VaultBlob.VaultBlobReader.ReadChunk` | crates/illumia-core/src/vault.rs:596-655 | A chunk read without error is the next chunk of the written plaintext, and an intact file never errs |
| `VaultBlob.VaultBlobReader.Next` | crates/illumia-core/src/vault.rs:657-670 | Nothing follows an error or the last chunk, and every yielded chunk extends what was yielded |
| `VaultBlob.VaultBlobReader.ReadAll` | crates/illumia-core/src/vault.rs:446-455 | The output is a prefix of the plaintext, the whole of it when there is no error, and there is none exactly for the file that was written: truncation, reordering, splicing and appending all end in an error |
| `VaultBlob.Decrypt` | crates/illumia-core/src/vault.rs:378-455 | A file decrypts exactly when it is byte for byte the written blob, and then to the written bytes |
| `RecoveryKey.Encode` | crates/illumia-core/src/vault.rs:3002-3021 | The text spells the 256 bits of the key, despite the accumulator that is never masked |
| `RecoveryKey.Decode` | crates/illumia-core/src/vault.rs:3023-3056 | Returns the key that the text without separators, upper-cased, spells, and an error exactly when it spells none |
| `RecoveryKey.EncodeThenDecode` | crates/illumia-core/src/vault.rs:3002-3056 | Decoding the encoding of a key gives the key, for all 32-byte keys |
| `RecoveryKey.DecodeThenEncode` | crates/illumia-core/src/vault.rs:3002-3056 | Encoding what an accepted text decodes to gives that text without separators and in upper case |
| `RecoveryKey.SpellingIsUnique` | crates/illumia-core/src/vault.rs:3002-3056 | Texts and keys determine each other |
| `RecoveryKey.TrailingBits` | crates/illumia-core/src/vault.rs:3023-3056 | The last four bits are zero exactly when the 52 digits spell a key |
| `RecoveryKey.ShiftIn` | crates/illumia-core/src/vault.rs:3002-3056 | The 32-bit accumulator agrees modulo 2^32 with the unbounded number read so far |
| `RecoveryKey.ShiftOut` | crates/illumia-core/src/vault.rs:3002-3056 | The bits that wrapped away are never among those taken out |
| `RecoveryKey.AlphabetBijective` | crates/illumia-core/src/vault.rs:3002-3056 | Digits and letters of section 6 of RFC 4648 correspond one to one |
| `RecoveryKey.AlphabetTable` | crates/illumia-core/src/vault.rs:3002-3021 | The letters are those of the table, in its order |
| `RecoveryKey.SeparatorsIgnored` | crates/illumia-core/src/vault.rs:3023-3056 | White space and hyphens may stand anywhere in a text |
| `RecoveryKey.LowerCaseReads` | crates/illumia-core/src/vault.rs:3023-3056 | A text may be typed in any mix of cases |
| `Clustering.Centroid` | ml/illumia_ml/clustering.py:95-102 | The loop computes the normalised mean of the members |
| `Clustering.AssignmentSound` | ml/illumia_ml/clustering.py:149-164 | An assignment is unassigned exactly without a cluster, and its reported similarity is bounded by the rounded thresholds |
| `Clustering.MakesPlaced` | ml/illumia_ml/clustering.py:149-164 | For every id, cluster and measured similarity: the assignment names the cluster from the low threshold on, is automatic from the high one on, and reports the rounded similarity |
| `Clustering.PlacedIff` | ml/illumia_ml/clustering.py:149-164 | With valid thresholds this leaves no choice: each outcome has exactly its own range of similarities |
| `Clustering.NearestIs` | ml/illumia_ml/clustering.py:149-164 | Rounding goes to the nearest, and of two equally near to the even one |
| `Clustering.ThresholdsHoldIff` | ml/illumia_ml/clustering.py:149-164 | The plain bounds hold for all inputs if and only if rounding does not lower the threshold, for the low one on assigned ids and for the high one on automatic ones |
| `Clustering.SevenDecimals` | ml/illumia_ml/clustering.py:149-164 | Rounding keeps every threshold of at most seven decimals, so the plain bounds hold for those |
| `Clustering.RoundingCrossesThreshold` | ml/illumia_ml/clustering.py:149-164 | A valid pair of thresholds and a similarity that passes the low one, whose assignment reports a similarity below it |
| `Clustering.TmpIdInjective` | ml/illumia_ml/clustering.py:191-192 | Different clusters get different temporary ids |
| `Seeding.SortedPairs` | ml/illumia_ml/clustering.py:180-188 | The list is sorted, holds only true pairs, misses no pair of available items, and costs at most half of n² evaluations |
| `Seeding.NextSeed` | ml/illumia_ml/clustering.py:193-204 | Draining takes the last viable pair of the list; when no rejection names a temporary id it is the argmax over all pairs of available items, and the rest of the list still covers the rest of the items |
| `Seeding.SeedIsArgmax` | ml/illumia_ml/clustering.py:193-204 | The lazily drained sorted list refines the search over all pairs, with the same tie-break |
| `FullClustering.NearestItem` | ml/illumia_ml/clustering.py:210-220 | The allowed item nearest to the centre, ties to the smaller index, or none |
| `FullClustering.Grow` | ml/illumia_ml/clustering.py:205-223 | The members are exactly what greedy growth makes of the seed, nobody left could still join, and the passes are paid for by the items taken |
| `FullClustering.Medoid` | ml/illumia_ml/clustering.py:85-92 | The member with the largest total similarity, ties to the smaller index, at the square of the size |
| `FullClustering.TotalConcat` | ml/illumia_ml/clustering.py:85-92 | The total similarity is additive over the members |
| `Centroids.CenterOfCopies` | ml/illumia_ml/clustering.py:95-102 | The centroid is a mean: of copies of one vector it is that vector, normalised |
| `FullClustering.Clusters` | ml/illumia_ml/clustering.py:190-224 | Each cluster is greedy from the best seed left, clusters are disjoint, nothing left could seed one, and a failure means a zero centroid |
| `Centroids.SumGrows` | ml/illumia_ml/clustering.py:95-102 | With unit rows and a non-negative threshold the squared length of the sum of k members is at least k |
| `Centroids.CentroidNeverZero` | ml/illumia_ml/clustering.py:71-102 | So in exact arithmetic a centroid can always be normalised |
| `ClusterService.BestMedoid` | ml/illumia_ml/clustering.py:236-244 | The largest similarity to a retained medoid, 0 without one |
| `ClusterService.Retain` | ml/illumia_ml/clustering.py:226-234 | Exactly the clusters of the minimum size are listed, in order, and their members are assigned by similarity to the medoid |
| `ClusterService.ByIndex` | ml/illumia_ml/clustering.py:246 | The assignments are listed once each in index order |
| `ClusterService.CostBound` | ml/illumia_ml/clustering.py:178-245 | Seeding, growth, medoids and final assignment together stay within 3n² |
| `ClusterService.ClusterFull` | ml/illumia_ml/clustering.py:167-247 | The response is the answer of the greedy clustering, placed by the thresholds and the similarity to the medoids, with the large clusters listed and no rejection broken; the client accepts it, every unconfirmed id and no other is assigned exactly once, reported similarities keep to thresholds that rounding does not lower, at most 3n² similarities are evaluated for every input, and in exact arithmetic it fails only on an embedding that cannot be normalised |
| `ClusterService.AnswerPlaces` | ml/illumia_ml/clustering.py:226-245 | A member of a listed cluster is assigned to it, as automatic or as candidate, exactly by its similarity to the medoid and the two thresholds; everybody else is unassigned and reports the best similarity to a medoid |
| `ClusterService.AnswerListsLarge` | ml/illumia_ml/clustering.py:226-234 | Exactly the clusters of at least the minimum size are listed, each with its number, its members in order and its medoid |
| `ClusterService.MedoidIsAuto` | ml/illumia_ml/clustering.py:226-234 | In exact arithmetic a medoid is always automatically in its own cluster |
| `ClusterService.KeepsRejections` | ml/illumia_ml/clustering.py:193-223 | No cluster holds an id that was rejected from its temporary id |
| `ClusterService.AnswersUnconfirmed` | ml/illumia_ml/clustering.py:178-180 | Exactly the unconfirmed ids are answered |
| `ClusterService.AnswerAcceptable` | crates/illumia-core/src/ml_client.rs:403-478 | Every such answer passes the client's independent check, and an id with a cluster is listed among its members |
| `ClusterAssign.BestCluster` | ml/illumia_ml/clustering.py:262-272 | The nearest stored cluster the row was not rejected from, ties to the larger name in the order of strings |
| `ClusterAssign.BeforeIff` | ml/illumia_ml/clustering.py:262-272 | The order of names: the first difference decides, and a proper prefix comes first |
| `ClusterAssign.ClusterAssign` | ml/illumia_ml/clustering.py:250-274 | One answer for each unconfirmed row in order: its best cluster if the similarity reaches the low threshold, automatic if it reaches the high one, and unassigned otherwise; always accepted by the client; an error exactly when a vector cannot be normalised |
| `ClusterContract.CheckAssignments` | crates/illumia-core/src/ml_client.rs:403-431 | True exactly when each assignment is well formed and no id occurs twice |
| `ClusterContract.CheckClusters` | crates/illumia-core/src/ml_client.rs:432-463 | True exactly when the clusters are well formed, hold their medoids and share neither ids nor members |
| `ClusterContract.ValidateClusterResponse` | crates/illumia-core/src/ml_client.rs:403-478 | The loops with their sets accept exactly the acceptable responses |
| `ClusterContract.Utf8Least` | crates/illumia-core/src/ml_client.rs:371-373 | The length of a text counts for each character the least number of UTF-8 bytes that can carry it |
| `FaceReview.FaceStore.PersistAnalysis` | crates/illumia-core/src/ml.rs:537-583 | Fresh unassigned faces for the instances that pass the gate, none twice for one model version, and nothing at all after an unsupported kind |
| `FaceReview.FaceStore.ApplyOne` | crates/illumia-core/src/ml.rs:648-707 | A decided face stays; any other takes the cluster its assignment names, a temporary id standing for its stored name, with that state and similarity, or none where that is unknown or rejected |
| `FaceReview.FaceStore.ApplyAssignments` | crates/illumia-core/src/ml.rs:648-707 | So for every face that is named once; confirmed and rejected faces never change, no face enters a cluster it was rejected from, unnamed faces stay |
| `FaceReview.FaceStore.ApplyFullClustering` | crates/illumia-core/src/ml.rs:614-646 | The kept clusters are stored under their own names, and an undecided face assigned to the temporary id of one ends in the cluster stored for it, with the state and similarity it was assigned with |
| `FaceReview.MappingNames` | crates/illumia-core/src/ml.rs:614-646 | Each kept temporary id maps to its own stored cluster, and no other id is mapped |
| `FaceReview.JoinsKept` | crates/illumia-core/src/ml.rs:655-694 | An undecided face assigned to a temporary id ends in the cluster stored for that id |
| `FaceReview.AcceptedCanBeApplied` | crates/illumia-core/src/ml_client.rs:403-478 | A response the client accepts meets what applying it asks: states fit clusters, and no assigned or temporary id occurs twice |
| `FaceReview.FaceStore.MergeClusters` | crates/illumia-core/src/ml.rs:369-400 | Faces move, rejections of the target by moved faces go, the source disappears, and no face ends in a cluster it was rejected from |
| `FaceReview.FaceStore.SplitCluster` | crates/illumia-core/src/ml.rs:402-458 | Exact acceptance condition; exactly the named faces become confirmed members of the new cluster |
| `FaceReview.FaceStore.ReviewCandidate` | crates/illumia-core/src/ml.rs:482-522 | Only candidates can be reviewed; acceptance confirms, refusal records the rejection and clears the cluster |
| `JobQueue.PruneBounds` | crates/illumia-core/src/jobs.rs:394-413 | At most 5000 terminal rows survive a pruning, and no active row goes |
| `JobQueue.PruneKeepsNewest` | crates/illumia-core/src/jobs.rs:394-413 | A terminal row that is recent and among the newest 5000 stays |
| `JobQueue.PruneKeepsLater` | crates/illumia-core/src/jobs.rs:394-413 | By rank a pruning takes the earliest: with a row every row that ended later stays, but for its date |
| `JobQueue.NewerThanIff` | crates/illumia-core/src/jobs.rs:394-413 | The rank counts the terminal rows that ended later, by finishing or else creation time, ties to the larger id |
| `JobQueue.Queue.Prune` | crates/illumia-core/src/jobs.rs:394-413 | The DELETE with its comparison by date keeps the admission counts and every run invariant |
| `JobQueue.StoredOrder` | crates/illumia-core/src/jobs.rs:375-392 | Stored timestamps sort as texts the way their instants do |
| `JobQueue.ExpiresByDate` | crates/illumia-core/src/jobs.rs:394-413 | Between a stored timestamp and the text of datetime the lexicographic order is decided by the dates alone |
| `JobQueue.ExpiresWithinADay` | crates/illumia-core/src/jobs.rs:394-413 | A row expires never early and less than a day late |
| `JobQueue.ExpiresOnTimeIff` | crates/illumia-core/src/jobs.rs:394-413 | Every finishing time before the cut-off expires if and only if the cut-off is at midnight |
| `JobQueue.PrunedIff` | crates/illumia-core/src/jobs.rs:394-413 | A terminal row goes exactly by its date or by its rank among the terminal rows |
| `JobQueue.RetentionMetIff` | crates/illumia-core/src/jobs.rs:394-413 | A pruning removes every job that ended before the cut-off, in every table, if and only if the cut-off is at midnight |
| `JobQueue.ExpiryCanBeLate` | crates/illumia-core/src/jobs.rs:394-413 | A table with a done job that ended almost a day before the cut-off and is still there after the pruning |
| `JobQueue.Queue.Insert` | crates/illumia-core/src/jobs.rs:375-392 | A row appears, or a unique index refuses it, exactly by the active rows of the same key |
| `JobQueue.TakenIff` | crates/illumia-core/migrations/0003_job_admission.sql:26-33 | The unique indexes guard one active reclustering, and one active analysis of each kind for an asset, and nothing else |
| `JobQueue.LikeCountsMore` | crates/illumia-core/src/jobs.rs:351-373 | The LIKE pattern, which ignores case, counts at least the jobs whose kind starts with ml_ |
| `JobQueue.LikeMlIff` | crates/illumia-core/src/jobs.rs:351-373 | The LIKE pattern matches exactly the kinds that start with ml_ in any mix of cases |
| `JobQueue.Queue.Enqueue` | crates/illumia-core/src/jobs.rs:88-103 | A full queue is reported exactly when a bound is reached, a violation exactly by a unique index, and otherwise the row appears; active counts stay within 10000 and 5000 and terminal rows within 5000 |
| `JobQueue.Queue.EnqueueUniqueActive` | crates/illumia-core/src/jobs.rs:105-129 | The earliest equivalent active job stands for the new one when there is one, else as enqueue |
| `JobQueue.Queue.FirstActive` | crates/illumia-core/src/jobs.rs:316-349 | The earliest active job of the kind, and of the asset when one is given, or none exactly when there is none |
| `JobQueue.Queue.FirstQueued` | crates/illumia-core/src/jobs.rs:138-170 | The first queued job of an allowed kind by priority, creation time and id, or none exactly when there is none |
| `JobQueue.Queue.Claim` | crates/illumia-core/src/jobs.rs:138-193 | That job starts running; it was never claimed before without a recovery since, and was not cancelled |
| `JobQueue.Queue.Cancel` | crates/illumia-core/src/jobs.rs:203-222 | Succeeds exactly for queued jobs and for running ones not yet asked; exact new table |
| `JobQueue.Queue.Finish` | crates/illumia-core/src/jobs.rs:296-314 | A running job ends in the given state, or cancelled when a cancel was requested, with its finishing time; every other row stays or is pruned |
| `JobQueue.Queue.CancelledStays` | crates/illumia-core/src/jobs.rs:203-314 | Over every run a job whose cancel succeeded is cancelled, or running with the request on record: never queued, done or failed |
| `JobQueue.Queue.Recover` | crates/illumia-core/src/jobs.rs:270-294 | A running job without a cancel request is queued again with its other fields kept, one with a request is cancelled with a finishing time, every other row is unchanged, and only the former may be claimed again |
| `JobQueue.RecoveredRows` | crates/illumia-core/src/jobs.rs:270-294 | The two UPDATEs together: what was asked to stop is cancelled with a finishing time, every other running job is queued again with its other fields kept, the rest stays |
| `JustifiedLayout.PartitionConcat` | crates/illumia-desktop/src/layout.rs:133-164 | The rows concatenate to the input in order and all but the last are filled |
| `JustifiedLayout.PartitionUnique` | crates/illumia-desktop/src/layout.rs:133-164 | Closing each row at the first item that reaches the width determines the rows |
| `JustifiedLayout.UpperClampNeverFires` | crates/illumia-desktop/src/layout.rs:75-92 | A filled row is at most as high as the target, so the upper clamp cannot fire |
| `JustifiedLayout.RowHeights` | crates/illumia-desktop/src/layout.rs:75-97 | A filled row has its natural height, or six tenths of the target if that is more, and the last row the target height, each to the nearest whole number |
| `JustifiedLayout.InnerWidths` | crates/illumia-desktop/src/layout.rs:79-97 | The tiles share what the gaps leave of the width; in a clamped or an unfilled row they keep their proportions to half a pixel |
| `JustifiedLayout.FillsExactly` | crates/illumia-desktop/src/layout.rs:75-121 | With no clamp a filled row ends exactly at the edge if and only if the last tile is not cut to 0 |
| `JustifiedLayout.WideLastTileFills` | crates/illumia-desktop/src/layout.rs:75-121 | A last item whose ideal width is half a pixel for each other item is never cut |
| `JustifiedLayout.LastTileCut` | crates/illumia-desktop/src/layout.rs:103-121 | A concrete row of four equal items that the layout breaks just here, unclamped and on whole pixels, and that ends beyond the edge |
| `JustifiedLayout.CloseToIdeal` | crates/illumia-desktop/src/layout.rs:99-121 | Every tile but the last is within half a pixel of its ideal width, the last within half a pixel for each other tile |
| `JustifiedLayout.BuildRow` | crates/illumia-desktop/src/layout.rs:69-128 | The loop with its running totals computes the positions and widths of the row model, truncated to integers |
| `JustifiedLayout.BuildRowTs` | web/src/lib/layout/justified.ts:60-118 | The reference loop computes the same row without truncation |
| `JustifiedLayout.SameRow` | crates/illumia-desktop/src/layout.rs:115-126 | The Rust row is the TypeScript row truncated to integers, and with whole width and gap nothing is lost |
| `JustifiedLayout.Layout` | crates/illumia-desktop/src/layout.rs:133-164 | The rows of the Rust port are those of the unique partition of the cleaned items, and there are none exactly for no items or a width or target that is not positive |
| `JustifiedLayout.LastRowMarked` | crates/illumia-desktop/src/layout.rs:133-164 | Only the last row can be marked as such, and is exactly when its items do not reach the width |
| `JustifiedLayout.LayoutTs` | web/src/lib/layout/justified.ts:124-156 | The same for the TypeScript reference |
| `JustifiedLayout.SameLayout` | web/src/lib/layout/justified.ts:124-156 | On every input the two versions make the same rows with the same heights and ids, and tiles that differ by the truncation only; with whole width and gap the tiles are the same |

## Left out

- TransferService.Store.Interfere: its body stands for the environment by contract only; callers are proved against every change that contract allows, and EnvRun shows that every run of purge and upload steps stays inside it.
- VaultBlob.Decrypt: integrity is relative to an ideal cipher; XChaCha20-Poly1305, key wrapping, Argon2 and zeroisation are not modelled.
- ClusterContract.ValidateClusterResponse: the checks for non-finite numbers have no counterpart among the reals.
- JustifiedLayout.BuildRow: saturation of the casts to 64-bit integers is not modelled; widths are assumed to be in range.
- An upload to the main library is one step of the transfer machine; its file, written before its row, is not seen without it.
- The list of available items of `cluster_full` is a set here; no result depends on its order because ties are broken by index.
- Concurrent transfers, and restore or purge by a user of an asset whose transfer is in flight.
- Relations copied between databases (`insert_relations`, `collect_relations`), library paths as data, stack pages created by a transfer beyond their blocking of a purge.
- The legacy repair `reparent_legacy_external_duplicates` and rows written by versions before the present invariants.
- Titles, names, chapter titles, search, settings bounds, cluster covers, job progress and payloads beyond the asset id: single-branch checks.
- Worker threads, shutdown flags, HTTP, sockets, timeouts, user interface.
- Image decoding, thumbnails, detection, embeddings and all ONNX inference.
- Deletion of unreferenced vault blob files by the purge of a vault database: the server purges the main database only.
- The size limits on keyfiles, passwords and request bodies, and the total size limit of one transfer.
