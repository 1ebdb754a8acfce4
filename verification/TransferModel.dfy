/** The durable state touched by a vault transfer, and the atomic steps that change it.

    Two databases and a file system share no transaction.  Every SQL transaction, every rename
    and every unlink is one action; a crash keeps the disk and drops both program counters.  The
    purge service is a second actor whose actions may fall between any two transfer actions.
    Contents stand for byte strings, and a content stands for its own hash. */
module TransferModel {

  import opened Basics

  type TransferId = nat

  datatype Kind = Original | Thumbnail | Preview

  /** A file slot of an asset: its original under `library/`, or one of its two thumbnails.
      The path of a slot is a function of the asset alone. */
  datatype Slot = Slot(asset: AssetId, kind: Kind)

  /** A blob's name.  Its wrapped key is bound to one asset and one kind, so they belong to the name. */
  datatype BlobId = BlobId(uuid: nat, slot: Slot)

  /** An absent file is a missing map key. */
  datatype File = Partial | Complete(content: Content)

  datatype Staged = Staged(transfer: TransferId, file: File)

  datatype Row = Row(hash: Content, lifecycle: Lifecycle, duplicateOf: Option<AssetId>, trashedAt: bool,
                     purgeAfter: Option<int>)

  datatype Direction = ImportDirection | ExportDirection | DirectIngest

  datatype Role = Source | Destination

  datatype TransferState = Preparing | DestinationReady | SourceFilesDeleted | SourceDatabaseDeleted

  datatype Journal = Journal(direction: Direction, role: Role, ids: set<AssetId>, state: TransferState)

  /** Everything that survives a crash.  `pages` holds the assets of the main database that some stack
      page names; `blobs` is the `vault_blobs` table with its unique (asset, kind) index; `sealed` is
      `vault/blobs/`; `staged` and `dirs` are `vault/transfer-staging/`. */
  datatype Disk = Disk(
    mainRows: map<AssetId, Row>,
    mainJournal: map<TransferId, Journal>,
    pages: set<AssetId>,
    vaultRows: map<AssetId, Row>,
    vaultJournal: map<TransferId, Journal>,
    blobs: map<Slot, BlobId>,
    plain: map<Slot, File>,
    sealed: map<BlobId, File>,
    staged: map<BlobId, Staged>,
    dirs: set<TransferId>)

  datatype Phase =
    | Finalizing | Sweeping | Validating | Readying | Leasing | Unlinking | MarkingFiles
    | DeletingRows | MarkingRows | DroppingDestination | DroppingSource | FinalSweeping

  /** Where the transfer actor stands, with the local variables it still needs. */
  datatype Pc =
    | Idle
    | Staging(transfer: TransferId, direction: Direction, ids: set<AssetId>, rows: map<AssetId, Row>,
              sources: set<Slot>, prepared: map<Slot, BlobId>, open: Option<BlobId>)
    | Aborting(transfer: TransferId)
    | Importing(transfer: TransferId, direction: Direction, ids: set<AssetId>, seen: TransferState, phase: Phase)
    | Writing(transfer: TransferId, ids: set<AssetId>, rows: map<AssetId, Row>, sources: set<Slot>,
              written: set<Slot>, current: Option<Slot>)
    | Unwriting(transfer: TransferId, ids: set<AssetId>, leftover: set<Slot>)
    | RollingBack(transfer: TransferId, ids: set<AssetId>)
    | Exporting(transfer: TransferId, ids: set<AssetId>, seen: TransferState, at: Phase)
    | SweepingOrphans

  /** `finish_purging` holds the main database's write lock from its check to its DELETE. */
  datatype PurgePc = PurgeIdle | Deleting(id: AssetId)

  datatype System = System(disk: Disk, pc: Pc, purge: PurgePc)

  // ----- row predicates -----

  predicate Visible(rows: map<AssetId, Row>, id: AssetId) {
    id in rows && !rows[id].lifecycle.Purging?
  }

  /** `validate_duplicate_closure`: nothing outside `ids` names a member of `ids` as its canonical row. */
  predicate Closure(rows: map<AssetId, Row>, ids: set<AssetId>) {
    forall r :: r in rows && rows[r].duplicateOf.Some? && rows[r].duplicateOf.value in ids ==> r in ids
  }

  predicate Referenced(rows: map<AssetId, Row>, id: AssetId) {
    exists r :: r in rows && rows[r].duplicateOf == Some(id)
  }

  predicate InSourceTransfer(journal: map<TransferId, Journal>, id: AssetId) {
    exists t :: t in journal && journal[t].role.Source? && id in journal[t].ids
  }

  predicate IsPrimary(rows: map<AssetId, Row>, hash: Content, id: AssetId) {
    && id in rows && rows[id].hash == hash
    && rows[id].lifecycle.Active? && rows[id].duplicateOf.None?
  }

  /** The dedup lookup: an active canonical row of this hash that no pending source transfer names. */
  predicate Lookup(rows: map<AssetId, Row>, journal: map<TransferId, Journal>, hash: Content,
                         found: Option<AssetId>) {
    match found
    case Some(p) => IsPrimary(rows, hash, p) && !InSourceTransfer(journal, p)
    case None => forall p :: p in rows ==> !(IsPrimary(rows, hash, p) && !InSourceTransfer(journal, p))
  }

  /** The partial unique index on active rows without a link: it refuses a second one of a hash, whoever leases the first. */
  predicate IndexAccepts(rows: map<AssetId, Row>, row: Row) {
    row.lifecycle.Active? && row.duplicateOf.None? ==> forall p :: p in rows ==> !IsPrimary(rows, row.hash, p)
  }

  // ----- insert_asset -----

  /** The row `insert_asset` writes, given the result of its lookup. */
  function InsertedRow(row: Row, primary: Option<AssetId>): Row {
    match primary
    case Some(p) =>
      if row.lifecycle.Active? || row.lifecycle.Duplicate?
      then row.(duplicateOf := Some(p), lifecycle := Duplicate)
      else row.(duplicateOf := Some(p))
    case None =>
      if row.duplicateOf.None? then row
      else if row.lifecycle.Duplicate? then row.(duplicateOf := None, lifecycle := Active, purgeAfter := None)
      else row.(duplicateOf := None)
  }

  /** Rows inserted one after another: each lookup sees the rows inserted before it. */
  function InsertRows(rows: map<AssetId, Row>, order: seq<AssetId>, moved: map<AssetId, Row>,
                      primaries: seq<Option<AssetId>>): map<AssetId, Row>
    requires |primaries| == |order|
    requires forall id :: id in order ==> id in moved
    decreases |order|
  {
    if order == [] then rows
    else
      assert forall id :: id in order[1..] ==> id in order;
      InsertRows(rows[order[0] := InsertedRow(moved[order[0]], primaries[0])], order[1..], moved, primaries[1..])
  }

  predicate Lookups(rows: map<AssetId, Row>, journal: map<TransferId, Journal>, order: seq<AssetId>,
                          moved: map<AssetId, Row>, primaries: seq<Option<AssetId>>)
    requires |primaries| == |order|
    requires forall id :: id in order ==> id in moved
    decreases |order|
  {
    if order == [] then true
    else
      assert forall id :: id in order[1..] ==> id in order;
      && Lookup(rows, journal, moved[order[0]].hash, primaries[0])
      && Lookups(rows[order[0] := InsertedRow(moved[order[0]], primaries[0])], journal, order[1..], moved, primaries[1..])
  }

  // ----- purge decisions -----

  /** The selection of `mark_due_as_purging`. */
  predicate Due(d: Disk, id: AssetId, now: int) {
    && id in d.mainRows
    && (d.mainRows[id].lifecycle.Duplicate? || d.mainRows[id].lifecycle.Trashed?)
    && d.mainRows[id].purgeAfter.Some? && d.mainRows[id].purgeAfter.value < now
    && id !in d.pages && !Referenced(d.mainRows, id)
  }

  /** `restore_blocked_legacy_tombstone`. */
  function RestoredRow(row: Row, paged: bool): Row {
    row.(lifecycle :=
      if row.trashedAt then Trashed
      else if paged then Active
      else if row.duplicateOf.Some? then Duplicate
      else Trashed)
  }

  // ----- small disk updates -----

  function RemoveIds<T>(rows: map<AssetId, T>, ids: set<AssetId>): map<AssetId, T> {
    map id | id in rows && id !in ids :: rows[id]
  }

  function LeaseRows(rows: map<AssetId, Row>, ids: set<AssetId>): map<AssetId, Row> {
    map id | id in rows :: if id in ids then rows[id].(lifecycle := Purging) else rows[id]
  }

  function RemoveSlots<T>(files: map<Slot, T>, ids: set<AssetId>): map<Slot, T> {
    map s | s in files && s.asset !in ids :: files[s]
  }

  function SlotsOf<T>(files: map<Slot, T>, ids: set<AssetId>): set<Slot> {
    set s | s in files && s.asset in ids
  }

  function WithState(journal: map<TransferId, Journal>, t: TransferId, state: TransferState): map<TransferId, Journal> {
    if t in journal && journal[t].role.Source? then journal[t := journal[t].(state := state)] else journal
  }

  /** Ids and blob names are UUIDs: a new one clashes with nothing. */
  ghost predicate FreshAsset(s: System, id: AssetId) {
    && id !in s.disk.mainRows && id !in s.disk.vaultRows
    && (forall k :: Slot(id, k) !in s.disk.plain && Slot(id, k) !in s.disk.blobs)
    && (forall t :: t in s.disk.mainJournal ==> id !in s.disk.mainJournal[t].ids)
    && (forall t :: t in s.disk.vaultJournal ==> id !in s.disk.vaultJournal[t].ids)
    && (s.pc.Staging? ==> id !in s.pc.ids)
    && (s.pc.Writing? || s.pc.Unwriting? || s.pc.RollingBack? || s.pc.Exporting? || s.pc.Importing? ==> id !in s.pc.ids)
  }

  ghost predicate FreshBlob(s: System, b: BlobId) {
    && b !in s.disk.staged && b !in s.disk.sealed
    && !(b.slot in s.disk.blobs && s.disk.blobs[b.slot] == b)
  }

  /** `order` lists `ids` without repetition: the order of the journal's JSON array. */
  ghost predicate Lists(order: seq<AssetId>, ids: set<AssetId>) {
    && (forall i, j :: 0 <= i < j < |order| ==> order[i] != order[j])
    && (forall id :: id in order <==> id in ids)
  }

  // ----- actions -----

  datatype StageAction =
    | BeginImport(transfer: TransferId, ids: set<AssetId>)
    | BeginDirect(transfer: TransferId, id: AssetId, content: Content)
    | MakeDir
    | OpenBlob(blob: BlobId)
    | SealBlob(content: Content)
    | CommitImport(order: seq<AssetId>, primaries: seq<Option<AssetId>>)
    | CommitDirect(id: AssetId, primary: Option<AssetId>, retention: int)
    | AbortStaging
    | DropAborted

  datatype ImportAction =
    | FinalizeBlob(slot: Slot)
    | FinalizeDone
    | RemoveStaged(blob: BlobId)
    | RemoveDir(transfer: TransferId)
    | SweepDone
    | ValidateImport
    | MarkReady
    | Lease
    | UnlinkPlain(slot: Slot)
    | UnlinkDone
    | MarkFilesDeleted
    | DeleteRows
    | MarkRowsDeleted
    | DropDestination
    | DropSource
    | FinishImport

  datatype ExportAction =
    | BeginExport(transfer: TransferId, ids: set<AssetId>)
    | OpenPlain(slot: Slot)
    | WritePlain
    | ClobberPlain(slot: Slot)
    | AbortWriting
    | UnwritePlain(slot: Slot)
    | DropUnwritten
    | CommitExport(order: seq<AssetId>, primaries: seq<Option<AssetId>>, pages: set<AssetId>)
    | ValidateExport
    | MarkExportReady
    | LeaseVault
    | UnlinkBlob(slot: Slot)
    | UnlinkBlobsDone
    | MarkBlobsDeleted
    | DeleteVaultRows
    | MarkVaultRowsDeleted
    | DropExportDestination
    | DropExportSource
    | RollbackPlain(slot: Slot)
    | DropRolledBack

  datatype PurgeAction =
    | MarkDue(now: int)
    | RestoreBlocked(id: AssetId)
    | StartDelete(id: AssetId)
    | UnlinkPurged(kind: Kind)
    | FinishDelete
    | GiveUpPurge

  datatype Action =
    | StageStep(stage: StageAction)
    | ImportStep(complete: ImportAction)
    | ExportStep(move: ExportAction)
    | PurgeStep(purge: PurgeAction)
    | Ingest(id: AssetId, content: Content, primary: Option<AssetId>, retention: int)
    | ResumeImport(transfer: TransferId)
    | ResumeExport(transfer: TransferId)
    | ResumeDirect(transfer: TransferId)
    | StartOrphanSweep
    | FinishOrphanSweep
    | GiveUp
    | Crash

  // ----- staging: import and direct ingest up to the destination's commit -----

  ghost predicate StageEnabled(s: System, a: StageAction) {
    var d, pc := s.disk, s.pc;
    match a
    case BeginImport(t, ids) =>
      && pc.Idle? && s.purge.PurgeIdle?
      && d.mainJournal == map[] && d.vaultJournal == map[]
      && t !in d.dirs
      && ids != {} && |ids| <= 100
      && (forall id :: id in ids ==> Visible(d.mainRows, id) && Slot(id, Original) in d.plain)
      && Closure(d.mainRows, ids)
    case BeginDirect(t, id, content) =>
      && pc.Idle? && d.mainJournal == map[] && d.vaultJournal == map[]
      && t !in d.dirs && FreshAsset(s, id)
    case MakeDir => pc.Staging?
    case OpenBlob(b) =>
      && pc.Staging? && pc.open.None? && pc.transfer in d.dirs
      && b.slot in pc.sources && b.slot !in pc.prepared && FreshBlob(s, b)
      && (pc.direction.ImportDirection? ==> b.slot in d.plain)
    case SealBlob(content) =>
      && pc.Staging? && pc.open.Some?
      && pc.open.value in d.staged
      && var slot := pc.open.value.slot;
      && slot.asset in pc.rows
      && (slot.kind.Original? ==> content == pc.rows[slot.asset].hash)
      && (pc.direction.ImportDirection? ==>
            slot in d.plain && d.plain[slot] == (if slot.kind.Original? || d.plain[slot].Complete? then Complete(content) else Partial))
    case CommitImport(order, primaries) =>
      && pc.Staging? && pc.direction.ImportDirection? && pc.open.None?
      && pc.prepared.Keys == pc.sources
      && (forall id :: id in pc.ids ==> id in pc.rows && id !in d.vaultRows)
      && Lists(order, pc.ids) && |primaries| == |order|
      && Lookups(d.vaultRows, d.vaultJournal, order, pc.rows, primaries)
    case CommitDirect(id, primary, retention) =>
      && pc.Staging? && pc.direction.DirectIngest? && pc.open.None?
      && pc.prepared.Keys == pc.sources
      && id in pc.rows && pc.ids == {id} && id !in d.vaultRows
      && Lookup(d.vaultRows, d.vaultJournal, pc.rows[id].hash, primary)
    case AbortStaging => pc.Staging?
    case DropAborted => pc.Aborting? && pc.transfer !in d.dirs && s.purge.PurgeIdle?
  }

  function StageApply(s: System, a: StageAction): System
    requires StageEnabled(s, a)
  {
    var d, pc := s.disk, s.pc;
    match a
    case BeginImport(t, ids) =>
      s.(disk := d.(mainJournal := map[t := Journal(ImportDirection, Source, ids, Preparing)]),
         pc := Staging(t, ImportDirection, ids, map id | id in d.mainRows && id in ids :: d.mainRows[id],
                       SlotsOf(d.plain, ids), map[], None))
    case BeginDirect(t, id, content) =>
      s.(pc := Staging(t, DirectIngest, {id}, map[id := Row(content, Active, None, false, None)],
                       {Slot(id, Original)}, map[], None))
    case MakeDir => s.(disk := d.(dirs := d.dirs + {pc.transfer}))
    case OpenBlob(b) =>
      s.(disk := d.(staged := d.staged[b := Staged(pc.transfer, Partial)]), pc := pc.(open := Some(b)))
    case SealBlob(content) =>
      var b := pc.open.value;
      s.(disk := d.(staged := d.staged[b := Staged(pc.transfer, Complete(content))]),
         pc := pc.(prepared := pc.prepared[b.slot := b], open := None))
    case CommitImport(order, primaries) =>
      s.(disk := d.(vaultRows := InsertRows(d.vaultRows, order, pc.rows, primaries),
                    blobs := d.blobs + pc.prepared,
                    vaultJournal := d.vaultJournal[pc.transfer := Journal(ImportDirection, Destination, pc.ids, DestinationReady)]),
         pc := Importing(pc.transfer, ImportDirection, pc.ids, Preparing, Finalizing))
    case CommitDirect(id, primary, retention) =>
      var row := if primary.Some? then Row(pc.rows[id].hash, Duplicate, primary, false, Some(retention)) else pc.rows[id];
      s.(disk := d.(vaultRows := d.vaultRows[id := row],
                    blobs := d.blobs + pc.prepared,
                    vaultJournal := d.vaultJournal[pc.transfer := Journal(DirectIngest, Destination, pc.ids, DestinationReady)]),
         pc := Importing(pc.transfer, DirectIngest, pc.ids, DestinationReady, Finalizing))
    case AbortStaging => s.(pc := Aborting(pc.transfer))
    case DropAborted => s.(disk := d.(mainJournal := d.mainJournal - {pc.transfer}), pc := Idle)
  }

  // ----- completing an import or a direct ingest -----

  /** The phase after validation, as the `state <` tests of `complete_import_transfer` choose it. */
  function AfterValidate(direction: Direction, seen: TransferState): Phase {
    if direction.DirectIngest? then DroppingDestination
    else if seen.Preparing? then Readying
    else AfterReady(seen)
  }

  function AfterReady(seen: TransferState): Phase {
    if seen.Preparing? || seen.DestinationReady? then Leasing else AfterFiles(seen)
  }

  function AfterFiles(seen: TransferState): Phase {
    if seen.SourceDatabaseDeleted? then DroppingDestination else DeletingRows
  }

  /** The transfers whose staging directory the transfer actor may be emptying. */
  predicate MaySweep(s: System, t: TransferId) {
    match s.pc
    case Aborting(x) => t == x
    case Importing(x, _, _, _, phase) => t == x && (phase.Sweeping? || phase.FinalSweeping?)
    case SweepingOrphans => t !in s.disk.vaultJournal
    case _ => false
  }

  predicate AtPhase(s: System, phase: Phase) { s.pc.Importing? && s.pc.phase == phase }

  /** `validate_import_destination`. */
  predicate ImportValid(d: Disk, ids: set<AssetId>) {
    forall id :: id in ids ==>
      && Visible(d.vaultRows, id) && Slot(id, Original) in d.blobs
      && d.blobs[Slot(id, Original)] in d.sealed
      && d.sealed[d.blobs[Slot(id, Original)]] == Complete(d.vaultRows[id].hash)
  }

  ghost predicate ImportEnabled(s: System, a: ImportAction) {
    var d, pc := s.disk, s.pc;
    match a
    case FinalizeBlob(slot) =>
      && AtPhase(s, Finalizing) && slot in d.blobs && slot.asset in pc.ids
      && (d.blobs[slot] in d.sealed
          || (d.blobs[slot] in d.staged && d.staged[d.blobs[slot]].transfer == pc.transfer))
    case FinalizeDone =>
      && AtPhase(s, Finalizing)
      && forall slot :: slot in d.blobs && slot.asset in pc.ids ==> d.blobs[slot] in d.sealed
    case RemoveStaged(b) => b in d.staged && MaySweep(s, d.staged[b].transfer)
    case RemoveDir(t) => MaySweep(s, t) && forall b :: b in d.staged ==> d.staged[b].transfer != t
    case SweepDone => AtPhase(s, Sweeping) && pc.transfer !in d.dirs
    case ValidateImport => AtPhase(s, Validating) && ImportValid(d, pc.ids)
    case MarkReady => AtPhase(s, Readying) && s.purge.PurgeIdle?
    case Lease => AtPhase(s, Leasing) && s.purge.PurgeIdle? && Closure(d.mainRows, pc.ids)
    case UnlinkPlain(slot) => AtPhase(s, Unlinking) && slot.asset in pc.ids
    case UnlinkDone => AtPhase(s, Unlinking) && SlotsOf(d.plain, pc.ids) == {}
    case MarkFilesDeleted => AtPhase(s, MarkingFiles) && s.purge.PurgeIdle?
    case DeleteRows => AtPhase(s, DeletingRows) && s.purge.PurgeIdle?
    case MarkRowsDeleted => AtPhase(s, MarkingRows) && s.purge.PurgeIdle?
    case DropDestination => AtPhase(s, DroppingDestination)
    case DropSource => AtPhase(s, DroppingSource) && s.purge.PurgeIdle?
    case FinishImport => AtPhase(s, FinalSweeping) && pc.transfer !in d.dirs
  }

  function ImportApply(s: System, a: ImportAction): System
    requires ImportEnabled(s, a)
  {
    var d, pc := s.disk, s.pc;
    match a
    case FinalizeBlob(slot) =>
      var b := d.blobs[slot];
      if b in d.sealed then
        s.(disk := d.(staged := if b in d.staged && d.staged[b].transfer == pc.transfer then d.staged - {b} else d.staged))
      else s.(disk := d.(sealed := d.sealed[b := d.staged[b].file], staged := d.staged - {b}))
    case FinalizeDone => s.(pc := pc.(phase := Sweeping))
    case RemoveStaged(b) => s.(disk := d.(staged := d.staged - {b}))
    case RemoveDir(t) => s.(disk := d.(dirs := d.dirs - {t}))
    case SweepDone => s.(pc := pc.(phase := Validating))
    case ValidateImport => s.(pc := pc.(phase := AfterValidate(pc.direction, pc.seen)))
    case MarkReady =>
      s.(disk := d.(mainJournal := WithState(d.mainJournal, pc.transfer, DestinationReady)),
         pc := pc.(phase := AfterReady(pc.seen)))
    case Lease => s.(disk := d.(mainRows := LeaseRows(d.mainRows, pc.ids)), pc := pc.(phase := Unlinking))
    case UnlinkPlain(slot) => s.(disk := d.(plain := d.plain - {slot}))
    case UnlinkDone => s.(pc := pc.(phase := MarkingFiles))
    case MarkFilesDeleted =>
      s.(disk := d.(mainJournal := WithState(d.mainJournal, pc.transfer, SourceFilesDeleted)),
         pc := pc.(phase := AfterFiles(pc.seen)))
    case DeleteRows =>
      s.(disk := d.(mainRows := RemoveIds(d.mainRows, pc.ids), pages := set p | p in d.pages && p !in pc.ids),
         pc := pc.(phase := MarkingRows))
    case MarkRowsDeleted =>
      s.(disk := d.(mainJournal := WithState(d.mainJournal, pc.transfer, SourceDatabaseDeleted)),
         pc := pc.(phase := DroppingDestination))
    case DropDestination =>
      s.(disk := d.(vaultJournal := d.vaultJournal - {pc.transfer}),
         pc := pc.(phase := if pc.direction.DirectIngest? then FinalSweeping else DroppingSource))
    case DropSource =>
      s.(disk := d.(mainJournal := d.mainJournal - {pc.transfer}), pc := pc.(phase := FinalSweeping))
    case FinishImport => s.(pc := Idle)
  }

  // ----- export -----

  predicate AtExport(s: System, phase: Phase) { s.pc.Exporting? && s.pc.at == phase }

  /** `validate_export_destination`. */
  predicate ExportValid(d: Disk, ids: set<AssetId>) {
    forall id :: id in ids ==>
      && Visible(d.mainRows, id) && Slot(id, Original) in d.plain
      && d.plain[Slot(id, Original)] == Complete(d.mainRows[id].hash)
  }

  /** What `rollback_export_files` leaves of one asset before it goes to the next. */
  predicate RolledBack(d: Disk, id: AssetId) {
    || Visible(d.mainRows, id)
    || (&& Visible(d.vaultRows, id)
        && Slot(id, Thumbnail) !in d.plain && Slot(id, Preview) !in d.plain
        && (Slot(id, Original) in d.plain ==> d.plain[Slot(id, Original)] != Complete(d.vaultRows[id].hash)))
  }

  ghost predicate ExportEnabled(s: System, a: ExportAction) {
    var d, pc := s.disk, s.pc;
    match a
    case BeginExport(t, ids) =>
      && pc.Idle? && d.mainJournal == map[] && d.vaultJournal == map[]
      && t !in d.dirs
      && ids != {} && |ids| <= 100
      && ImportValid(d, ids) && Closure(d.vaultRows, ids)
    case OpenPlain(slot) =>
      && pc.Writing? && pc.current.None? && slot in pc.sources && slot !in pc.written && slot !in d.plain
    case WritePlain =>
      && pc.Writing? && pc.current.Some? && pc.current.value in d.blobs
      && d.blobs[pc.current.value] in d.sealed && d.sealed[d.blobs[pc.current.value]].Complete?
      && (pc.current.value.kind.Original? ==>
            && pc.current.value.asset in pc.rows
            && d.sealed[d.blobs[pc.current.value]].content == pc.rows[pc.current.value.asset].hash)
    case ClobberPlain(slot) =>
      && pc.Writing? && pc.current.None? && slot in pc.sources && slot !in pc.written && slot in d.plain
    case AbortWriting => pc.Writing?
    case UnwritePlain(slot) => pc.Unwriting? && slot in pc.leftover
    case DropUnwritten => pc.Unwriting? && pc.leftover == {}
    case CommitExport(order, primaries, pages) =>
      && pc.Writing? && pc.current.None? && pc.written == pc.sources && s.purge.PurgeIdle?
      && (forall id :: id in pc.ids ==> id in pc.rows && id !in d.mainRows)
      && Lists(order, pc.ids) && |primaries| == |order|
      && Lookups(d.mainRows, d.mainJournal, order, pc.rows, primaries)
      && (forall id :: id in pages ==> id in pc.ids)
    case ValidateExport => AtExport(s, Validating) && ExportValid(d, pc.ids)
    case MarkExportReady => AtExport(s, Readying)
    case LeaseVault => AtExport(s, Leasing) && Closure(d.vaultRows, pc.ids)
    case UnlinkBlob(slot) => AtExport(s, Unlinking) && slot in d.blobs && slot.asset in pc.ids
    case UnlinkBlobsDone =>
      && AtExport(s, Unlinking)
      && forall slot :: slot in d.blobs && slot.asset in pc.ids ==> d.blobs[slot] !in d.sealed
    case MarkBlobsDeleted => AtExport(s, MarkingFiles)
    case DeleteVaultRows => AtExport(s, DeletingRows)
    case MarkVaultRowsDeleted => AtExport(s, MarkingRows)
    case DropExportDestination => AtExport(s, DroppingDestination) && s.purge.PurgeIdle?
    case DropExportSource => AtExport(s, DroppingSource)
    case RollbackPlain(slot) =>
      && pc.RollingBack? && slot.asset in pc.ids && slot in d.plain
      && !Visible(d.mainRows, slot.asset) && Visible(d.vaultRows, slot.asset)
      && (slot.kind.Original? ==> d.plain[slot] == Complete(d.vaultRows[slot.asset].hash))
    case DropRolledBack => pc.RollingBack? && forall id :: id in pc.ids ==> RolledBack(d, id)
  }

  function ExportApply(s: System, a: ExportAction): System
    requires ExportEnabled(s, a)
  {
    var d, pc := s.disk, s.pc;
    match a
    case BeginExport(t, ids) =>
      s.(disk := d.(vaultJournal := map[t := Journal(ExportDirection, Source, ids, Preparing)]),
         pc := Writing(t, ids, map id | id in d.vaultRows && id in ids :: d.vaultRows[id], SlotsOf(d.blobs, ids), {}, None))
    case OpenPlain(slot) => s.(disk := d.(plain := d.plain[slot := Partial]), pc := pc.(current := Some(slot)))
    case WritePlain =>
      var slot := pc.current.value;
      s.(disk := d.(plain := d.plain[slot := d.sealed[d.blobs[slot]]]),
         pc := pc.(written := pc.written + {slot}, current := None))
    case ClobberPlain(slot) =>
      // `create_new` refuses the existing file, and the error path then unlinks it.
      s.(disk := d.(plain := d.plain - {slot}), pc := Unwriting(pc.transfer, pc.ids, pc.written))
    case AbortWriting =>
      s.(pc := Unwriting(pc.transfer, pc.ids, if pc.current.Some? then pc.written + {pc.current.value} else pc.written))
    case UnwritePlain(slot) =>
      s.(disk := d.(plain := d.plain - {slot}), pc := pc.(leftover := pc.leftover - {slot}))
    case DropUnwritten => s.(disk := d.(vaultJournal := d.vaultJournal - {pc.transfer}), pc := Idle)
    case CommitExport(order, primaries, pages) =>
      s.(disk := d.(mainRows := InsertRows(d.mainRows, order, pc.rows, primaries), pages := d.pages + pages,
                    mainJournal := d.mainJournal[pc.transfer := Journal(ExportDirection, Destination, pc.ids, DestinationReady)]),
         pc := Exporting(pc.transfer, pc.ids, Preparing, Validating))
    case ValidateExport => s.(pc := pc.(at := AfterValidate(ExportDirection, pc.seen)))
    case MarkExportReady =>
      s.(disk := d.(vaultJournal := WithState(d.vaultJournal, pc.transfer, DestinationReady)),
         pc := pc.(at := AfterReady(pc.seen)))
    case LeaseVault => s.(disk := d.(vaultRows := LeaseRows(d.vaultRows, pc.ids)), pc := pc.(at := Unlinking))
    case UnlinkBlob(slot) => s.(disk := d.(sealed := d.sealed - {d.blobs[slot]}))
    case UnlinkBlobsDone => s.(pc := pc.(at := MarkingFiles))
    case MarkBlobsDeleted =>
      s.(disk := d.(vaultJournal := WithState(d.vaultJournal, pc.transfer, SourceFilesDeleted)),
         pc := pc.(at := AfterFiles(pc.seen)))
    case DeleteVaultRows =>
      s.(disk := d.(vaultRows := RemoveIds(d.vaultRows, pc.ids), blobs := RemoveSlots(d.blobs, pc.ids)),
         pc := pc.(at := MarkingRows))
    case MarkVaultRowsDeleted =>
      s.(disk := d.(vaultJournal := WithState(d.vaultJournal, pc.transfer, SourceDatabaseDeleted)),
         pc := pc.(at := DroppingDestination))
    case DropExportDestination =>
      s.(disk := d.(mainJournal := d.mainJournal - {pc.transfer}), pc := pc.(at := DroppingSource))
    case DropExportSource => s.(disk := d.(vaultJournal := d.vaultJournal - {pc.transfer}), pc := Idle)
    case RollbackPlain(slot) => s.(disk := d.(plain := d.plain - {slot}))
    case DropRolledBack => s.(disk := d.(vaultJournal := d.vaultJournal - {pc.transfer}), pc := Idle)
  }

  // ----- purge of the main database -----

  ghost predicate PurgeEnabled(s: System, a: PurgeAction) {
    var d := s.disk;
    match a
    case MarkDue(now) => s.purge.PurgeIdle?
    case RestoreBlocked(id) =>
      && s.purge.PurgeIdle? && id in d.mainRows && d.mainRows[id].lifecycle.Purging?
      && (id in d.pages || Referenced(d.mainRows, id))
      && IndexAccepts(d.mainRows, RestoredRow(d.mainRows[id], id in d.pages))
    case StartDelete(id) =>
      && s.purge.PurgeIdle? && id in d.mainRows && d.mainRows[id].lifecycle.Purging?
      && id !in d.pages && !Referenced(d.mainRows, id)
    case UnlinkPurged(kind) => s.purge.Deleting?
    case FinishDelete => s.purge.Deleting? && SlotsOf(d.plain, {s.purge.id}) == {}
    case GiveUpPurge => true
  }

  function PurgeApply(s: System, a: PurgeAction): System
    requires PurgeEnabled(s, a)
  {
    var d := s.disk;
    match a
    case MarkDue(now) =>
      s.(disk := d.(mainRows := map id | id in d.mainRows ::
                                  if Due(d, id, now) then d.mainRows[id].(lifecycle := Purging) else d.mainRows[id]))
    case RestoreBlocked(id) =>
      s.(disk := d.(mainRows := d.mainRows[id := RestoredRow(d.mainRows[id], id in d.pages)]))
    case StartDelete(id) => s.(purge := Deleting(id))
    case UnlinkPurged(kind) => s.(disk := d.(plain := d.plain - {Slot(s.purge.id, kind)}))
    case FinishDelete => s.(disk := d.(mainRows := d.mainRows - {s.purge.id}), purge := PurgeIdle)
    case GiveUpPurge => s.(purge := PurgeIdle)
  }

  // ----- the whole system -----

  ghost predicate Enabled(s: System, a: Action) {
    var d := s.disk;
    match a
    case StageStep(x) => StageEnabled(s, x)
    case ImportStep(x) => ImportEnabled(s, x)
    case ExportStep(x) => ExportEnabled(s, x)
    case PurgeStep(x) => PurgeEnabled(s, x)
    case Ingest(id, content, primary, retention) =>
      && s.purge.PurgeIdle? && FreshAsset(s, id)
      && Lookup(d.mainRows, d.mainJournal, content, primary)
      && IndexAccepts(d.mainRows, IngestedRow(content, primary, retention))
    case ResumeImport(t) =>
      s.pc.Idle? && t in d.mainJournal && d.mainJournal[t].direction.ImportDirection? && d.mainJournal[t].role.Source?
    case ResumeExport(t) =>
      s.pc.Idle? && t in d.vaultJournal && d.vaultJournal[t].direction.ExportDirection? && d.vaultJournal[t].role.Source?
    case ResumeDirect(t) =>
      s.pc.Idle? && t in d.vaultJournal && d.vaultJournal[t].direction.DirectIngest? && d.vaultJournal[t].role.Destination?
    case StartOrphanSweep => s.pc.Idle?
    case FinishOrphanSweep => s.pc.SweepingOrphans?
    case GiveUp => true
    case Crash => true
  }

  /** Ingest into the main library: a duplicate when the lookup finds a canonical row. */
  function IngestedRow(content: Content, primary: Option<AssetId>, retention: int): Row {
    if primary.Some? then Row(content, Duplicate, primary, false, Some(retention))
    else Row(content, Active, None, false, None)
  }

  function Apply(s: System, a: Action): System
    requires Enabled(s, a)
  {
    var d := s.disk;
    match a
    case StageStep(x) => StageApply(s, x)
    case ImportStep(x) => ImportApply(s, x)
    case ExportStep(x) => ExportApply(s, x)
    case PurgeStep(x) => PurgeApply(s, x)
    case Ingest(id, content, primary, retention) =>
      s.(disk := d.(mainRows := d.mainRows[id := IngestedRow(content, primary, retention)],
                    plain := d.plain[Slot(id, Original) := Complete(content)]))
    case ResumeImport(t) =>
      // The branch of `reconcile_transfers` on the destination's record.
      var j := d.mainJournal[t];
      if t in d.vaultJournal && d.vaultJournal[t].direction.ImportDirection? && d.vaultJournal[t].role.Destination?
      then s.(pc := Importing(t, ImportDirection, j.ids, j.state, Finalizing))
      else s.(pc := Aborting(t))
    case ResumeExport(t) =>
      var j := d.vaultJournal[t];
      if t in d.mainJournal && d.mainJournal[t].direction.ExportDirection? && d.mainJournal[t].role.Destination?
      then s.(pc := Exporting(t, j.ids, j.state, Validating))
      else s.(pc := RollingBack(t, j.ids))
    case ResumeDirect(t) =>
      var j := d.vaultJournal[t];
      s.(pc := Importing(t, DirectIngest, j.ids, j.state, Finalizing))
    case StartOrphanSweep => s.(pc := SweepingOrphans)
    case FinishOrphanSweep => s.(pc := Idle)
    case GiveUp => s.(pc := Idle)
    case Crash => s.(pc := Idle, purge := PurgeIdle)
  }

  // ----- runs -----

  ghost predicate Legal(s: System, run: seq<Action>)
    decreases |run|
  {
    run == [] || (Enabled(s, run[0]) && Legal(Apply(s, run[0]), run[1..]))
  }

  ghost function Final(s: System, run: seq<Action>): System
    requires Legal(s, run)
    decreases |run|
  {
    if run == [] then s else Final(Apply(s, run[0]), run[1..])
  }
}
