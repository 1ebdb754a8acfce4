/** The inductive invariant of the transfer protocol. */
module TransferInvariant {
  import opened Basics
  import opened TransferModel

  /** What the two journals say is in flight.  Transfers are serialised, so there is at most one. */
  datatype Flight =
    | Quiet
    | ImportOpen(transfer: TransferId, ids: set<AssetId>)
    | ImportCommitted(transfer: TransferId, ids: set<AssetId>, state: TransferState)
    | ImportClosing(transfer: TransferId, ids: set<AssetId>)
    | ExportOpen(transfer: TransferId, ids: set<AssetId>)
    | ExportCommitted(transfer: TransferId, ids: set<AssetId>, state: TransferState)
    | ExportClosing(transfer: TransferId, ids: set<AssetId>)
    | DirectCommitted(transfer: TransferId, ids: set<AssetId>)

  function MainRecords(f: Flight): map<TransferId, Journal> {
    match f
    case ImportOpen(t, ids) => map[t := Journal(ImportDirection, Source, ids, Preparing)]
    case ImportCommitted(t, ids, st) => map[t := Journal(ImportDirection, Source, ids, st)]
    case ImportClosing(t, ids) => map[t := Journal(ImportDirection, Source, ids, SourceDatabaseDeleted)]
    case ExportCommitted(t, ids, st) => map[t := Journal(ExportDirection, Destination, ids, DestinationReady)]
    case _ => map[]
  }

  function VaultRecords(f: Flight): map<TransferId, Journal> {
    match f
    case ImportCommitted(t, ids, st) => map[t := Journal(ImportDirection, Destination, ids, DestinationReady)]
    case DirectCommitted(t, ids) => map[t := Journal(DirectIngest, Destination, ids, DestinationReady)]
    case ExportOpen(t, ids) => map[t := Journal(ExportDirection, Source, ids, Preparing)]
    case ExportCommitted(t, ids, st) => map[t := Journal(ExportDirection, Source, ids, st)]
    case ExportClosing(t, ids) => map[t := Journal(ExportDirection, Source, ids, SourceDatabaseDeleted)]
    case _ => map[]
  }

  /** Assets that may have a row on both sides. */
  function Shared(f: Flight): set<AssetId> {
    if f.ImportCommitted? || f.ExportCommitted? then f.ids else {}
  }

  /** Assets whose vault copy is no longer relied upon: their export has committed. */
  function Leaving(f: Flight): set<AssetId> {
    if f.ExportCommitted? then f.ids else {}
  }

  /** Assets whose blobs may still be staged: their destination has committed. */
  function Arriving(f: Flight): set<AssetId> {
    if f.ImportCommitted? || f.DirectCommitted? then f.ids else {}
  }

  // ----- copies -----

  /** A visible main row that no scheduled purge can select, with its original in place. */
  predicate MainCopy(d: Disk, a: AssetId, hash: Content) {
    && Visible(d.mainRows, a) && d.mainRows[a].hash == hash && d.mainRows[a].purgeAfter.None?
    && Slot(a, Original) in d.plain && d.plain[Slot(a, Original)] == Complete(hash)
  }

  /** The blob is in place, or staged by a transfer whose destination record exists. */
  predicate Readable(d: Disk, b: BlobId, hash: Content) {
    if b in d.sealed then d.sealed[b] == Complete(hash)
    else
      && b in d.staged && d.staged[b].file == Complete(hash)
      && d.staged[b].transfer in d.vaultJournal && d.vaultJournal[d.staged[b].transfer].role.Destination?
  }

  predicate VaultCopy(d: Disk, a: AssetId, hash: Content) {
    && Visible(d.vaultRows, a) && d.vaultRows[a].hash == hash && d.vaultRows[a].purgeAfter.None?
    && Slot(a, Original) in d.blobs && Readable(d, d.blobs[Slot(a, Original)], hash)
  }

  predicate HasCopy(d: Disk, a: AssetId, hash: Content) {
    MainCopy(d, a, hash) || VaultCopy(d, a, hash)
  }

  // ----- the parts of the invariant -----

  ghost predicate Named(m: map<Slot, BlobId>) {
    forall slot :: slot in m ==> m[slot].slot == slot
  }

  predicate Unused(d: Disk, b: BlobId) {
    b !in d.sealed && !Published(d, b)
  }

  /** One row of `vault_blobs`: its file is whole and, for an original, holds the asset's content.
      The file may still be staged only while the transfer that brought it is in flight. */
  predicate BlobOk(d: Disk, b: BlobId, arriving: bool, hash: Content) {
    if b in d.sealed then FileOk(d.sealed[b], b, hash)
    else
      && arriving && b in d.staged && FileOk(d.staged[b].file, b, hash)
      && d.staged[b].transfer in d.vaultJournal && d.vaultJournal[d.staged[b].transfer].role.Destination?
  }

  predicate FileOk(file: File, b: BlobId, hash: Content) {
    file.Complete? && (b.slot.kind.Original? ==> file.content == hash)
  }

  predicate Published(d: Disk, b: BlobId) {
    b.slot in d.blobs && d.blobs[b.slot] == b
  }

  predicate Records(d: Disk, f: Flight) {
    d.mainJournal == MainRecords(f) && d.vaultJournal == VaultRecords(f)
  }

  /** No asset is on both sides unless its transfer has committed, blob rows reference rows (foreign key),
      and a staged file that is also published belongs to an arriving asset. */
  ghost predicate Rows(d: Disk, shared: set<AssetId>, arriving: set<AssetId>) {
    && (forall slot :: slot in d.blobs ==> d.blobs[slot].slot == slot && slot.asset in d.vaultRows)
    && (forall b :: b in d.staged ==>
          d.staged[b].transfer in d.dirs && (Published(d, b) ==> b !in d.sealed && b.slot.asset in arriving))
    && (forall a :: a in d.mainRows && a in d.vaultRows ==> a in shared)
  }

  /** Every vault row is visible and readable, unless it is on its way out. */
  ghost predicate VaultIntact(d: Disk, leaving: set<AssetId>, arriving: set<AssetId>) {
    && (forall a :: a in d.vaultRows && a !in leaving ==>
          !d.vaultRows[a].lifecycle.Purging? && Slot(a, Original) in d.blobs)
    && (forall slot :: slot in d.blobs && slot.asset !in leaving ==>
          slot.asset in d.vaultRows && BlobOk(d, d.blobs[slot], slot.asset in arriving, d.vaultRows[slot.asset].hash))
  }

  ghost predicate AllSealed(d: Disk, ids: set<AssetId>) {
    forall slot :: slot in d.blobs && slot.asset in ids ==> d.blobs[slot] in d.sealed
  }

  ghost predicate NoneSealed(d: Disk, ids: set<AssetId>) {
    forall slot :: slot in d.blobs && slot.asset in ids ==> d.blobs[slot] !in d.sealed
  }

  ghost predicate NoPlain(d: Disk, ids: set<AssetId>) {
    forall slot :: slot in d.plain ==> slot.asset !in ids
  }

  ghost predicate Within<T>(rows: map<AssetId, T>, ids: set<AssetId>) {
    forall id :: id in ids ==> id in rows
  }

  ghost predicate Outside<T>(rows: map<AssetId, T>, ids: set<AssetId>) {
    forall id :: id in ids ==> id !in rows
  }

  predicate FilesGone(st: TransferState) { st.SourceFilesDeleted? || st.SourceDatabaseDeleted? }

  ghost predicate Progress(d: Disk, f: Flight) {
    match f
    case Quiet => true
    case ImportOpen(t, ids) => Closure(d.mainRows, ids) && Outside(d.vaultRows, ids)
    case ImportCommitted(t, ids, st) =>
      && Closure(d.mainRows, ids) && Within(d.vaultRows, ids)
      && (!st.Preparing? ==> AllSealed(d, ids))
      && (FilesGone(st) ==> NoPlain(d, ids))
      && (st.SourceDatabaseDeleted? ==> Outside(d.mainRows, ids))
    case ImportClosing(t, ids) => Within(d.vaultRows, ids) && Outside(d.mainRows, ids) && NoPlain(d, ids)
    case ExportOpen(t, ids) =>
      t !in d.dirs && Closure(d.vaultRows, ids) && Within(d.vaultRows, ids) && Outside(d.mainRows, ids)
    case ExportCommitted(t, ids, st) =>
      && t !in d.dirs && Closure(d.vaultRows, ids)
      && (FilesGone(st) ==> NoneSealed(d, ids))
      && (st.SourceDatabaseDeleted? ==> Outside(d.vaultRows, ids))
    case ExportClosing(t, ids) => t !in d.dirs && Outside(d.vaultRows, ids)
    case DirectCommitted(t, ids) => Within(d.vaultRows, ids)
  }

  /** `kept` maps the assets we follow to their contents. */
  ghost predicate Followed(d: Disk, f: Flight, kept: map<AssetId, Content>) {
    forall a :: a in kept ==>
      || (a in d.vaultRows && a !in Leaving(f) && d.vaultRows[a].hash == kept[a] && d.vaultRows[a].purgeAfter.None?)
      || (MainCopy(d, a, kept[a]) && !(f.ImportCommitted? && a in f.ids))
  }

  ghost predicate SnapshotOk(rows: map<AssetId, Row>, ids: set<AssetId>, kept: map<AssetId, Content>) {
    && Within(rows, ids)
    && (forall id :: id in ids ==> !rows[id].lifecycle.Purging?)
    && (forall id :: id in ids && id in kept ==> rows[id].hash == kept[id] && rows[id].purgeAfter.None?)
  }

  ghost predicate StagingOk(d: Disk, pc: Pc)
    requires pc.Staging? && Within(pc.rows, pc.ids)
  {
    && (forall slot :: slot in pc.sources ==> slot.asset in pc.ids)
    && (forall id :: id in pc.ids ==> Slot(id, Original) in pc.sources)
    && (forall slot :: slot in pc.prepared ==> slot in pc.sources)
    && Named(pc.prepared)
    && (forall slot :: slot in pc.prepared ==>
          && Unused(d, pc.prepared[slot])
          && pc.prepared[slot] in d.staged && d.staged[pc.prepared[slot]].transfer == pc.transfer
          && d.staged[pc.prepared[slot]].file.Complete?
          && (slot.kind.Original? ==> d.staged[pc.prepared[slot]].file.content == pc.rows[slot.asset].hash))
    && (pc.open.Some? ==>
          && pc.transfer in d.dirs
          && Unused(d, pc.open.value) && pc.open.value.slot in pc.sources && pc.open.value.slot !in pc.prepared)
  }

  ghost predicate ImportingOk(d: Disk, f: Flight, pc: Pc)
    requires pc.Importing?
  {
    var t, ids := pc.transfer, pc.ids;
    if pc.direction.DirectIngest? then
      match pc.phase
      case Finalizing => f == DirectCommitted(t, ids)
      case Sweeping => f == DirectCommitted(t, ids) && AllSealed(d, ids)
      case Validating => f == DirectCommitted(t, ids) && AllSealed(d, ids)
      case DroppingDestination => f == DirectCommitted(t, ids) && AllSealed(d, ids)
      case FinalSweeping => f == Quiet
      case _ => false
    else
      match pc.phase
      case Finalizing => f == ImportCommitted(t, ids, pc.seen)
      case Sweeping => f == ImportCommitted(t, ids, pc.seen) && AllSealed(d, ids)
      case Validating => f == ImportCommitted(t, ids, pc.seen) && AllSealed(d, ids)
      case Readying => f == ImportCommitted(t, ids, Preparing) && pc.seen.Preparing? && AllSealed(d, ids)
      case Leasing => f == ImportCommitted(t, ids, DestinationReady) && !FilesGone(pc.seen)
      case Unlinking => f == ImportCommitted(t, ids, DestinationReady) && !FilesGone(pc.seen)
      case MarkingFiles =>
        f == ImportCommitted(t, ids, DestinationReady) && !FilesGone(pc.seen) && NoPlain(d, ids)
      case DeletingRows => f == ImportCommitted(t, ids, SourceFilesDeleted)
      case MarkingRows => f == ImportCommitted(t, ids, SourceFilesDeleted) && Outside(d.mainRows, ids)
      case DroppingDestination => f == ImportCommitted(t, ids, SourceDatabaseDeleted)
      case DroppingSource => f == ImportClosing(t, ids)
      case FinalSweeping => f == Quiet
  }

  ghost predicate ExportingOk(d: Disk, f: Flight, pc: Pc)
    requires pc.Exporting?
  {
    var t, ids := pc.transfer, pc.ids;
    match pc.at
    case Validating => f == ExportCommitted(t, ids, pc.seen)
    case Readying => f == ExportCommitted(t, ids, Preparing) && pc.seen.Preparing?
    case Leasing => f == ExportCommitted(t, ids, DestinationReady) && !FilesGone(pc.seen)
    case Unlinking => f == ExportCommitted(t, ids, DestinationReady) && !FilesGone(pc.seen)
    case MarkingFiles => f == ExportCommitted(t, ids, DestinationReady) && !FilesGone(pc.seen) && NoneSealed(d, ids)
    case DeletingRows => f == ExportCommitted(t, ids, SourceFilesDeleted)
    case MarkingRows => f == ExportCommitted(t, ids, SourceFilesDeleted) && Outside(d.vaultRows, ids)
    case DroppingDestination => f == ExportCommitted(t, ids, SourceDatabaseDeleted)
    case DroppingSource => f == ExportClosing(t, ids)
    case _ => false
  }

  ghost predicate WritingOk(d: Disk, pc: Pc)
    requires pc.Writing? && Within(pc.rows, pc.ids)
  {
    && (forall slot :: slot in pc.sources ==> slot.asset in pc.ids)
    && (forall id :: id in pc.ids ==> Slot(id, Original) in pc.sources)
    && pc.written <= pc.sources
    && (pc.current.Some? ==> pc.current.value in pc.sources && pc.current.value !in pc.written)
    && (forall id :: id in pc.ids && Slot(id, Original) in pc.written ==>
          Slot(id, Original) in d.plain && d.plain[Slot(id, Original)] == Complete(pc.rows[id].hash))
  }

  ghost predicate Control(s: System, f: Flight, kept: map<AssetId, Content>) {
    var d := s.disk;
    match s.pc
    case Idle => true
    case SweepingOrphans => true
    case Staging(t, direction, ids, rows, _, _, _) =>
      && SnapshotOk(rows, ids, kept) && StagingOk(d, s.pc)
      && (if direction.ImportDirection? then f == ImportOpen(t, ids)
          else direction.DirectIngest? && f == Quiet && forall id :: id in ids ==> id !in kept && id !in d.mainRows)
    case Aborting(t) => f == Quiet || ((f.ImportOpen? || f.ImportClosing?) && f.transfer == t)
    case Importing(_, _, _, _, _) => !s.pc.direction.ExportDirection? && ImportingOk(d, f, s.pc)
    case Writing(t, ids, rows, _, _, _) => f == ExportOpen(t, ids) && SnapshotOk(rows, ids, kept) && WritingOk(d, s.pc)
    case Unwriting(t, ids, leftover) => f == ExportOpen(t, ids) && forall slot :: slot in leftover ==> slot.asset in ids
    case RollingBack(t, ids) => f == ExportOpen(t, ids) || f == ExportClosing(t, ids)
    case Exporting(_, _, _, _) => ExportingOk(d, f, s.pc)
  }

  ghost predicate PurgeOk(s: System) {
    s.purge.Deleting? ==> s.purge.id in s.disk.mainRows && s.disk.mainRows[s.purge.id].lifecycle.Purging?
  }

  ghost predicate Inv(s: System, f: Flight, kept: map<AssetId, Content>) {
    && Records(s.disk, f)
    && Rows(s.disk, Shared(f), Arriving(f))
    && VaultIntact(s.disk, Leaving(f), Arriving(f))
    && Progress(s.disk, f)
    && Followed(s.disk, f, kept)
    && Control(s, f, kept)
    && PurgeOk(s)
  }

  /** Consequence: every followed asset has a copy a user can reach. */
  lemma InvGivesCopies(s: System, f: Flight, kept: map<AssetId, Content>)
    requires Inv(s, f, kept)
    ensures forall a :: a in kept ==> HasCopy(s.disk, a, kept[a])
  {
  }
}
