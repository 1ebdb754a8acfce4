/** `VaultHandle::open` and `reconcile_transfers` as programs over the atomic actions.

    Every change of the disk is one `Perform`, so the history of an object is a legal run and each
    state in between is a possible crash point.  Before every action the environment (the purge
    service and uploads to the main library) may act as it likes. */
module TransferService {
  import opened Basics
  import opened TransferModel
  import opened TransferInvariant
  import opened TransferSteps
  import opened TransferSafety
  import opened TransferDelivery
  import opened TransferLimits

  predicate Environment(a: Action) {
    a.PurgeStep? || a.Ingest?
  }

  /** No journal, no vault row and no local variable of the transfer names the asset. */
  ghost predicate Strange(s: System, id: AssetId) {
    && id !in s.disk.vaultRows
    && (forall t :: t in s.disk.mainJournal ==> id !in s.disk.mainJournal[t].ids)
    && (forall t :: t in s.disk.vaultJournal ==> id !in s.disk.vaultJournal[t].ids)
    && (s.pc.Importing? || s.pc.Exporting? || s.pc.RollingBack? ==> id !in s.pc.ids)
  }

  /** What the environment can change: main rows and plain files, and new ones only for strange assets. */
  ghost predicate EnvFrame(s: System, u: System) {
    && u == s.(disk := s.disk.(mainRows := u.disk.mainRows, plain := u.disk.plain), purge := u.purge)
    && (forall slot :: slot in u.disk.plain ==>
          (slot in s.disk.plain && u.disk.plain[slot] == s.disk.plain[slot]) || Strange(s, slot.asset))
    && (forall id :: id in u.disk.mainRows ==>
          (id in s.disk.mainRows && u.disk.mainRows[id].hash == s.disk.mainRows[id].hash) || Strange(s, id))
  }

  lemma PurgeFrame(s: System, a: PurgeAction)
    requires PurgeEnabled(s, a)
    ensures EnvFrame(s, PurgeApply(s, a))
  {
  }

  lemma IngestFrame(s: System, a: Action)
    requires a.Ingest? && Enabled(s, a)
    ensures EnvFrame(s, Apply(s, a))
  {
    assert Strange(s, a.id);
  }

  lemma EnvStep(s: System, a: Action)
    requires Enabled(s, a) && Environment(a)
    ensures EnvFrame(s, Apply(s, a))
  {
    hide StageEnabled, StageApply, ImportEnabled, ImportApply, ExportEnabled, ExportApply, PurgeEnabled, PurgeApply, EnvFrame;
    match a
    case PurgeStep(x) => PurgeFrame(s, x);
    case _ => IngestFrame(s, a);
  }

  lemma EnvFrameTransitive(s: System, u: System, v: System)
    requires EnvFrame(s, u) && EnvFrame(u, v)
    ensures EnvFrame(s, v)
  {
    forall id | Strange(u, id) ensures Strange(s, id) {}
  }

  /** No main row of these assets has come, and those still there have kept their contents. */
  predicate Undisturbed(d: Disk, e: Disk, ids: set<AssetId>) {
    forall id :: id in ids && id in e.mainRows ==> id in d.mainRows && e.mainRows[id].hash == d.mainRows[id].hash
  }

  predicate WholeIfVisible(d: Disk, ids: set<AssetId>) {
    forall id :: id in ids && Visible(d.mainRows, id) ==> Whole(d, id)
  }

  lemma EnvUndisturbs(s: System, u: System, ids: set<AssetId>)
    requires EnvFrame(s, u) && forall id :: id in ids ==> !Strange(s, id)
    ensures Undisturbed(s.disk, u.disk, ids)
  {
  }

  lemma ExportedIsKnown(s: System)
    ensures forall id :: id in Exported(s.disk) ==> !Strange(s, id)
  {
  }

  /** Any run of the purge service and of uploads stays within the frame. */
  lemma {:induction false} EnvRun(s: System, run: seq<Action>)
    requires Legal(s, run) && forall a :: a in run ==> Environment(a)
    ensures EnvFrame(s, Final(s, run))
    decreases |run|
  {
    if run != [] {
      assert run[0] in run;
      EnvStep(s, run[0]);
      assert forall a :: a in run[1..] ==> a in run;
      EnvRun(Apply(s, run[0]), run[1..]);
      EnvFrameTransitive(s, Apply(s, run[0]), Final(s, run));
    }
  }

  /** The journals of a reachable state fit one flight only. */
  lemma FlightOf(s: System, f: Flight, g: Flight)
    requires Records(s.disk, f) && Records(s.disk, g)
    ensures f == g
  {
    RecordsAt(f);
    RecordsAt(g);
  }

  lemma RecordsAt(f: Flight)
    ensures !f.Quiet? ==> f.transfer in MainRecords(f) || f.transfer in VaultRecords(f)
    ensures forall t :: t in MainRecords(f) || t in VaultRecords(f) ==> !f.Quiet? && t == f.transfer
    ensures !f.Quiet? && f.transfer in MainRecords(f) ==> MainRecords(f)[f.transfer].ids == f.ids
    ensures !f.Quiet? && f.transfer in VaultRecords(f) ==> VaultRecords(f)[f.transfer].ids == f.ids
  {
  }

  predicate SameJournals(d: Disk, e: Disk) {
    d.mainJournal == e.mainJournal && d.vaultJournal == e.vaultJournal
  }

  predicate SameVault(d: Disk, e: Disk) {
    d.vaultRows == e.vaultRows && d.blobs == e.blobs
  }

  // ----- what the invariant tells a program at each phase -----

  lemma CanFinalize(s: System, f: Flight, kept: map<AssetId, Content>, slot: Slot)
    requires Inv(s, f, kept) && AtPhase(s, Finalizing) && slot in s.disk.blobs && slot.asset in s.pc.ids
    ensures ImportEnabled(s, FinalizeBlob(slot))
  {
  }

  lemma CanValidate(s: System, f: Flight, kept: map<AssetId, Content>)
    requires Inv(s, f, kept) && AtPhase(s, Validating)
    ensures ImportEnabled(s, ValidateImport)
  {
    forall id | id in s.pc.ids
      ensures Visible(s.disk.vaultRows, id) && Slot(id, Original) in s.disk.blobs
      ensures s.disk.blobs[Slot(id, Original)] in s.disk.sealed
      ensures s.disk.sealed[s.disk.blobs[Slot(id, Original)]] == Complete(s.disk.vaultRows[id].hash)
    {
      assert id in s.disk.vaultRows && id !in Leaving(f);
    }
  }

  lemma CanLease(s: System, f: Flight, kept: map<AssetId, Content>)
    requires Inv(s, f, kept) && AtPhase(s, Leasing) && s.purge.PurgeIdle?
    ensures ImportEnabled(s, Lease)
  {
  }

  lemma PlainFilesGone(s: System, f: Flight, kept: map<AssetId, Content>)
    requires Inv(s, f, kept) && (AtPhase(s, DeletingRows) || (AtPhase(s, DroppingDestination) && s.pc.direction.ImportDirection?))
    ensures NoPlain(s.disk, s.pc.ids)
  {
    hide Rows, VaultIntact, Followed, StagingOk, WritingOk, SnapshotOk, ExportingOk;
  }

  lemma JournalsClear(s: System, f: Flight, kept: map<AssetId, Content>)
    requires Inv(s, f, kept) && AtPhase(s, FinalSweeping)
    ensures s.disk.mainJournal == map[] && s.disk.vaultJournal == map[]
  {
  }

  lemma CanLeaseVault(s: System, f: Flight, kept: map<AssetId, Content>)
    requires Inv(s, f, kept) && AtExport(s, Leasing)
    ensures ExportEnabled(s, LeaseVault)
  {
  }

  lemma ExportClosed(s: System, f: Flight, kept: map<AssetId, Content>)
    requires Inv(s, f, kept) && AtExport(s, DroppingSource)
    ensures Outside(s.disk.vaultRows, s.pc.ids) && Exported(s.disk) == s.pc.ids
    ensures s.disk.mainJournal == map[] && s.disk.vaultJournal.Keys == {s.pc.transfer}
  {
    ExportedIds(s.disk, f);
  }

  /** Before its transaction has committed, an export's assets are in the vault alone. */
  lemma CanRollBack(s: System, f: Flight, kept: map<AssetId, Content>, id: AssetId)
    requires Inv(s, f, kept) && s.pc.RollingBack? && id in s.pc.ids && id in s.disk.vaultRows
    ensures !Visible(s.disk.mainRows, id) && Visible(s.disk.vaultRows, id)
  {
  }

  /** What a roll-back leaves of an asset's plain files. */
  predicate Cleared(d: Disk, id: AssetId)
    requires id in d.vaultRows
  {
    && Slot(id, Thumbnail) !in d.plain && Slot(id, Preview) !in d.plain
    && (Slot(id, Original) in d.plain ==> d.plain[Slot(id, Original)] != Complete(d.vaultRows[id].hash))
  }

  /** A roll-back fails only where the export had committed and one of its rows is lost. */
  lemma RollsBackUnlessLost(s: System, f: Flight, kept: map<AssetId, Content>)
    requires Inv(s, f, kept) && s.pc.RollingBack?
    requires forall id :: id in s.pc.ids && id in s.disk.vaultRows ==> Cleared(s.disk, id)
    ensures s.disk.mainJournal == map[] && s.disk.vaultJournal.Keys == {s.pc.transfer} && Exported(s.disk) <= s.pc.ids
    ensures (forall id :: id in s.pc.ids ==> RolledBack(s.disk, id)) <==> ExportsVisible(s.disk)
  {
    if f.ExportClosing? {
      RolledBackIffVisible(s, f, kept);
    } else {
      NothingExported(s.disk, f);
      forall id | id in s.pc.ids ensures RolledBack(s.disk, id) { CanRollBack(s, f, kept, id); }
    }
  }

  // ----- the outcome of a recovery -----

  function ImportSources(d: Disk): set<TransferId> {
    set t | t in d.mainJournal && d.mainJournal[t].direction.ImportDirection? && d.mainJournal[t].role.Source?
  }

  function DirectRecords(d: Disk): set<TransferId> {
    set t | t in d.vaultJournal && d.vaultJournal[t].direction.DirectIngest? && d.vaultJournal[t].role.Destination?
  }

  /** The destination's transaction has committed: its record is there, or its clean-up removed it. */
  predicate ImportHappened(d: Disk, t: TransferId)
    requires t in ImportSources(d)
  {
    t in d.vaultJournal || d.mainJournal[t].state.SourceDatabaseDeleted?
  }

  /** No purge has marked or taken an asset of a committed export on record. */
  predicate ExportsVisible(d: Disk) {
    forall id :: id in Exported(d) ==> Visible(d.mainRows, id)
  }

  /** No scheduled purge can have done so, because none of them has a purge date. */
  predicate ExportsKept(d: Disk, kept: map<AssetId, Content>) {
    Exported(d) <= kept.Keys
  }

  /** No purge took an exported row that was visible before. */
  predicate Spared(before: Disk, after: Disk) {
    forall id :: id in Exported(before) && Visible(before.mainRows, id) ==> Visible(after.mainRows, id)
  }

  /** Whole in the vault and nowhere else. */
  ghost predicate OnlyInVault(d: Disk, ids: set<AssetId>) {
    ImportValid(d, ids) && Outside(d.mainRows, ids)
  }

  ghost predicate Clean(d: Disk) {
    d.mainJournal == map[] && d.vaultJournal == map[] && d.staged == map[] && d.dirs == {}
  }

  ghost predicate ImportSettled(before: Disk, after: Disk, kept: map<AssetId, Content>, t: TransferId)
    requires t in ImportSources(before)
  {
    var ids := before.mainJournal[t].ids;
    if ImportHappened(before, t) then OnlyInVault(after, ids) && NoPlain(after, ids)
    else Outside(after.vaultRows, ids) && forall id :: id in ids && id in kept ==> MainCopy(after, id, kept[id])
  }

  /** The asset had its row, and is whole with that row's content for as long as no purge takes it. */
  predicate Arrived(before: Disk, after: Disk, id: AssetId) {
    && id in before.mainRows
    && (Visible(after.mainRows, id) ==> Whole(after, id) && after.mainRows[id].hash == before.mainRows[id].hash)
  }

  ghost predicate ExportSettled(before: Disk, after: Disk, kept: map<AssetId, Content>, t: TransferId)
    requires t in ExportSources(before)
  {
    var ids := before.vaultJournal[t].ids;
    if ExportHappened(before, t) then
      Outside(after.vaultRows, ids) && forall id :: id in ids ==> Arrived(before, after, id) && (id in kept ==> MainCopy(after, id, kept[id]))
    else OnlyInVault(after, ids)
  }

  /** Every transfer on record in `before` has come to one side in `after`. */
  ghost predicate Settled(before: Disk, after: Disk, kept: map<AssetId, Content>) {
    && (forall t :: t in ImportSources(before) ==> ImportSettled(before, after, kept, t))
    && (forall t :: t in ExportSources(before) ==> ExportSettled(before, after, kept, t))
    && (forall t :: t in DirectRecords(before) ==> OnlyInVault(after, before.vaultJournal[t].ids))
    // No other vault row comes, goes or changes: an uncommitted ingest leaves nothing behind.
    && (forall a :: a in after.vaultRows ==> a in before.vaultRows && after.vaultRows[a] == before.vaultRows[a])
    && (forall a :: a in before.vaultRows && a !in after.vaultRows ==> a in Exported(before))
  }

  /** What a caller learns when no purge interferes: each exported asset is in main alone, visible and whole. */
  lemma SettledExports(before: Disk, after: Disk, kept: map<AssetId, Content>)
    requires Settled(before, after, kept) && Spared(before, after) && ExportsVisible(before)
    ensures forall id :: id in Exported(before) ==>
      id !in after.vaultRows && Visible(after.mainRows, id) && Whole(after, id) && after.mainRows[id].hash == before.mainRows[id].hash
  {
    forall id | id in Exported(before) ensures id !in after.vaultRows && Arrived(before, after, id) {
      var t :| t in ExportSources(before) && ExportHappened(before, t) && id in before.vaultJournal[t].ids;
      assert ExportSettled(before, after, kept, t);
    }
  }

  /** The vault rows that reconciling the export `t` leaves. */
  predicate VaultRowsAfter(before: Disk, after: Disk, t: TransferId)
    requires t in ExportSources(before)
  {
    after.vaultRows == if ExportHappened(before, t) then RemoveIds(before.vaultRows, before.vaultJournal[t].ids) else before.vaultRows
  }

  lemma SameReconciliation(d: Disk, e: Disk, after: Disk)
    requires SameJournals(d, e) && SameVault(d, e) && forall t :: t in ExportSources(e) ==> VaultRowsAfter(e, after, t)
    ensures Exported(e) == Exported(d) && ExportSources(e) == ExportSources(d)
    ensures forall t :: t in ExportSources(d) ==> VaultRowsAfter(d, after, t)
  {
    SameExports(d, e);
  }

  lemma SparedAreLostBefore(before: Disk, after: Disk)
    requires SameJournals(before, after) && !ExportsVisible(after) && Spared(before, after)
    ensures !ExportsVisible(before)
  {
    SameExports(before, after);
    hide Exported;
  }

  lemma AllArrived(before: Disk, mid: Disk, after: Disk)
    requires ExportsVisible(before) && Undisturbed(before, mid, Exported(before)) && Undisturbed(mid, after, Exported(before))
    requires WholeIfVisible(after, Exported(before))
    ensures forall id :: id in Exported(before) ==> Arrived(before, after, id)
  {
    hide Exported;
  }

  lemma NoSourceNoExport(d: Disk)
    ensures ExportSources(d) == {} ==> Exported(d) == {}
  {
  }

  lemma OneFlight(s: System, f: Flight, kept: map<AssetId, Content>)
    requires Inv(s, f, kept)
    ensures forall t, u :: t in ImportSources(s.disk) && u in ImportSources(s.disk) ==> t == u
    ensures forall t, u :: t in ExportSources(s.disk) && u in ExportSources(s.disk) ==> t == u
    ensures forall t, u :: t in DirectRecords(s.disk) && u in DirectRecords(s.disk) ==> t == u
  {
    RecordsAt(f);
  }

  lemma ImportFlight(s: System, f: Flight, kept: map<AssetId, Content>, t: TransferId)
    requires Inv(s, f, kept) && t in ImportSources(s.disk)
    ensures f.ImportOpen? || f.ImportCommitted? || f.ImportClosing?
    ensures f.transfer == t && f.ids == s.disk.mainJournal[t].ids
    ensures s.disk.mainJournal.Keys == {t} && s.disk.vaultJournal.Keys <= {t}
    ensures t in s.disk.vaultJournal <==> f.ImportCommitted?
    ensures t in s.disk.vaultJournal ==> s.disk.vaultJournal[t] == Journal(ImportDirection, Destination, f.ids, DestinationReady)
    ensures f.ImportClosing? ==> NoPlain(s.disk, f.ids) && Within(s.disk.vaultRows, f.ids)
    ensures ImportHappened(s.disk, t) <==> !f.ImportOpen?
  {
    RecordsAt(f);
  }

  lemma ExportRecord(d: Disk, f: Flight)
    requires Records(d, f)
    ensures Exported(d) == if f.ExportCommitted? || f.ExportClosing? then f.ids else {}
  {
    if f.ExportCommitted? || f.ExportClosing? { ExportedIds(d, f); } else { NothingExported(d, f); }
  }

  lemma ExportFlight(s: System, f: Flight, kept: map<AssetId, Content>, t: TransferId)
    requires Inv(s, f, kept) && t in ExportSources(s.disk)
    ensures f.ExportOpen? || f.ExportCommitted? || f.ExportClosing?
    ensures f.transfer == t && f.ids == s.disk.vaultJournal[t].ids
    ensures s.disk.vaultJournal.Keys == {t} && s.disk.mainJournal.Keys <= {t}
    ensures t in s.disk.mainJournal <==> f.ExportCommitted?
    ensures t in s.disk.mainJournal ==> s.disk.mainJournal[t] == Journal(ExportDirection, Destination, f.ids, DestinationReady)
    ensures f.ExportClosing? ==> Outside(s.disk.vaultRows, f.ids)
    ensures f.ExportOpen? ==> Within(s.disk.vaultRows, f.ids)
    ensures ExportHappened(s.disk, t) <==> !f.ExportOpen?
    ensures t !in s.disk.dirs
    ensures Exported(s.disk) == if f.ExportOpen? then {} else f.ids
  {
    RecordsAt(f);
    ExportRecord(s.disk, f);
  }

  /** A source record or a direct ingest is all that a flight leaves in the journals. */
  lemma JournalledFlight(s: System, f: Flight, kept: map<AssetId, Content>)
    requires Inv(s, f, kept)
    ensures ImportSources(s.disk) == {} && ExportSources(s.disk) == {} && DirectRecords(s.disk) == {} ==>
      s.disk.mainJournal == map[] && s.disk.vaultJournal == map[]
    ensures forall t :: t in ExportSources(s.disk) ==>
      ImportSources(s.disk) == {} && DirectRecords(s.disk) == {} && s.disk.vaultJournal.Keys <= {t} && t !in s.disk.dirs
    ensures forall t :: t in ImportSources(s.disk) ==>
      ExportSources(s.disk) == {} && DirectRecords(s.disk) == {} && s.disk.vaultJournal.Keys <= {t}
    ensures forall t :: t in DirectRecords(s.disk) ==>
      ExportSources(s.disk) == {} && ImportSources(s.disk) == {} && s.disk.vaultJournal.Keys <= {t}
  {
    RecordsAt(f);
    if !f.Quiet? {
      assert f.transfer in ImportSources(s.disk) || f.transfer in ExportSources(s.disk) || f.transfer in DirectRecords(s.disk);
    }
  }

  lemma WholeInVault(s: System, kept: map<AssetId, Content>, ids: set<AssetId>)
    requires Inv(s, Quiet, kept) && Within(s.disk.vaultRows, ids)
    ensures OnlyInVault(s.disk, ids)
  {
    forall id | id in ids
      ensures Visible(s.disk.vaultRows, id) && Slot(id, Original) in s.disk.blobs
      ensures s.disk.blobs[Slot(id, Original)] in s.disk.sealed
      ensures s.disk.sealed[s.disk.blobs[Slot(id, Original)]] == Complete(s.disk.vaultRows[id].hash)
    {
      assert id in s.disk.vaultRows && id !in Leaving(Quiet);
    }
  }

  lemma CopyInMain(s: System, kept: map<AssetId, Content>, ids: set<AssetId>)
    requires Inv(s, Quiet, kept) && Outside(s.disk.vaultRows, ids)
    ensures forall id :: id in ids && id in kept ==> MainCopy(s.disk, id, kept[id])
  {
  }

  lemma ImportSettles(s: System, f: Flight, u: System, kept: map<AssetId, Content>, t: TransferId)
    requires Inv(s, f, kept) && Inv(u, Quiet, kept) && t in ImportSources(s.disk) && u.disk.vaultRows == s.disk.vaultRows
    requires ImportHappened(s.disk, t) ==> NoPlain(u.disk, s.disk.mainJournal[t].ids)
    ensures ImportSettled(s.disk, u.disk, kept, t)
  {
    hide Rows, VaultIntact, Followed, Control;
    ImportFlight(s, f, kept, t);
    if ImportHappened(s.disk, t) { WholeInVault(u, kept, f.ids); } else { CopyInMain(u, kept, f.ids); }
  }

  lemma ExportSettles(s: System, f: Flight, u: System, kept: map<AssetId, Content>, t: TransferId)
    requires Inv(s, f, kept) && Inv(u, Quiet, kept) && t in ExportSources(s.disk)
    requires forall id :: id in Exported(s.disk) ==> Arrived(s.disk, u.disk, id)
    requires VaultRowsAfter(s.disk, u.disk, t)
    ensures ExportSettled(s.disk, u.disk, kept, t)
  {
    hide Rows, VaultIntact, Followed, Control, Arrived;
    ExportFlight(s, f, kept, t);
    assert ExportHappened(s.disk, t) ==> f.ids <= Exported(s.disk);
    if ExportHappened(s.disk, t) { CopyInMain(u, kept, f.ids); } else { WholeInVault(u, kept, f.ids); }
  }

  lemma DirectSettles(s: System, f: Flight, u: System, kept: map<AssetId, Content>, t: TransferId)
    requires Inv(s, f, kept) && Inv(u, Quiet, kept) && t in DirectRecords(s.disk) && u.disk.vaultRows == s.disk.vaultRows
    ensures OnlyInVault(u.disk, s.disk.vaultJournal[t].ids)
  {
    RecordsAt(f);
    WholeInVault(u, kept, f.ids);
  }

  lemma RowsSettle(d: Disk, e: Disk)
    requires forall t :: t in ExportSources(d) ==> VaultRowsAfter(d, e, t)
    requires ExportSources(d) == {} ==> e.vaultRows == d.vaultRows
    ensures forall a :: a in e.vaultRows ==> a in d.vaultRows && e.vaultRows[a] == d.vaultRows[a]
    ensures forall a :: a in d.vaultRows && a !in e.vaultRows ==> a in Exported(d)
  {
    if t :| t in ExportSources(d) {}
  }

  lemma QuietNow(s: System, f: Flight, kept: map<AssetId, Content>)
    requires Inv(s, f, kept) && s.disk.mainJournal == map[] && s.disk.vaultJournal == map[]
    ensures f == Quiet
  {
    NoRecords(f);
  }

  lemma RecoverySettles(s: System, f: Flight, u: System, g: Flight, kept: map<AssetId, Content>)
    requires Inv(s, f, kept) && Inv(u, g, kept) && forall id :: id in Exported(s.disk) ==> Arrived(s.disk, u.disk, id)
    requires u.disk.mainJournal == map[] && u.disk.vaultJournal == map[]
    requires forall t :: t in ImportSources(s.disk) && ImportHappened(s.disk, t) ==> NoPlain(u.disk, s.disk.mainJournal[t].ids)
    requires forall t :: t in ExportSources(s.disk) ==> VaultRowsAfter(s.disk, u.disk, t)
    requires ExportSources(s.disk) == {} ==> u.disk.vaultRows == s.disk.vaultRows
    ensures Settled(s.disk, u.disk, kept)
  {
    hide Inv, VaultRowsAfter;
    QuietNow(u, g, kept);
    JournalledFlight(s, f, kept);
    RowsSettle(s.disk, u.disk);
    hide ImportSettled, ExportSettled, OnlyInVault, Arrived, Exported, RemoveIds, NoPlain;
    forall t | t in ImportSources(s.disk) ensures ImportSettled(s.disk, u.disk, kept, t) { ImportSettles(s, f, u, kept, t); }
    forall t | t in ExportSources(s.disk) ensures ExportSettled(s.disk, u.disk, kept, t) { ExportSettles(s, f, u, kept, t); }
    forall t | t in DirectRecords(s.disk) ensures OnlyInVault(u.disk, s.disk.vaultJournal[t].ids) { DirectSettles(s, f, u, kept, t); }
  }

  lemma StagingEmpty(s: System, f: Flight, kept: map<AssetId, Content>)
    requires Inv(s, f, kept) && s.disk.dirs == {}
    ensures s.disk.staged == map[]
  {
  }

  /** A staging directory that the vault's journal names belongs to an import or to a direct ingest. */
  lemma NoStrayDir(s: System, f: Flight, kept: map<AssetId, Content>, t: TransferId)
    requires Inv(s, f, kept) && t in s.disk.dirs && t in s.disk.vaultJournal
    ensures t in ImportSources(s.disk) || t in DirectRecords(s.disk)
  {
    RecordsAt(f);
  }

  /** An asset without a purge date is never lost. */
  lemma KeptStaysVisible(s: System, f: Flight, kept: map<AssetId, Content>)
    requires Inv(s, f, kept)
    ensures ExportsKept(s.disk, kept) ==> ExportsVisible(s.disk)
  {
    if f.ExportCommitted? || f.ExportClosing? {
      ExportedIds(s.disk, f);
    } else {
      NothingExported(s.disk, f);
    }
  }

  lemma {:induction false} LegalSplit(s: System, run: seq<Action>, k: nat)
    requires Legal(s, run) && k <= |run|
    ensures Legal(s, run[..k]) && Legal(Final(s, run[..k]), run[k..]) && Final(s, run) == Final(Final(s, run[..k]), run[k..])
    decreases k
  {
    if k == 0 {
      assert run[..0] == [] && run[0..] == run;
    } else {
      LegalSplit(Apply(s, run[0]), run[1..], k - 1);
      assert run[..k][1..] == run[1..][..k - 1] && run[k..] == run[1..][k - 1..];
    }
  }

  /** Only from a state with all exported rows visible can the journals ever be emptied. */
  lemma ClosedWasVisible(start: System, before: seq<Action>, after: seq<Action>, f: Flight, kept: map<AssetId, Content>)
    requires Legal(start, before) && Legal(start, after) && before <= after
    requires Inv(Final(start, before), f, kept) && Delivered(Final(start, before).disk) && Final(start, before).pc.Idle?
    requires Final(start, after).disk.vaultJournal == map[]
    ensures ExportsVisible(Final(start, before).disk)
  {
    hide Legal, Final, Inv, Delivered, Exported;
    LegalSplit(start, after, |before|);
    assert after[..|before|] == before;
    var s := Final(start, before);
    forall id | id in Exported(s.disk) ensures Visible(s.disk.mainRows, id) {
      if !Visible(s.disk.mainRows, id) { BlockedForEver(s, after[|before|..], f, kept, id); }
    }
  }

  class Store {
    var disk: Disk
    var pc: Pc
    var purge: PurgePc

    ghost const start: System
    ghost const kept: map<AssetId, Content>
    ghost var history: seq<Action>

    function Sys(): System
      reads this
    {
      System(disk, pc, purge)
    }

    /** The object's state is where its history leads from a system at rest. */
    ghost predicate Valid()
      reads this
    {
      AtRest(start, kept) && Legal(start, history) && Sys() == Final(start, history)
    }

    /** The journals of a reachable state fit one flight, and the invariant holds for it. */
    lemma Flying() returns (f: Flight)
      requires Valid()
      ensures Inv(Sys(), f, kept)
    {
      AtRestInv(start, kept);
      f := RunKeeps(start, history, Quiet, kept);
    }

    lemma Delivering()
      requires Valid()
      ensures Delivered(disk)
    {
      AtRestInv(start, kept);
      RestDelivers(start, kept);
      RunDelivers(start, history, Quiet, kept);
    }

    method Perform(a: Action)
      requires Valid() && Enabled(Sys(), a)
      modifies this
      ensures Valid() && old(history) <= history
      ensures Sys() == Apply(old(Sys()), a)
    {
      LegalAppend(start, history, a);
      var u := Apply(System(disk, pc, purge), a);
      disk, pc, purge := u.disk, u.pc, u.purge;
      history := history + [a];
    }

    method PerformImport(x: ImportAction)
      requires Valid() && ImportEnabled(Sys(), x)
      modifies this
      ensures Valid() && old(history) <= history
      ensures Sys() == ImportApply(old(Sys()), x)
    {
      hide AtRest, Legal, Final, ImportEnabled, ImportApply;
      Perform(ImportStep(x));
    }

    method PerformExport(x: ExportAction)
      requires Valid() && ExportEnabled(Sys(), x)
      modifies this
      ensures Valid() && old(history) <= history
      ensures Sys() == ExportApply(old(Sys()), x)
    {
      hide AtRest, Legal, Final, ExportEnabled, ExportApply;
      Perform(ExportStep(x));
    }

    /** The environment acts, then leaves the main database unlocked.  Callers know no more than the
        contract: whatever legal run of environment actions may have happened. */
    method Interfere()
      requires Valid()
      modifies this
      ensures Valid() && old(history) <= history
      ensures EnvFrame(old(Sys()), Sys()) && purge.PurgeIdle?
      ensures pc == old(pc) && disk == old(disk).(mainRows := disk.mainRows, plain := disk.plain)
      ensures pc.Exporting? || pc.RollingBack? ==> Undisturbed(old(disk), disk, pc.ids)
    {
      if purge.Deleting? {
        EnvStep(Sys(), PurgeStep(GiveUpPurge));
        Perform(PurgeStep(GiveUpPurge));
      }
    }

    // ----- remove_transfer_staging -----

    method RemoveTransferStaging(t: TransferId)
      requires Valid() && MaySweep(Sys(), t)
      modifies this
      ensures Valid() && old(history) <= history
      ensures EnvFrame(old(Sys()), System(disk.(staged := old(disk.staged), dirs := old(disk.dirs)), pc, purge))
      ensures disk.dirs == old(disk.dirs) - {t}
    {
      hide AtRest, Legal, Final;
      var todo := set b | b in disk.staged && disk.staged[b].transfer == t;
      while todo != {}
        invariant Valid() && old(history) <= history
        invariant EnvFrame(old(Sys()), System(disk.(staged := old(disk.staged)), pc, purge))
        invariant todo == set b | b in disk.staged && disk.staged[b].transfer == t
        decreases todo
      {
        ghost var before := Sys();
        Interfere();
        EnvFrameTransitive(old(Sys()), before.(disk := before.disk.(staged := old(disk.staged))),
                           System(disk.(staged := old(disk.staged)), pc, purge));
        var b :| b in todo;
        PerformImport(RemoveStaged(b));
        todo := todo - {b};
      }
      forall b | b in disk.staged ensures disk.staged[b].transfer != t { assert b !in todo; }
      PerformImport(RemoveDir(t));
    }

    // ----- finalize_import_files -----

    method FinalizeImportFiles()
      requires Valid() && AtPhase(Sys(), Finalizing)
      modifies this
      ensures Valid() && old(history) <= history
      ensures pc == old(pc).(phase := Validating)
      ensures SameVault(old(disk), disk) && disk.dirs == old(disk.dirs) - {pc.transfer}
    {
      hide AtRest, Legal, Final, Inv, ExportEnabled, ExportApply, StageEnabled, StageApply, PurgeEnabled, PurgeApply, ImportValid;
      var todo := SlotsOf(disk.blobs, pc.ids);
      while todo != {}
        invariant Valid() && old(history) <= history
        invariant pc == old(pc) && SameVault(old(disk), disk) && disk.dirs == old(disk.dirs)
        invariant todo <= SlotsOf(disk.blobs, pc.ids)
        invariant forall slot :: slot in disk.blobs && slot.asset in pc.ids && slot !in todo ==> disk.blobs[slot] in disk.sealed
        decreases todo
      {
        Interfere();
        var slot :| slot in todo;
        ghost var f := Flying();
        CanFinalize(Sys(), f, kept, slot);
        PerformImport(FinalizeBlob(slot));
        todo := todo - {slot};
      }
      PerformImport(FinalizeDone);
      RemoveTransferStaging(pc.transfer);
      PerformImport(SweepDone);
    }

    // ----- complete_import_transfer and complete_direct_ingest -----

    method ValidateImportDestination()
      requires Valid() && AtPhase(Sys(), Validating)
      modifies this
      ensures Valid() && old(history) <= history
      ensures pc == old(pc).(phase := AfterValidate(old(pc).direction, old(pc).seen))
      ensures SameVault(old(disk), disk) && disk.dirs == old(disk.dirs)
    {
      hide AtRest, Legal, Final, Inv, EnvFrame;
      Interfere();
      ghost var f := Flying();
      CanValidate(Sys(), f, kept);
      PerformImport(ValidateImport);
    }

    method MarkDestinationReady()
      requires Valid() && AtPhase(Sys(), Readying)
      modifies this
      ensures Valid() && old(history) <= history
      ensures pc == old(pc).(phase := AfterReady(old(pc).seen))
      ensures SameVault(old(disk), disk) && disk.dirs == old(disk.dirs)
    {
      hide AtRest, Legal, Final, Inv, ImportValid, EnvFrame;
      Interfere();
      PerformImport(MarkReady);
    }

    method LeaseAndUnlink()
      requires Valid() && AtPhase(Sys(), Leasing)
      modifies this
      ensures Valid() && old(history) <= history
      ensures pc == old(pc).(phase := AfterFiles(old(pc).seen))
      ensures SameVault(old(disk), disk) && disk.dirs == old(disk.dirs)
    {
      hide AtRest, Legal, Final, Inv, ImportValid, EnvFrame, Undisturbed;
      Interfere();
      ghost var f := Flying();
      CanLease(Sys(), f, kept);
      PerformImport(Lease);
      UnlinkPlainFiles();
      Interfere();
      PerformImport(MarkFilesDeleted);
    }

    /** `delete_plain_source_files`. */
    method UnlinkPlainFiles()
      requires Valid() && AtPhase(Sys(), Unlinking)
      modifies this
      ensures Valid() && old(history) <= history
      ensures pc == old(pc).(phase := MarkingFiles)
      ensures SameVault(old(disk), disk) && disk.dirs == old(disk.dirs)
    {
      hide AtRest, Legal, Final, Inv, ImportValid;
      var todo := SlotsOf(disk.plain, pc.ids);
      while todo != {}
        invariant Valid() && old(history) <= history
        invariant pc == old(pc)
        invariant SameVault(old(disk), disk) && disk.dirs == old(disk.dirs)
        invariant SlotsOf(disk.plain, pc.ids) <= todo
        invariant forall slot :: slot in todo ==> slot.asset in pc.ids
        decreases todo
      {
        Interfere();
        var slot :| slot in todo;
        PerformImport(UnlinkPlain(slot));
        todo := todo - {slot};
      }
      PerformImport(UnlinkDone);
    }

    /** The journal records go last: destination, then source. */
    method DropImportRecords()
      requires Valid() && AtPhase(Sys(), DroppingDestination)
      modifies this
      ensures Valid() && old(history) <= history
      ensures pc == old(pc).(phase := FinalSweeping)
      ensures SameVault(old(disk), disk) && disk.dirs == old(disk.dirs)
      ensures disk.mainJournal == map[] && disk.vaultJournal == map[]
      ensures pc.direction.ImportDirection? ==> NoPlain(disk, pc.ids)
    {
      hide AtRest, Legal, Final, Inv, ImportValid;
      Interfere();
      ghost var f := Flying();
      if pc.direction.ImportDirection? {
        PlainFilesGone(Sys(), f, kept);
      }
      PerformImport(DropDestination);
      if pc.phase == DroppingSource {
        Interfere();
        PerformImport(DropSource);
      }
      f := Flying();
      JournalsClear(Sys(), f, kept);
    }

    method CloseImport()
      requires Valid() && AtPhase(Sys(), DroppingDestination)
      modifies this
      ensures Valid() && old(history) <= history && pc.Idle?
      ensures disk.mainJournal == map[] && disk.vaultJournal == map[]
      ensures SameVault(old(disk), disk) && disk.dirs == old(disk.dirs) - {old(pc).transfer}
      ensures old(pc).direction.ImportDirection? ==> NoPlain(disk, old(pc).ids)
    {
      hide AtRest, Legal, Final, Inv, ImportValid;
      DropImportRecords();
      RemoveTransferStaging(pc.transfer);
      PerformImport(FinishImport);
    }

    method DeleteMainRows()
      requires Valid() && AtPhase(Sys(), DeletingRows)
      modifies this
      ensures Valid() && old(history) <= history
      ensures pc == old(pc).(phase := DroppingDestination)
      ensures SameVault(old(disk), disk) && disk.dirs == old(disk.dirs)
    {
      hide AtRest, Legal, Final, Inv, ImportValid, EnvFrame;
      Interfere();
      PerformImport(DeleteRows);
      Interfere();
      PerformImport(MarkRowsDeleted);
    }

    /** Resumable from every recorded state. */
    method CompleteImport()
      requires Valid() && AtPhase(Sys(), Finalizing)
      modifies this
      ensures Valid() && old(history) <= history && pc.Idle?
      ensures disk.mainJournal == map[] && disk.vaultJournal == map[]
      ensures SameVault(old(disk), disk) && disk.dirs == old(disk.dirs) - {old(pc).transfer}
      ensures old(pc).direction.ImportDirection? ==> NoPlain(disk, old(pc).ids)
    {
      hide AtRest, Legal, Final, Inv, ImportValid, EnvFrame, Apply, ImportEnabled, ImportApply;
      FinalizeImportFiles();
      ValidateImportDestination();
      if pc.phase == Readying {
        MarkDestinationReady();
      }
      if pc.phase == Leasing {
        LeaseAndUnlink();
      }
      if pc.phase == DeletingRows {
        DeleteMainRows();
      }
      CloseImport();
    }

    /** The destination record is missing: the import never committed, or its clean-up had begun. */
    method AbortImport()
      requires Valid() && pc.Aborting?
      modifies this
      ensures Valid() && old(history) <= history && pc.Idle?
      ensures EnvFrame(old(Sys()), System(disk.(dirs := old(disk.dirs), staged := old(disk.staged),
                                                mainJournal := old(disk.mainJournal)), old(pc), purge))
      ensures disk.dirs == old(disk.dirs) - {old(pc).transfer}
      ensures disk.mainJournal == old(disk.mainJournal) - {old(pc).transfer}
    {
      hide AtRest, Legal, Final, Inv, ImportValid;
      RemoveTransferStaging(pc.transfer);
      ghost var before := Sys();
      Interfere();
      EnvFrameTransitive(old(Sys()),
        System(before.disk.(staged := old(disk.staged), dirs := old(disk.dirs)), before.pc, before.purge),
        System(disk.(staged := old(disk.staged), dirs := old(disk.dirs)), pc, purge));
      Perform(StageStep(DropAborted));
    }

    // ----- complete_export_transfer -----

    /** Fails when a purge has marked or taken an exported row, and then the transfer stays on record. */
    method ValidateExportDestination() returns (ok: bool)
      requires Valid() && AtExport(Sys(), Validating)
      modifies this
      ensures Valid() && old(history) <= history
      ensures Undisturbed(old(disk), disk, old(pc).ids) && SameVault(old(disk), disk) && disk.dirs == old(disk.dirs)
      ensures ok ==> pc == old(pc).(at := AfterValidate(ExportDirection, old(pc).seen))
      ensures !ok ==> pc.Idle? && SameJournals(old(disk), disk) && !ExportsVisible(disk)
    {
      hide AtRest, Legal, Final, Inv, Delivered, Exported, EnvFrame;
      Interfere();
      ghost var f := Flying();
      Delivering();
      ValidIffVisible(Sys(), f, kept);
      ok := ExportValid(disk, pc.ids);
      hide ExportValid;
      if ok {
        PerformExport(ValidateExport);
      } else {
        Perform(GiveUp);
      }
    }

    method UnlinkBlob(slot: Slot)
      requires Valid() && AtExport(Sys(), Unlinking) && slot in disk.blobs && slot.asset in pc.ids
      modifies this
      ensures Valid() && old(history) <= history
      ensures pc == old(pc) && SameVault(old(disk), disk) && disk.dirs == old(disk.dirs) && Undisturbed(old(disk), disk, pc.ids)
      ensures disk.sealed == old(disk.sealed) - {disk.blobs[slot]}
    {
      hide AtRest, Legal, Final, Inv, EnvFrame;
      Interfere();
      PerformExport(ExportAction.UnlinkBlob(slot));
    }

    method UnlinkBlobs()
      requires Valid() && AtExport(Sys(), Unlinking)
      modifies this
      ensures Valid() && old(history) <= history
      ensures pc == old(pc).(at := MarkingFiles)
      ensures disk.vaultRows == old(disk.vaultRows) && disk.dirs == old(disk.dirs)
      ensures Undisturbed(old(disk), disk, pc.ids)
    {
      hide AtRest, Legal, Final, Inv;
      var todo := SlotsOf(disk.blobs, pc.ids);
      while todo != {}
        invariant Valid() && old(history) <= history
        invariant pc == old(pc) && SameVault(old(disk), disk) && disk.dirs == old(disk.dirs)
        invariant Undisturbed(old(disk), disk, pc.ids)
        invariant todo <= SlotsOf(disk.blobs, pc.ids)
        invariant forall slot :: slot in disk.blobs && slot.asset in pc.ids && slot !in todo ==> disk.blobs[slot] !in disk.sealed
        decreases todo
      {
        var slot :| slot in todo;
        UnlinkBlob(slot);
        todo := todo - {slot};
      }
      PerformExport(UnlinkBlobsDone);
    }

    method LeaseRowsInVault()
      requires Valid() && AtExport(Sys(), Leasing)
      modifies this
      ensures Valid() && old(history) <= history
      ensures pc == old(pc).(at := Unlinking)
      ensures disk.vaultRows == LeaseRows(old(disk.vaultRows), pc.ids) && disk.dirs == old(disk.dirs)
      ensures Undisturbed(old(disk), disk, pc.ids)
    {
      hide AtRest, Legal, Final, Inv, EnvFrame, Closure, LeaseRows;
      Interfere();
      ghost var f := Flying();
      CanLeaseVault(Sys(), f, kept);
      PerformExport(LeaseVault);
    }

    method LeaseVaultAndUnlink()
      requires Valid() && AtExport(Sys(), Leasing)
      modifies this
      ensures Valid() && old(history) <= history
      ensures pc == old(pc).(at := AfterFiles(old(pc).seen))
      ensures disk.vaultRows == LeaseRows(old(disk.vaultRows), pc.ids) && disk.dirs == old(disk.dirs)
      ensures Undisturbed(old(disk), disk, pc.ids)
    {
      hide AtRest, Legal, Final, Inv, EnvFrame, Closure, LeaseRows;
      LeaseRowsInVault();
      UnlinkBlobs();
      Interfere();
      PerformExport(MarkBlobsDeleted);
    }

    method DropExportRecords()
      requires Valid() && AtExport(Sys(), DroppingDestination)
      modifies this
      ensures Valid() && old(history) <= history && pc.Idle?
      ensures disk.vaultRows == old(disk.vaultRows) && disk.dirs == old(disk.dirs)
      ensures disk.mainJournal == map[] && disk.vaultJournal == map[]
      ensures Outside(disk.vaultRows, old(pc).ids)
      ensures Undisturbed(old(disk), disk, old(pc).ids) && WholeIfVisible(disk, old(pc).ids)
    {
      hide AtRest, Legal, Final, Inv, ExportValid, Exported, EnvFrame;
      Interfere();
      PerformExport(DropExportDestination);
      Interfere();
      ghost var f := Flying();
      ExportClosed(Sys(), f, kept);
      Delivering();
      PerformExport(DropExportSource);
    }

    method DeleteExportedRows()
      requires Valid() && AtExport(Sys(), DeletingRows)
      modifies this
      ensures Valid() && old(history) <= history
      ensures pc == old(pc).(at := DroppingDestination)
      ensures disk.vaultRows == RemoveIds(old(disk.vaultRows), pc.ids) && disk.dirs == old(disk.dirs)
      ensures Undisturbed(old(disk), disk, pc.ids)
    {
      hide AtRest, Legal, Final, Inv, ExportValid, EnvFrame;
      Interfere();
      PerformExport(DeleteVaultRows);
      Interfere();
      PerformExport(MarkVaultRowsDeleted);
    }

    /** From validation on nothing more is asked of the main library. */
    method CompleteExport() returns (ok: bool)
      requires Valid() && AtExport(Sys(), Validating)
      modifies this
      ensures Valid() && old(history) <= history && pc.Idle? && disk.dirs == old(disk.dirs)
      ensures Undisturbed(old(disk), disk, old(pc).ids)
      ensures ok ==>
        && disk.mainJournal == map[] && disk.vaultJournal == map[]
        && disk.vaultRows == RemoveIds(old(disk.vaultRows), old(pc).ids) && WholeIfVisible(disk, old(pc).ids)
      ensures !ok ==> SameJournals(old(disk), disk) && SameVault(old(disk), disk) && !ExportsVisible(disk)
    {
      hide AtRest, Legal, Final, Inv, ExportValid, Exported, EnvFrame;
      ok := ValidateExportDestination();
      if ok {
        if pc.at == Readying {
          Interfere();
          PerformExport(MarkExportReady);
        }
        FinishExport();
      }
    }

    /** The rest of `complete_export_transfer`, from the phase that the recorded state selects. */
    method FinishExport()
      requires Valid() && pc.Exporting? && (pc.at == AfterReady(pc.seen))
      modifies this
      ensures Valid() && old(history) <= history && pc.Idle?
      ensures disk.mainJournal == map[] && disk.vaultJournal == map[]
      ensures disk.vaultRows == RemoveIds(old(disk.vaultRows), old(pc).ids) && disk.dirs == old(disk.dirs)
      ensures Undisturbed(old(disk), disk, old(pc).ids) && WholeIfVisible(disk, old(pc).ids)
    {
      hide AtRest, Legal, Final, Inv, ExportValid, Apply, WholeIfVisible;
      if pc.at == Leasing {
        LeaseVaultAndUnlink();
      }
      if pc.at == DeletingRows {
        DeleteExportedRows();
      }
      DropExportRecords();
    }

    // ----- rollback_export_files -----

    method RollBackFile(slot: Slot)
      requires Valid() && pc.RollingBack? && slot.asset in pc.ids && slot.asset in disk.vaultRows
      modifies this
      ensures Valid() && old(history) <= history
      ensures EnvFrame(old(Sys()), Sys())
      ensures slot in disk.plain ==>
        slot.kind.Original? && disk.plain[slot] != Complete(disk.vaultRows[slot.asset].hash)
    {
      hide AtRest, Legal, Final, Inv;
      Interfere();
      ghost var f := Flying();
      CanRollBack(Sys(), f, kept, slot.asset);
      if slot in disk.plain && (slot.kind.Original? ==> disk.plain[slot] == Complete(disk.vaultRows[slot.asset].hash)) {
        PerformExport(RollbackPlain(slot));
      }
    }

    method RollBackAsset(id: AssetId)
      requires Valid() && pc.RollingBack? && id in pc.ids && id in disk.vaultRows
      modifies this
      ensures Valid() && old(history) <= history
      ensures EnvFrame(old(Sys()), Sys()) && Cleared(disk, id)
    {
      hide AtRest, Legal, Final, Inv;
      RollBackFile(Slot(id, Original));
      ghost var a := Sys();
      RollBackFile(Slot(id, Thumbnail));
      EnvFrameTransitive(old(Sys()), a, Sys());
      ghost var b := Sys();
      RollBackFile(Slot(id, Preview));
      EnvFrameTransitive(a, b, Sys());
      EnvFrameTransitive(old(Sys()), b, Sys());
    }

    /** `rollback_export_files`: a half-written original survives it, because only a whole one validates. */
    method RollBackFiles()
      requires Valid() && pc.RollingBack?
      modifies this
      ensures Valid() && old(history) <= history && EnvFrame(old(Sys()), Sys())
      ensures Undisturbed(old(disk), disk, pc.ids)
      ensures forall id :: id in pc.ids && id in disk.vaultRows ==> Cleared(disk, id)
    {
      hide AtRest, Legal, Final, Inv;
      var todo := set id | id in pc.ids && id in disk.vaultRows;
      while todo != {}
        invariant Valid() && old(history) <= history && EnvFrame(old(Sys()), Sys())
        invariant forall id :: id in todo ==> id in pc.ids && id in disk.vaultRows
        invariant forall id :: id in pc.ids && id in disk.vaultRows && id !in todo ==> Cleared(disk, id)
        decreases todo
      {
        var id :| id in todo;
        ghost var before := Sys();
        RollBackAsset(id);
        EnvFrameTransitive(old(Sys()), before, Sys());
        todo := todo - {id};
      }
    }

    /** Fails when the export had committed and a purge has marked or taken one of its rows since. */
    method RollBackExport() returns (ok: bool)
      requires Valid() && pc.RollingBack?
      modifies this
      ensures Valid() && old(history) <= history && pc.Idle?
      ensures SameVault(old(disk), disk) && disk.dirs == old(disk.dirs) && Undisturbed(old(disk), disk, old(pc).ids)
      ensures ok ==> disk.mainJournal == map[] && disk.vaultJournal == map[] && WholeIfVisible(disk, Exported(old(disk)))
      ensures !ok ==> SameJournals(old(disk), disk) && !ExportsVisible(disk)
    {
      hide AtRest, Legal, Final, Inv, Cleared, Exported, RolledBack;
      RollBackFiles();
      ghost var f := Flying();
      RollsBackUnlessLost(Sys(), f, kept);
      Delivering();
      SameExports(old(disk), disk);
      ok := forall id :: id in pc.ids ==> RolledBack(disk, id);
      if ok {
        PerformExport(DropRolledBack);
      } else {
        Perform(GiveUp);
      }
    }

    // ----- VaultHandle::open -----

    method ReconcileDirectIngests()
      requires Valid() && pc.Idle?
      modifies this
      ensures Valid() && old(history) <= history && pc.Idle?
      ensures SameVault(old(disk), disk)
      ensures if DirectRecords(old(disk)) == {} then Sys() == old(Sys())
              else disk.mainJournal == map[] && disk.vaultJournal == map[] && disk.dirs == old(disk.dirs) - DirectRecords(old(disk))
    {
      hide AtRest, Legal, Final, Inv;
      var todo := DirectRecords(disk);
      ghost var f := Flying();
      OneFlight(Sys(), f, kept);
      while todo != {}
        invariant Valid() && old(history) <= history && pc.Idle? && SameVault(old(disk), disk)
        invariant if todo != {} then Sys() == old(Sys()) && todo == DirectRecords(disk)
                  else if DirectRecords(old(disk)) == {} then Sys() == old(Sys())
                  else disk.mainJournal == map[] && disk.vaultJournal == map[] && disk.dirs == old(disk.dirs) - DirectRecords(old(disk))
        decreases todo
      {
        var t :| t in todo;
        assert todo == {t};
        Perform(ResumeDirect(t));
        CompleteImport();
        todo := todo - {t};
      }
    }

    method CleanUpOrphanStaging()
      requires Valid() && pc.Idle?
      modifies this
      ensures Valid() && old(history) <= history && pc.Idle?
      ensures SameVault(old(disk), disk) && SameJournals(old(disk), disk)
      ensures disk.dirs == old(disk.dirs) * disk.vaultJournal.Keys
      ensures Undisturbed(old(disk), disk, Exported(old(disk)))
    {
      hide AtRest, Legal, Final, Inv, Exported;
      ghost var ids := Exported(disk);
      Perform(StartOrphanSweep);
      var todo := disk.dirs - disk.vaultJournal.Keys;
      while todo != {}
        invariant Valid() && old(history) <= history && pc.SweepingOrphans?
        invariant SameVault(old(disk), disk) && SameJournals(old(disk), disk)
        invariant todo == disk.dirs - disk.vaultJournal.Keys && disk.dirs <= old(disk.dirs)
        invariant old(disk.dirs) * disk.vaultJournal.Keys <= disk.dirs
        invariant Undisturbed(old(disk), disk, ids)
        decreases todo
      {
        var t :| t in todo;
        ghost var before := Sys();
        RemoveTransferStaging(t);
        SameExports(old(disk), before.disk);
        ExportedIsKnown(before);
        EnvUndisturbs(before, System(disk.(staged := before.disk.staged, dirs := before.disk.dirs), pc, purge), ids);
        todo := todo - {t};
      }
      forall t | t in disk.dirs ensures t in disk.vaultJournal { assert t !in todo; }
      Perform(FinishOrphanSweep);
    }

    // ----- reconcile_transfers -----

    method ReconcileImports()
      requires Valid() && pc.Idle?
      modifies this
      ensures Valid() && old(history) <= history && pc.Idle?
      ensures SameVault(old(disk), disk)
      ensures if ImportSources(old(disk)) == {} then Sys() == old(Sys())
              else disk.mainJournal == map[] && disk.vaultJournal == map[] && disk.dirs == old(disk.dirs) - ImportSources(old(disk))
      ensures forall t :: t in ImportSources(old(disk)) && ImportHappened(old(disk), t) ==> NoPlain(disk, old(disk).mainJournal[t].ids)
    {
      hide AtRest, Legal, Final, Inv;
      var todo := ImportSources(disk);
      ghost var f := Flying();
      OneFlight(Sys(), f, kept);
      while todo != {}
        invariant Valid() && old(history) <= history && pc.Idle? && SameVault(old(disk), disk)
        invariant if todo != {} then Sys() == old(Sys()) && todo == ImportSources(disk)
                  else if ImportSources(old(disk)) == {} then Sys() == old(Sys())
                  else disk.mainJournal == map[] && disk.vaultJournal == map[] && disk.dirs == old(disk.dirs) - ImportSources(old(disk))
        invariant todo == {} ==> forall t :: t in ImportSources(old(disk)) && ImportHappened(old(disk), t) ==> NoPlain(disk, old(disk).mainJournal[t].ids)
        decreases todo
      {
        var t :| t in todo;
        assert todo == {t};
        ReconcileImport(t);
        todo := todo - {t};
      }
    }

    method ReconcileImport(t: TransferId)
      requires Valid() && pc.Idle? && ImportSources(disk) == {t}
      modifies this
      ensures Valid() && old(history) <= history && pc.Idle?
      ensures SameVault(old(disk), disk) && disk.dirs == old(disk.dirs) - {t}
      ensures disk.mainJournal == map[] && disk.vaultJournal == map[]
      ensures ImportHappened(old(disk), t) ==> NoPlain(disk, old(disk).mainJournal[t].ids)
    {
      hide AtRest, Legal, Final, Inv;
      assert t in ImportSources(disk);
      ghost var ids := disk.mainJournal[t].ids;
      ghost var f := Flying();
      ImportFlight(Sys(), f, kept, t);
      Perform(ResumeImport(t));
      if pc.Importing? {
        CompleteImport();
      } else {
        AbortImport();
        if f.ImportClosing? {
          forall slot | slot in disk.plain ensures slot.asset !in ids {}
        }
      }
    }

    method ReconcileExports() returns (ok: bool)
      requires Valid() && pc.Idle?
      modifies this
      ensures Valid() && old(history) <= history && pc.Idle? && disk.dirs == old(disk.dirs)
      ensures ExportSources(old(disk)) == {} ==> ok && Sys() == old(Sys())
      ensures ok && ExportSources(old(disk)) != {} ==> disk.mainJournal == map[] && disk.vaultJournal == map[]
      ensures ok ==> forall t :: t in ExportSources(old(disk)) ==> VaultRowsAfter(old(disk), disk, t)
      ensures ok ==> WholeIfVisible(disk, Exported(old(disk)))
      ensures Undisturbed(old(disk), disk, Exported(old(disk)))
      ensures !ok ==> SameJournals(old(disk), disk) && !ExportsVisible(disk)
    {
      hide AtRest, Legal, Final, Inv, Exported, VaultRowsAfter;
      var todo := ExportSources(disk);
      ghost var f := Flying();
      OneFlight(Sys(), f, kept);
      NoSourceNoExport(disk);
      ok := true;
      while todo != {}
        invariant ok && Valid() && old(history) <= history && pc.Idle? && disk.dirs == old(disk.dirs)
        invariant if todo != {} then Sys() == old(Sys()) && todo == ExportSources(disk)
                  else if ExportSources(old(disk)) == {} then Sys() == old(Sys())
                  else disk.mainJournal == map[] && disk.vaultJournal == map[]
        invariant todo == {} ==> forall t :: t in ExportSources(old(disk)) ==> VaultRowsAfter(old(disk), disk, t)
        invariant todo == {} ==> WholeIfVisible(disk, Exported(old(disk)))
        invariant Undisturbed(old(disk), disk, Exported(old(disk)))
        decreases todo
      {
        var t :| t in todo;
        assert todo == {t};
        ok := ReconcileExport(t);
        if !ok {
          return;
        }
        todo := todo - {t};
      }
    }

    method ReconcileExport(t: TransferId) returns (ok: bool)
      requires Valid() && pc.Idle? && ExportSources(disk) == {t}
      modifies this
      ensures Valid() && old(history) <= history && pc.Idle? && disk.dirs == old(disk.dirs)
      ensures Undisturbed(old(disk), disk, Exported(old(disk)))
      ensures ok ==> disk.mainJournal == map[] && disk.vaultJournal == map[] && VaultRowsAfter(old(disk), disk, t)
      ensures ok ==> WholeIfVisible(disk, Exported(old(disk)))
      ensures !ok ==> SameJournals(old(disk), disk) && !ExportsVisible(disk)
    {
      hide AtRest, Legal, Final, Inv, Exported;
      assert t in ExportSources(disk);
      ghost var f := Flying();
      ExportFlight(Sys(), f, kept, t);
      Perform(ResumeExport(t));
      if pc.Exporting? {
        ok := CompleteExport();
      } else {
        ok := RollBackExport();
        if f.ExportClosing? {
          assert disk.vaultRows == RemoveIds(disk.vaultRows, f.ids);
        }
      }
    }

    /** Unlock and reconcile, from whatever a crash left behind.  With no purge of an exported row in
        between, this ends clean and settled exactly when every such row is visible at the start. */
    method Recover() returns (ok: bool)
      requires Valid() && pc.Idle?
      modifies this
      ensures Valid() && old(history) <= history && pc.Idle?
      ensures ok <==> Clean(disk)
      ensures ok ==> Settled(old(disk), disk, kept) && ExportsVisible(old(disk))
      ensures !ok ==> SameJournals(old(disk), disk) && !ExportsVisible(disk)
      ensures Spared(old(disk), disk) ==> (Clean(disk) && Settled(old(disk), disk, kept) <==> ExportsVisible(old(disk)))
    {
      hide AtRest, Legal, Final, Inv, Settled, Exported, Delivered, Undisturbed, WholeIfVisible, Arrived, Spared, ExportsVisible;
      hide VaultRowsAfter;
      ghost var before := Sys();
      ghost var f := Flying();
      Delivering();
      JournalledFlight(Sys(), f, kept);
      NoSourceNoExport(disk);
      ReconcileDirectIngests();
      CleanUpOrphanStaging();
      assert disk.dirs <= ImportSources(disk) by {
        forall t | t in disk.dirs ensures t in ImportSources(disk) { NoStrayDir(before, f, kept, t); }
      }
      ReconcileImports();
      ghost var mid := disk;
      ok := ReconcileExports();
      if !ok {
        if Spared(before.disk, disk) { SparedAreLostBefore(before.disk, disk); }
        return;
      }
      ghost var after := disk;
      ReconcileDirectIngests();
      ghost var g := Flying();
      ClosedWasVisible(start, old(history), history, f, kept);
      if ExportSources(before.disk) != {} {
        SameReconciliation(before.disk, mid, after);
        AllArrived(before.disk, mid, after);
      }
      RecoverySettles(before, f, Sys(), g, kept);
      StagingEmpty(Sys(), g, kept);
    }

    /** In particular, whatever purges and uploads interfere, when no committed export on record concerns an
        asset with a purge date. */
    method RecoverKept()
      requires Valid() && pc.Idle? && ExportsKept(disk, kept)
      modifies this
      ensures Valid() && old(history) <= history && pc.Idle?
      ensures Clean(disk) && Settled(old(disk), disk, kept)
    {
      hide AtRest, Legal, Final, Inv, Settled, Clean, Exported, ExportsVisible;
      ghost var before := disk;
      var ok := Recover();
      ghost var f := Flying();
      KeptStaysVisible(Sys(), f, kept);
      if !ok {
        SameExports(before, disk);
      }
    }
  }
}
