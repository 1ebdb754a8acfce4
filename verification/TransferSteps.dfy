/** Every action keeps the invariant. */
module TransferSteps {
  import opened Basics
  import opened TransferModel
  import opened TransferInvariant

  // ----- insert_asset -----

  /** What a chain of `insert_asset` calls does to the table: it adds exactly `ids`, keeps hashes,
      and gives no row a purge date it did not have. */
  lemma {:induction false} InsertRowsSpec(rows: map<AssetId, Row>, order: seq<AssetId>, moved: map<AssetId, Row>,
                                          primaries: seq<Option<AssetId>>, ids: set<AssetId>)
    requires |primaries| == |order| && Lists(order, ids)
    requires forall id :: id in order ==> id in moved
    ensures var out := InsertRows(rows, order, moved, primaries);
            && (forall id :: id in out <==> id in rows || id in ids)
            && (forall id :: id in rows && id !in ids ==> out[id] == rows[id])
            && (forall id :: id in ids ==>
                  && out[id].hash == moved[id].hash
                  && (!moved[id].lifecycle.Purging? ==> !out[id].lifecycle.Purging?)
                  && (moved[id].purgeAfter.None? ==> out[id].purgeAfter.None?))
    decreases |order|
  {
    if order != [] {
      var rest := order[1..];
      assert forall id :: id in order <==> id == order[0] || id in rest;
      InsertRowsSpec(rows[order[0] := InsertedRow(moved[order[0]], primaries[0])], rest, moved, primaries[1..], ids - {order[0]});
    }
  }

  lemma HasRecord(f: Flight)
    ensures !f.Quiet? ==> f.transfer in MainRecords(f) || f.transfer in VaultRecords(f)
  {
  }

  lemma MarkMainRecord(d: Disk, f: Flight, st: TransferState)
    requires Records(d, f) && f.ImportCommitted?
    ensures Records(d.(mainJournal := WithState(d.mainJournal, f.transfer, st)), ImportCommitted(f.transfer, f.ids, st))
  {
  }

  lemma MarkVaultRecord(d: Disk, f: Flight, st: TransferState)
    requires Records(d, f) && f.ExportCommitted?
    ensures Records(d.(vaultJournal := WithState(d.vaultJournal, f.transfer, st)), ExportCommitted(f.transfer, f.ids, st))
  {
  }

  lemma DropMainRecord(d: Disk, f: Flight, t: TransferId)
    requires Records(d, f) && (f.Quiet? || f.transfer == t)
    ensures f.Quiet? || f.ImportOpen? || f.ImportClosing? ==> Records(d.(mainJournal := d.mainJournal - {t}), Quiet)
    ensures f.ExportCommitted? && f.state.SourceDatabaseDeleted? ==>
      Records(d.(mainJournal := d.mainJournal - {t}), ExportClosing(t, f.ids))
  {
  }

  lemma DropVaultRecord(d: Disk, f: Flight, t: TransferId)
    requires Records(d, f) && !f.Quiet? && f.transfer == t
    ensures f.ExportOpen? || f.ExportClosing? || f.DirectCommitted? ==> Records(d.(vaultJournal := d.vaultJournal - {t}), Quiet)
    ensures f.ImportCommitted? && f.state.SourceDatabaseDeleted? ==>
      Records(d.(vaultJournal := d.vaultJournal - {t}), ImportClosing(t, f.ids))
  {
  }

  lemma CommitImportRecords(s: System, order: seq<AssetId>, primaries: seq<Option<AssetId>>, f: Flight)
    requires StageEnabled(s, CommitImport(order, primaries))
    requires Records(s.disk, f) && f == ImportOpen(s.pc.transfer, s.pc.ids)
    ensures Records(StageApply(s, CommitImport(order, primaries)).disk, ImportCommitted(f.transfer, f.ids, Preparing))
  {
  }

  lemma CommitDirectRecords(s: System, id: AssetId, primary: Option<AssetId>, retention: int, f: Flight)
    requires StageEnabled(s, CommitDirect(id, primary, retention))
    requires Records(s.disk, f) && f.Quiet?
    ensures Records(StageApply(s, CommitDirect(id, primary, retention)).disk, DirectCommitted(s.pc.transfer, s.pc.ids))
  {
  }

  lemma CommitExportRecords(s: System, order: seq<AssetId>, primaries: seq<Option<AssetId>>, pages: set<AssetId>, f: Flight)
    requires ExportEnabled(s, CommitExport(order, primaries, pages))
    requires Records(s.disk, f) && f == ExportOpen(s.pc.transfer, s.pc.ids)
    ensures Records(ExportApply(s, CommitExport(order, primaries, pages)).disk, ExportCommitted(f.transfer, f.ids, Preparing))
  {
  }

  /** With both journals empty nothing is in flight. */
  lemma NoRecords(f: Flight)
    requires MainRecords(f) == map[] && VaultRecords(f) == map[]
    ensures f == Quiet
  {
    HasRecord(f);
  }

  /** Files no blob row names may come and go in the staging area. */
  lemma StagingFrame(d: Disk, e: Disk, shared: set<AssetId>, leaving: set<AssetId>, arriving: set<AssetId>)
    requires Rows(d, shared, arriving) && VaultIntact(d, leaving, arriving)
    requires e == d.(staged := e.staged, dirs := e.dirs)
    requires forall b :: b in e.staged ==> e.staged[b].transfer in e.dirs
    requires forall b :: Published(d, b) ==> (b in d.staged <==> b in e.staged) && (b in d.staged ==> e.staged[b] == d.staged[b])
    ensures Rows(e, shared, arriving) && VaultIntact(e, leaving, arriving)
  {
  }

  // ----- staging -----

  lemma StageKeeps(s: System, a: StageAction, f: Flight, kept: map<AssetId, Content>) returns (g: Flight)
    requires Inv(s, f, kept) && StageEnabled(s, a)
    ensures Inv(StageApply(s, a), g, kept)
  {
    hide Rows, VaultIntact, Progress, Followed, Records;
    var d, pc := s.disk, s.pc;
    match a
    case BeginImport(t, ids) => g := BeginImportKeeps(s, t, ids, f, kept);
    case BeginDirect(t, id, content) => g := f; BeginDirectKeeps(s, a, f, kept);
    case MakeDir => g := f; MakeDirKeeps(s, f, kept);
    case OpenBlob(b) => g := f; OpenBlobKeeps(s, b, f, kept);
    case SealBlob(content) => g := f; SealBlobKeeps(s, content, f, kept);
    case CommitImport(order, primaries) => g := CommitImportKeeps(s, order, primaries, f, kept);
    case CommitDirect(id, primary, retention) => g := CommitDirectKeeps(s, id, primary, retention, f, kept);
    case AbortStaging => g := f;
    case DropAborted => g := DropAbortedKeeps(s, f, kept);
  }

  lemma MakeDirKeeps(s: System, f: Flight, kept: map<AssetId, Content>)
    requires Inv(s, f, kept) && StageEnabled(s, MakeDir)
    ensures Inv(StageApply(s, MakeDir), f, kept)
  {
    StagingFrame(s.disk, StageApply(s, MakeDir).disk, Shared(f), Leaving(f), Arriving(f));
  }

  lemma BeginDirectKeeps(s: System, a: StageAction, f: Flight, kept: map<AssetId, Content>)
    requires Inv(s, f, kept) && StageEnabled(s, a) && a.BeginDirect?
    ensures Inv(StageApply(s, a), f, kept)
  {
    NoRecords(f);
  }

  lemma DropAbortedKeeps(s: System, f: Flight, kept: map<AssetId, Content>) returns (g: Flight)
    requires Inv(s, f, kept) && StageEnabled(s, DropAborted)
    ensures Inv(StageApply(s, DropAborted), g, kept)
  {
    hide Rows, VaultIntact, WritingOk, StagingOk, Followed;
    g := Quiet;
    DropMainRecord(s.disk, f, s.pc.transfer);
    JournalKeeps(s, StageApply(s, DropAborted), f, g, kept);
  }

  lemma BeginImportMoves(s: System, t: TransferId, ids: set<AssetId>, f: Flight, kept: map<AssetId, Content>)
    requires f == Quiet && Followed(s.disk, f, kept) && StageEnabled(s, BeginImport(t, ids))
    requires forall a :: a in s.disk.mainRows ==> a !in s.disk.vaultRows
    ensures var u, g := StageApply(s, BeginImport(t, ids)), ImportOpen(t, ids);
      Records(u.disk, g) && Progress(u.disk, g) && Control(u, g, kept)
  {
    hide Closure;
  }

  lemma BeginImportKeeps(s: System, t: TransferId, ids: set<AssetId>, f: Flight, kept: map<AssetId, Content>)
    returns (g: Flight)
    requires Inv(s, f, kept) && StageEnabled(s, BeginImport(t, ids))
    ensures Inv(StageApply(s, BeginImport(t, ids)), g, kept)
  {
    hide Rows, VaultIntact, Progress, Followed, Control, Closure;
    g := ImportOpen(t, ids);
    NoRecords(f);
    NothingShared(s.disk, f);
    BeginImportMoves(s, t, ids, f, kept);
    hide Records;
    JournalKeeps(s, StageApply(s, BeginImport(t, ids)), f, g, kept);
  }

  lemma OpenBlobControls(s: System, b: BlobId, f: Flight, kept: map<AssetId, Content>)
    requires Control(s, f, kept) && StageEnabled(s, OpenBlob(b))
    ensures Control(StageApply(s, OpenBlob(b)), f, kept)
  {
    hide ImportingOk, ExportingOk, WritingOk, SnapshotOk;
    assert SnapshotOk(s.pc.rows, s.pc.ids, kept) && Within(s.pc.rows, s.pc.ids) by { OpenBlobRows(s, f, kept); }
    assert StagingOk(StageApply(s, OpenBlob(b)).disk, StageApply(s, OpenBlob(b)).pc);
  }

  lemma OpenBlobRows(s: System, f: Flight, kept: map<AssetId, Content>)
    requires Control(s, f, kept) && s.pc.Staging?
    ensures SnapshotOk(s.pc.rows, s.pc.ids, kept) && Within(s.pc.rows, s.pc.ids)
  {
  }

  lemma OpenBlobFrame(s: System, b: BlobId, shared: set<AssetId>, leaving: set<AssetId>, arriving: set<AssetId>)
    requires Rows(s.disk, shared, arriving) && VaultIntact(s.disk, leaving, arriving) && StageEnabled(s, OpenBlob(b))
    ensures Rows(StageApply(s, OpenBlob(b)).disk, shared, arriving) && VaultIntact(StageApply(s, OpenBlob(b)).disk, leaving, arriving)
  {
    StagingFrame(s.disk, StageApply(s, OpenBlob(b)).disk, shared, leaving, arriving);
    hide VaultIntact;
  }

  lemma OpenBlobKeeps(s: System, b: BlobId, f: Flight, kept: map<AssetId, Content>)
    requires Inv(s, f, kept) && StageEnabled(s, OpenBlob(b))
    ensures Inv(StageApply(s, OpenBlob(b)), f, kept)
  {
    hide Rows, VaultIntact, Control, FreshBlob;
    OpenBlobFrame(s, b, Shared(f), Leaving(f), Arriving(f));
    OpenBlobControls(s, b, f, kept);
  }

  lemma SealBlobStaging(s: System, content: Content, f: Flight, kept: map<AssetId, Content>)
    requires Control(s, f, kept) && StageEnabled(s, SealBlob(content))
    ensures StagingOk(StageApply(s, SealBlob(content)).disk, StageApply(s, SealBlob(content)).pc)
  {
  }

  lemma SealBlobKeeps(s: System, content: Content, f: Flight, kept: map<AssetId, Content>)
    requires Inv(s, f, kept) && StageEnabled(s, SealBlob(content))
    ensures Inv(StageApply(s, SealBlob(content)), f, kept)
  {
    var u := StageApply(s, SealBlob(content));
    StagingFrame(s.disk, u.disk, Shared(f), Leaving(f), Arriving(f));
    SealBlobStaging(s, content, f, kept);
  }

  /** What a destination's commit does to the tables, seen from the staging area. */
  ghost predicate Publishes(s: System, u: System, g: Flight) {
    && s.pc.Staging? && Within(s.pc.rows, s.pc.ids) && StagingOk(s.disk, s.pc) && s.pc.prepared.Keys == s.pc.sources
    && (g == ImportCommitted(s.pc.transfer, s.pc.ids, Preparing) || g == DirectCommitted(s.pc.transfer, s.pc.ids))
    && u.disk == s.disk.(vaultRows := u.disk.vaultRows, blobs := s.disk.blobs + s.pc.prepared, vaultJournal := u.disk.vaultJournal)
    && s.pc.transfer in u.disk.vaultJournal && u.disk.vaultJournal[s.pc.transfer].role.Destination?
    && Outside(s.disk.vaultRows, s.pc.ids)
    && (g.DirectCommitted? ==> Outside(s.disk.mainRows, s.pc.ids))
    && u.disk.vaultRows.Keys == s.disk.vaultRows.Keys + s.pc.ids
    && (forall id :: id in s.disk.vaultRows ==> u.disk.vaultRows[id] == s.disk.vaultRows[id])
    && (forall id :: id in s.pc.ids ==>
          u.disk.vaultRows[id].hash == s.pc.rows[id].hash && !u.disk.vaultRows[id].lifecycle.Purging?)
  }

  lemma PublishKeepsRows(s: System, u: System, g: Flight)
    requires Publishes(s, u, g) && Rows(s.disk, {}, {})
    ensures Rows(u.disk, Shared(g), s.pc.ids)
  {
    var d, p := s.disk, s.pc.prepared;
    forall x | x in d.blobs ensures x !in p { assert x.asset in d.vaultRows; }
    forall b | b in d.staged && Published(u.disk, b) ensures b !in d.sealed && b.slot.asset in s.pc.ids {
      assert Published(d, b) || b.slot in p;
    }
  }

  lemma PublishedBlobOk(s: System, u: System, g: Flight, slot: Slot)
    requires Publishes(s, u, g) && slot in s.pc.prepared
    ensures slot.asset in u.disk.vaultRows && BlobOk(u.disk, s.pc.prepared[slot], true, u.disk.vaultRows[slot.asset].hash)
  {
  }

  lemma KeptBlobOk(s: System, u: System, g: Flight, slot: Slot)
    requires Publishes(s, u, g) && VaultIntact(s.disk, {}, {}) && slot in s.disk.blobs
    ensures slot.asset in u.disk.vaultRows && BlobOk(u.disk, s.disk.blobs[slot], false, u.disk.vaultRows[slot.asset].hash)
  {
  }

  lemma PublishKeepsBlobs(s: System, u: System, g: Flight)
    requires Publishes(s, u, g) && VaultIntact(s.disk, {}, {})
    ensures VaultIntact(u.disk, {}, s.pc.ids)
  {
    var d, e, p := s.disk, u.disk, s.pc.prepared;
    forall slot | slot in e.blobs
      ensures slot.asset in e.vaultRows && BlobOk(e, e.blobs[slot], slot.asset in s.pc.ids, e.vaultRows[slot.asset].hash)
    {
      if slot in p { PublishedBlobOk(s, u, g, slot); } else { KeptBlobOk(s, u, g, slot); }
    }
    forall a | a in e.vaultRows ensures Slot(a, Original) in e.blobs {
      if a in s.pc.ids { assert Slot(a, Original) in p; } else { assert Slot(a, Original) in d.blobs; }
    }
  }

  lemma CommitImportPublishes(s: System, order: seq<AssetId>, primaries: seq<Option<AssetId>>, f: Flight,
                              kept: map<AssetId, Content>)
    requires Records(s.disk, f) && Progress(s.disk, f) && Control(s, f, kept) && StageEnabled(s, CommitImport(order, primaries))
    ensures var u := StageApply(s, CommitImport(order, primaries));
            && Publishes(s, u, ImportCommitted(s.pc.transfer, s.pc.ids, Preparing))
            && forall id :: id in s.pc.ids && s.pc.rows[id].purgeAfter.None? ==> u.disk.vaultRows[id].purgeAfter.None?
  {
    InsertRowsSpec(s.disk.vaultRows, order, s.pc.rows, primaries, s.pc.ids);
  }

  lemma CommitDirectPublishes(s: System, id: AssetId, primary: Option<AssetId>, retention: int, f: Flight,
                              kept: map<AssetId, Content>)
    requires Rows(s.disk, {}, {}) && Control(s, f, kept) && Records(s.disk, f) && StageEnabled(s, CommitDirect(id, primary, retention))
    ensures Publishes(s, StageApply(s, CommitDirect(id, primary, retention)), DirectCommitted(s.pc.transfer, s.pc.ids))
  {
  }

  lemma PublishedFollows(s: System, u: System, f: Flight, g: Flight, kept: map<AssetId, Content>)
    requires Publishes(s, u, g) && Followed(s.disk, f, kept) && SnapshotOk(s.pc.rows, s.pc.ids, kept)
    requires f.Quiet? || f.ImportOpen?
    requires forall id :: id in s.pc.ids && s.pc.rows[id].purgeAfter.None? && id in kept ==> u.disk.vaultRows[id].purgeAfter.None?
    ensures Followed(u.disk, g, kept)
  {
  }

  /** The destination's commit, whichever transfer it belongs to. */
  lemma PublishKeeps(s: System, u: System, f: Flight, g: Flight, kept: map<AssetId, Content>)
    requires Rows(s.disk, {}, {}) && VaultIntact(s.disk, {}, {}) && Followed(s.disk, f, kept) && PurgeOk(s)
    requires f.Quiet? || f.ImportOpen?
    requires Publishes(s, u, g) && SnapshotOk(s.pc.rows, s.pc.ids, kept)
    requires forall id :: id in s.pc.ids && s.pc.rows[id].purgeAfter.None? && id in kept ==> u.disk.vaultRows[id].purgeAfter.None?
    requires Records(u.disk, g) && Progress(u.disk, g) && Control(u, g, kept) && u.purge == s.purge
    ensures Inv(u, g, kept)
  {
    PublishKeepsRows(s, u, g);
    PublishKeepsBlobs(s, u, g);
    PublishedFollows(s, u, f, g, kept);
  }

  lemma CommitImportKeeps(s: System, order: seq<AssetId>, primaries: seq<Option<AssetId>>, f: Flight, kept: map<AssetId, Content>)
    returns (g: Flight)
    requires Inv(s, f, kept) && StageEnabled(s, CommitImport(order, primaries))
    ensures Inv(StageApply(s, CommitImport(order, primaries)), g, kept)
  {
    hide Rows, VaultIntact, Followed, Publishes, Lookups, InsertRows, StagingOk, SnapshotOk;
    g := ImportCommitted(s.pc.transfer, s.pc.ids, Preparing);
    CommitImportPublishes(s, order, primaries, f, kept);
    CommitImportRecords(s, order, primaries, f);
    PublishKeeps(s, StageApply(s, CommitImport(order, primaries)), f, g, kept);
  }

  lemma CommitDirectKeeps(s: System, id: AssetId, primary: Option<AssetId>, retention: int, f: Flight, kept: map<AssetId, Content>)
    returns (g: Flight)
    requires Inv(s, f, kept) && StageEnabled(s, CommitDirect(id, primary, retention))
    ensures Inv(StageApply(s, CommitDirect(id, primary, retention)), g, kept)
  {
    g := DirectCommitted(s.pc.transfer, s.pc.ids);
    CommitDirectPublishes(s, id, primary, retention, f, kept);
    CommitDirectRecords(s, id, primary, retention, f);
    PublishKeeps(s, StageApply(s, CommitDirect(id, primary, retention)), f, g, kept);
  }

  // ----- completing an import or a direct ingest -----

  lemma ImportKeeps(s: System, a: ImportAction, f: Flight, kept: map<AssetId, Content>) returns (g: Flight)
    requires Inv(s, f, kept) && ImportEnabled(s, a)
    ensures Inv(ImportApply(s, a), g, kept)
  {
    hide Rows, VaultIntact, Progress, Followed, Records;
    g := f;
    match a
    case FinalizeBlob(slot) => FinalizeBlobKeeps(s, slot, f, kept);
    case RemoveStaged(b) => RemoveStagedKeeps(s, b, f, kept);
    case RemoveDir(t) => RemoveDirKeeps(s, t, f, kept);
    case FinalizeDone =>
    case SweepDone =>
    case ValidateImport =>
    case MarkReady => g := MarkReadyKeeps(s, f, kept);
    case Lease => LeaseKeeps(s, f, kept);
    case UnlinkPlain(slot) => UnlinkPlainKeeps(s, slot, f, kept);
    case UnlinkDone => UnlinkDoneKeeps(s, f, kept);
    case MarkFilesDeleted => g := MarkFilesKeeps(s, f, kept);
    case DeleteRows => DeleteRowsKeeps(s, f, kept);
    case MarkRowsDeleted => g := MarkRowsKeeps(s, f, kept);
    case DropDestination => g := DropDestinationKeeps(s, f, kept);
    case DropSource => g := DropSourceKeeps(s, f, kept);
    case FinishImport =>
  }

  lemma MarkReadyMoves(s: System, f: Flight, kept: map<AssetId, Content>)
    requires Records(s.disk, f) && Progress(s.disk, f) && Control(s, f, kept) && ImportEnabled(s, MarkReady)
    ensures var u, g := ImportApply(s, MarkReady), ImportCommitted(s.pc.transfer, s.pc.ids, DestinationReady);
      && f == ImportCommitted(s.pc.transfer, s.pc.ids, Preparing)
      && Records(u.disk, g) && Progress(u.disk, g) && Control(u, g, kept)
  {
    hide WritingOk, StagingOk, SnapshotOk, Closure, ImportValid, ExportingOk;
    MarkMainRecord(s.disk, f, DestinationReady);
  }

  lemma MarkReadyKeeps(s: System, f: Flight, kept: map<AssetId, Content>) returns (g: Flight)
    requires Inv(s, f, kept) && ImportEnabled(s, MarkReady)
    ensures Inv(ImportApply(s, MarkReady), g, kept)
  {
    hide Rows, VaultIntact, Progress, Followed, Records, Control;
    g := ImportCommitted(s.pc.transfer, s.pc.ids, DestinationReady);
    MarkReadyMoves(s, f, kept);
    JournalKeeps(s, ImportApply(s, MarkReady), f, g, kept);
  }

  lemma MarkFilesMoves(s: System, f: Flight, kept: map<AssetId, Content>)
    requires Records(s.disk, f) && Progress(s.disk, f) && Control(s, f, kept) && ImportEnabled(s, MarkFilesDeleted)
    ensures var u, g := ImportApply(s, MarkFilesDeleted), ImportCommitted(s.pc.transfer, s.pc.ids, SourceFilesDeleted);
      && f == ImportCommitted(s.pc.transfer, s.pc.ids, DestinationReady)
      && Records(u.disk, g) && Progress(u.disk, g) && Control(u, g, kept)
  {
    hide WritingOk, StagingOk, SnapshotOk, Closure, ImportValid, ExportingOk;
    MarkMainRecord(s.disk, f, SourceFilesDeleted);
  }

  lemma MarkFilesKeeps(s: System, f: Flight, kept: map<AssetId, Content>) returns (g: Flight)
    requires Inv(s, f, kept) && ImportEnabled(s, MarkFilesDeleted)
    ensures Inv(ImportApply(s, MarkFilesDeleted), g, kept)
  {
    hide Rows, VaultIntact, Progress, Followed, Records, Control;
    g := ImportCommitted(s.pc.transfer, s.pc.ids, SourceFilesDeleted);
    MarkFilesMoves(s, f, kept);
    JournalKeeps(s, ImportApply(s, MarkFilesDeleted), f, g, kept);
  }

  lemma MarkRowsMoves(s: System, f: Flight, kept: map<AssetId, Content>)
    requires Records(s.disk, f) && Progress(s.disk, f) && Control(s, f, kept) && ImportEnabled(s, MarkRowsDeleted)
    ensures var u, g := ImportApply(s, MarkRowsDeleted), ImportCommitted(s.pc.transfer, s.pc.ids, SourceDatabaseDeleted);
      && f == ImportCommitted(s.pc.transfer, s.pc.ids, SourceFilesDeleted)
      && Records(u.disk, g) && Progress(u.disk, g) && Control(u, g, kept)
  {
    hide WritingOk, StagingOk, SnapshotOk, Closure, ImportValid, ExportingOk;
    MarkMainRecord(s.disk, f, SourceDatabaseDeleted);
  }

  lemma MarkRowsKeeps(s: System, f: Flight, kept: map<AssetId, Content>) returns (g: Flight)
    requires Inv(s, f, kept) && ImportEnabled(s, MarkRowsDeleted)
    ensures Inv(ImportApply(s, MarkRowsDeleted), g, kept)
  {
    hide Rows, VaultIntact, Progress, Followed, Records, Control;
    g := ImportCommitted(s.pc.transfer, s.pc.ids, SourceDatabaseDeleted);
    MarkRowsMoves(s, f, kept);
    JournalKeeps(s, ImportApply(s, MarkRowsDeleted), f, g, kept);
  }

  lemma DropSourceMoves(s: System, f: Flight, kept: map<AssetId, Content>)
    requires Records(s.disk, f) && Progress(s.disk, f) && Control(s, f, kept) && ImportEnabled(s, DropSource)
    ensures var u, g := ImportApply(s, DropSource), Quiet;
      && f == ImportClosing(s.pc.transfer, s.pc.ids)
      && Records(u.disk, g) && Progress(u.disk, g) && Control(u, g, kept)
  {
    hide WritingOk, StagingOk, SnapshotOk, Closure, ImportValid, ExportingOk;
    DropMainRecord(s.disk, f, s.pc.transfer);
  }

  lemma DropSourceKeeps(s: System, f: Flight, kept: map<AssetId, Content>) returns (g: Flight)
    requires Inv(s, f, kept) && ImportEnabled(s, DropSource)
    ensures Inv(ImportApply(s, DropSource), g, kept)
  {
    hide Rows, VaultIntact, Progress, Followed, Records, Control;
    g := Quiet;
    DropSourceMoves(s, f, kept);
    JournalKeeps(s, ImportApply(s, DropSource), f, g, kept);
  }

  /** Only the journals change, and no destination record disappears. */
  lemma JournalFrame(d: Disk, e: Disk, f: Flight, g: Flight)
    requires Rows(d, Shared(f), Arriving(f)) && VaultIntact(d, Leaving(f), Arriving(f))
    requires e == d.(mainJournal := e.mainJournal, vaultJournal := e.vaultJournal)
    requires Leaving(f) == Leaving(g) && Arriving(f) <= Arriving(g)
    requires forall a :: a in Shared(f) && a in d.mainRows && a in d.vaultRows ==> a in Shared(g)
    requires Arriving(f) == {} || e.vaultJournal == d.vaultJournal
    ensures Rows(e, Shared(g), Arriving(g)) && VaultIntact(e, Leaving(g), Arriving(g))
  {
  }

  lemma JournalFollows(d: Disk, e: Disk, f: Flight, g: Flight, kept: map<AssetId, Content>)
    requires Followed(d, f, kept) && e == d.(mainJournal := e.mainJournal, vaultJournal := e.vaultJournal)
    requires Leaving(f) == Leaving(g) && (g.ImportCommitted? ==> f.ImportCommitted? && g.ids == f.ids)
    ensures Followed(e, g, kept)
  {
  }

  /** A step that writes the journals and moves the program counter, and nothing else. */
  lemma JournalKeeps(s: System, u: System, f: Flight, g: Flight, kept: map<AssetId, Content>)
    requires Inv(s, f, kept) && u.purge == s.purge
    requires u.disk == s.disk.(mainJournal := u.disk.mainJournal, vaultJournal := u.disk.vaultJournal)
    requires Records(u.disk, g) && Progress(u.disk, g) && Control(u, g, kept)
    requires Leaving(f) == Leaving(g) && Arriving(f) <= Arriving(g) && (g.ImportCommitted? ==> f.ImportCommitted? && g.ids == f.ids)
    requires forall a :: a in Shared(f) && a in s.disk.mainRows && a in s.disk.vaultRows ==> a in Shared(g)
    requires Arriving(f) == {} || u.disk.vaultJournal == s.disk.vaultJournal
    ensures Inv(u, g, kept)
  {
    hide Rows, VaultIntact, Progress, Followed, Records, Control;
    JournalFrame(s.disk, u.disk, f, g);
    JournalFollows(s.disk, u.disk, f, g, kept);
  }

  /** Renaming a staged file into place, or finding it there already. */
  lemma FinalizeFrame(d: Disk, e: Disk, slot: Slot, shared: set<AssetId>, leaving: set<AssetId>, arriving: set<AssetId>)
    requires Rows(d, shared, arriving) && VaultIntact(d, leaving, arriving)
    requires slot in d.blobs && slot.asset !in leaving
    requires d.blobs[slot] !in d.sealed && d.blobs[slot] in d.staged
    requires e == d.(sealed := d.sealed[d.blobs[slot] := d.staged[d.blobs[slot]].file], staged := d.staged - {d.blobs[slot]})
    ensures Rows(e, shared, arriving) && VaultIntact(e, leaving, arriving)
  {
  }

  lemma FinalizeBlobFrame(s: System, slot: Slot, shared: set<AssetId>, leaving: set<AssetId>, arriving: set<AssetId>)
    requires Rows(s.disk, shared, arriving) && VaultIntact(s.disk, leaving, arriving) && ImportEnabled(s, FinalizeBlob(slot))
    requires slot.asset !in leaving
    ensures Rows(ImportApply(s, FinalizeBlob(slot)).disk, shared, arriving)
    ensures VaultIntact(ImportApply(s, FinalizeBlob(slot)).disk, leaving, arriving)
  {
    var b := s.disk.blobs[slot];
    if b !in s.disk.sealed {
      FinalizeFrame(s.disk, ImportApply(s, FinalizeBlob(slot)).disk, slot, shared, leaving, arriving);
      hide Rows, VaultIntact;
    } else {
      PublishedIsFinal(s.disk, slot, shared, arriving);
      hide VaultIntact;
    }
  }

  lemma PublishedIsFinal(d: Disk, slot: Slot, shared: set<AssetId>, arriving: set<AssetId>)
    requires Rows(d, shared, arriving) && slot in d.blobs && d.blobs[slot] in d.sealed
    ensures d.blobs[slot] !in d.staged
  {
    assert d.blobs[slot].slot == slot && Published(d, d.blobs[slot]);
  }

  lemma FinalizeBlobMoves(s: System, slot: Slot, f: Flight, kept: map<AssetId, Content>)
    requires Progress(s.disk, f) && Control(s, f, kept) && ImportEnabled(s, FinalizeBlob(slot))
    ensures slot.asset !in Leaving(f)
    ensures Progress(ImportApply(s, FinalizeBlob(slot)).disk, f) && Control(ImportApply(s, FinalizeBlob(slot)), f, kept)
  {
    hide StagingOk, WritingOk, SnapshotOk, ExportingOk, Closure;
  }

  lemma FinalizeBlobKeeps(s: System, slot: Slot, f: Flight, kept: map<AssetId, Content>)
    requires Inv(s, f, kept) && ImportEnabled(s, FinalizeBlob(slot))
    ensures Inv(ImportApply(s, FinalizeBlob(slot)), f, kept)
  {
    hide Rows, VaultIntact, Progress, Control;
    FinalizeBlobMoves(s, slot, f, kept);
    FinalizeBlobFrame(s, slot, Shared(f), Leaving(f), Arriving(f));
  }

  lemma RemoveDirKeeps(s: System, t: TransferId, f: Flight, kept: map<AssetId, Content>)
    requires Inv(s, f, kept) && ImportEnabled(s, RemoveDir(t))
    ensures Inv(ImportApply(s, RemoveDir(t)), f, kept)
  {
    StagingFrame(s.disk, ImportApply(s, RemoveDir(t)).disk, Shared(f), Leaving(f), Arriving(f));
  }

  lemma RemoveStagedKeeps(s: System, b: BlobId, f: Flight, kept: map<AssetId, Content>)
    requires Inv(s, f, kept) && ImportEnabled(s, RemoveStaged(b))
    ensures Inv(ImportApply(s, RemoveStaged(b)), f, kept)
  {
    SweptFileIsUnpublished(s, b, f, kept);
    StagingFrame(s.disk, ImportApply(s, RemoveStaged(b)).disk, Shared(f), Leaving(f), Arriving(f));
  }

  /** A staged file that a blob row names belongs to a transfer on record, and is not in place yet. */
  lemma PublishedArrives(d: Disk, b: BlobId, shared: set<AssetId>, leaving: set<AssetId>, arriving: set<AssetId>)
    requires Rows(d, shared, arriving) && VaultIntact(d, leaving, arriving) && leaving !! arriving && b in d.staged
    ensures Published(d, b) ==>
      b.slot in d.blobs && b !in d.sealed && b.slot.asset in arriving && d.staged[b].transfer in d.vaultJournal
  {
  }

  /** No sweep, roll-back or clean-up of staging ever reaches a file that a committed blob row names. */
  lemma SweptFileIsUnpublished(s: System, b: BlobId, f: Flight, kept: map<AssetId, Content>)
    requires Rows(s.disk, Shared(f), Arriving(f)) && VaultIntact(s.disk, Leaving(f), Arriving(f)) && Records(s.disk, f)
    requires Control(s, f, kept) && ImportEnabled(s, RemoveStaged(b))
    ensures !Published(s.disk, b)
  {
    hide Rows, VaultIntact, StagingOk, WritingOk, SnapshotOk, ExportingOk, Records;
    PublishedArrives(s.disk, b, Shared(f), Leaving(f), Arriving(f));
  }

  lemma FewerMainRows(d: Disk, e: Disk, f: Flight)
    requires Rows(d, Shared(f), Arriving(f)) && Progress(d, f) && e == d.(mainRows := e.mainRows, pages := e.pages)
    requires forall r :: r in e.mainRows ==> r in d.mainRows && e.mainRows[r].duplicateOf == d.mainRows[r].duplicateOf
    ensures Rows(e, Shared(f), Arriving(f)) && Progress(e, f)
  {
  }

  /** Main rows change or go, but none that a followed asset relies on. */
  lemma MainShrinks(d: Disk, e: Disk, f: Flight, kept: map<AssetId, Content>)
    requires Rows(d, Shared(f), Arriving(f)) && VaultIntact(d, Leaving(f), Arriving(f)) && Progress(d, f) && Followed(d, f, kept)
    requires e == d.(mainRows := e.mainRows, pages := e.pages)
    requires forall r :: r in e.mainRows ==> r in d.mainRows && e.mainRows[r].duplicateOf == d.mainRows[r].duplicateOf
    requires forall a :: a in kept && MainCopy(d, a, kept[a]) && !(f.ImportCommitted? && a in f.ids) ==>
      a in e.mainRows && e.mainRows[a] == d.mainRows[a]
    ensures Rows(e, Shared(f), Arriving(f)) && VaultIntact(e, Leaving(f), Arriving(f)) && Progress(e, f) && Followed(e, f, kept)
  {
    hide Rows, VaultIntact, Progress;
    FewerMainRows(d, e, f);
    MainFrame(d, e, Leaving(f), Arriving(f));
  }

  lemma LeaseKeeps(s: System, f: Flight, kept: map<AssetId, Content>)
    requires Inv(s, f, kept) && ImportEnabled(s, Lease)
    ensures Inv(ImportApply(s, Lease), f, kept)
  {
    MainShrinks(s.disk, ImportApply(s, Lease).disk, f, kept);
  }

  lemma UnlinkPlainKeeps(s: System, slot: Slot, f: Flight, kept: map<AssetId, Content>)
    requires Inv(s, f, kept) && ImportEnabled(s, UnlinkPlain(slot))
    ensures Inv(ImportApply(s, UnlinkPlain(slot)), f, kept)
  {
    PlainFrame(s, ImportApply(s, UnlinkPlain(slot)), f, kept, f.ids);
  }

  lemma UnlinkDoneKeeps(s: System, f: Flight, kept: map<AssetId, Content>)
    requires Inv(s, f, kept) && ImportEnabled(s, UnlinkDone)
    ensures Inv(ImportApply(s, UnlinkDone), f, kept)
  {
    forall slot | slot in s.disk.plain ensures slot.asset !in s.pc.ids {
      assert slot !in SlotsOf(s.disk.plain, s.pc.ids);
    }
  }

  lemma DeleteRowsKeeps(s: System, f: Flight, kept: map<AssetId, Content>)
    requires Inv(s, f, kept) && ImportEnabled(s, DeleteRows)
    ensures Inv(ImportApply(s, DeleteRows), f, kept)
  {
    MainShrinks(s.disk, ImportApply(s, DeleteRows).disk, f, kept);
  }

  /** Once every blob of the transfer is in place its record may go. */
  lemma AllSealedFrame(d: Disk, e: Disk, shared: set<AssetId>, ids: set<AssetId>)
    requires Rows(d, shared, ids) && VaultIntact(d, {}, ids) && AllSealed(d, ids)
    requires e == d.(vaultJournal := e.vaultJournal)
    requires forall a :: a in shared ==> a !in d.mainRows
    ensures Rows(e, {}, {}) && VaultIntact(e, {}, {})
  {
  }

  lemma DroppingIsSealed(s: System, f: Flight, kept: map<AssetId, Content>)
    requires Control(s, f, kept) && Progress(s.disk, f) && AtPhase(s, DroppingDestination)
    ensures f.DirectCommitted? || (f.ImportCommitted? && f.state.SourceDatabaseDeleted?)
    ensures f.transfer == s.pc.transfer && f.ids == s.pc.ids
    ensures AllSealed(s.disk, f.ids) && forall a :: a in Shared(f) ==> a !in s.disk.mainRows
  {
  }

  lemma DropDestinationMoves(s: System, f: Flight, kept: map<AssetId, Content>)
    requires Records(s.disk, f) && Progress(s.disk, f) && Control(s, f, kept) && ImportEnabled(s, DropDestination)
    ensures var u, g := ImportApply(s, DropDestination), if f.DirectCommitted? then Quiet else ImportClosing(s.pc.transfer, s.pc.ids);
      Records(u.disk, g) && Progress(u.disk, g) && Control(u, g, kept)
  {
    hide WritingOk, StagingOk, SnapshotOk, ExportingOk, ImportValid;
    DropVaultRecord(s.disk, f, s.pc.transfer);
  }

  lemma DropDestinationFollows(d: Disk, e: Disk, f: Flight, g: Flight, kept: map<AssetId, Content>)
    requires Followed(d, f, kept) && e == d.(vaultJournal := e.vaultJournal)
    requires (f.ImportCommitted? || f.DirectCommitted?) && (g.Quiet? || g.ImportClosing?)
    ensures Followed(e, g, kept)
  {
  }

  lemma DropDestinationKeeps(s: System, f: Flight, kept: map<AssetId, Content>) returns (g: Flight)
    requires Inv(s, f, kept) && ImportEnabled(s, DropDestination)
    ensures Inv(ImportApply(s, DropDestination), g, kept)
  {
    hide Rows, VaultIntact, Progress, Followed, Records, Control, AllSealed;
    g := if f.DirectCommitted? then Quiet else ImportClosing(s.pc.transfer, s.pc.ids);
    DroppingIsSealed(s, f, kept);
    DropDestinationMoves(s, f, kept);
    AllSealedFrame(s.disk, ImportApply(s, DropDestination).disk, Shared(f), f.ids);
    DropDestinationFollows(s.disk, ImportApply(s, DropDestination).disk, f, g, kept);
  }

  // ----- export -----

  lemma ExportKeeps(s: System, a: ExportAction, f: Flight, kept: map<AssetId, Content>) returns (g: Flight)
    requires Inv(s, f, kept) && ExportEnabled(s, a)
    ensures Inv(ExportApply(s, a), g, kept)
  {
    hide Rows, VaultIntact, Progress, Followed, Records;
    g := f;
    match a
    case BeginExport(t, ids) => g := BeginExportKeeps(s, t, ids, f, kept);
    case OpenPlain(slot) => OpenPlainKeeps(s, slot, f, kept);
    case WritePlain => WritePlainKeeps(s, f, kept);
    case ClobberPlain(slot) => UnwriteKeeps(s, a, f, kept);
    case AbortWriting => UnwriteKeeps(s, a, f, kept);
    case UnwritePlain(slot) => UnwriteKeeps(s, a, f, kept);
    case DropUnwritten => g := EndExportKeeps(s, a, f, kept);
    case CommitExport(order, primaries, pages) => g := CommitExportKeeps(s, order, primaries, pages, f, kept);
    case ValidateExport =>
    case MarkExportReady => g := MarkExportReadyKeeps(s, f, kept);
    case LeaseVault => LeaseVaultKeeps(s, f, kept);
    case UnlinkBlob(slot) => UnlinkBlobKeeps(s, slot, f, kept);
    case UnlinkBlobsDone =>
    case MarkBlobsDeleted => g := MarkBlobsKeeps(s, f, kept);
    case DeleteVaultRows => DeleteVaultRowsKeeps(s, f, kept);
    case MarkVaultRowsDeleted => g := MarkVaultRowsKeeps(s, f, kept);
    case DropExportDestination => g := DropExportDestinationKeeps(s, f, kept);
    case DropExportSource => g := EndExportKeeps(s, a, f, kept);
    case RollbackPlain(slot) => RollbackPlainKeeps(s, slot, f, kept);
    case DropRolledBack => g := EndExportKeeps(s, a, f, kept);
  }

  lemma MarkExportReadyMoves(s: System, f: Flight, kept: map<AssetId, Content>)
    requires Records(s.disk, f) && Progress(s.disk, f) && Control(s, f, kept) && ExportEnabled(s, MarkExportReady)
    ensures var u, g := ExportApply(s, MarkExportReady), ExportCommitted(s.pc.transfer, s.pc.ids, DestinationReady);
      && f == ExportCommitted(s.pc.transfer, s.pc.ids, Preparing)
      && Records(u.disk, g) && Progress(u.disk, g) && Control(u, g, kept)
  {
    hide WritingOk, StagingOk, SnapshotOk, Closure, ImportValid, ImportingOk;
    MarkVaultRecord(s.disk, f, DestinationReady);
  }

  lemma MarkExportReadyKeeps(s: System, f: Flight, kept: map<AssetId, Content>) returns (g: Flight)
    requires Inv(s, f, kept) && ExportEnabled(s, MarkExportReady)
    ensures Inv(ExportApply(s, MarkExportReady), g, kept)
  {
    hide Rows, VaultIntact, Progress, Followed, Records, Control;
    g := ExportCommitted(s.pc.transfer, s.pc.ids, DestinationReady);
    MarkExportReadyMoves(s, f, kept);
    JournalKeeps(s, ExportApply(s, MarkExportReady), f, g, kept);
  }

  lemma MarkBlobsMoves(s: System, f: Flight, kept: map<AssetId, Content>)
    requires Records(s.disk, f) && Progress(s.disk, f) && Control(s, f, kept) && ExportEnabled(s, MarkBlobsDeleted)
    ensures var u, g := ExportApply(s, MarkBlobsDeleted), ExportCommitted(s.pc.transfer, s.pc.ids, SourceFilesDeleted);
      && f == ExportCommitted(s.pc.transfer, s.pc.ids, DestinationReady)
      && Records(u.disk, g) && Progress(u.disk, g) && Control(u, g, kept)
  {
    hide WritingOk, StagingOk, SnapshotOk, Closure, ImportValid, ImportingOk;
    MarkVaultRecord(s.disk, f, SourceFilesDeleted);
  }

  lemma MarkBlobsKeeps(s: System, f: Flight, kept: map<AssetId, Content>) returns (g: Flight)
    requires Inv(s, f, kept) && ExportEnabled(s, MarkBlobsDeleted)
    ensures Inv(ExportApply(s, MarkBlobsDeleted), g, kept)
  {
    hide Rows, VaultIntact, Progress, Followed, Records, Control;
    g := ExportCommitted(s.pc.transfer, s.pc.ids, SourceFilesDeleted);
    MarkBlobsMoves(s, f, kept);
    JournalKeeps(s, ExportApply(s, MarkBlobsDeleted), f, g, kept);
  }

  lemma MarkVaultRowsMoves(s: System, f: Flight, kept: map<AssetId, Content>)
    requires Records(s.disk, f) && Progress(s.disk, f) && Control(s, f, kept) && ExportEnabled(s, MarkVaultRowsDeleted)
    ensures var u, g := ExportApply(s, MarkVaultRowsDeleted), ExportCommitted(s.pc.transfer, s.pc.ids, SourceDatabaseDeleted);
      && f == ExportCommitted(s.pc.transfer, s.pc.ids, SourceFilesDeleted)
      && Records(u.disk, g) && Progress(u.disk, g) && Control(u, g, kept)
  {
    hide WritingOk, StagingOk, SnapshotOk, Closure, ImportValid, ImportingOk;
    MarkVaultRecord(s.disk, f, SourceDatabaseDeleted);
  }

  lemma MarkVaultRowsKeeps(s: System, f: Flight, kept: map<AssetId, Content>) returns (g: Flight)
    requires Inv(s, f, kept) && ExportEnabled(s, MarkVaultRowsDeleted)
    ensures Inv(ExportApply(s, MarkVaultRowsDeleted), g, kept)
  {
    hide Rows, VaultIntact, Progress, Followed, Records, Control;
    g := ExportCommitted(s.pc.transfer, s.pc.ids, SourceDatabaseDeleted);
    MarkVaultRowsMoves(s, f, kept);
    JournalKeeps(s, ExportApply(s, MarkVaultRowsDeleted), f, g, kept);
  }

  lemma UnwriteMoves(s: System, a: ExportAction, f: Flight, kept: map<AssetId, Content>)
    requires Control(s, f, kept) && ExportEnabled(s, a)
    requires a.ClobberPlain? || a.AbortWriting? || a.UnwritePlain?
    ensures f == ExportOpen(s.pc.transfer, s.pc.ids) && Control(ExportApply(s, a), f, kept)
    ensures forall slot: Slot :: slot.asset !in f.ids && slot in s.disk.plain ==>
      slot in ExportApply(s, a).disk.plain && ExportApply(s, a).disk.plain[slot] == s.disk.plain[slot]
  {
    hide ImportingOk, ExportingOk, StagingOk, Records;
  }

  lemma UnwriteKeeps(s: System, a: ExportAction, f: Flight, kept: map<AssetId, Content>)
    requires Inv(s, f, kept) && ExportEnabled(s, a)
    requires a.ClobberPlain? || a.AbortWriting? || a.UnwritePlain?
    ensures Inv(ExportApply(s, a), f, kept)
  {
    hide Rows, VaultIntact, Followed, Records, Control, Closure;
    UnwriteMoves(s, a, f, kept);
    PlainFrame(s, ExportApply(s, a), f, kept, f.ids);
  }

  lemma EndExportMoves(s: System, a: ExportAction, f: Flight, kept: map<AssetId, Content>)
    requires Records(s.disk, f) && Control(s, f, kept) && ExportEnabled(s, a)
    requires a == DropUnwritten || a == DropExportSource || a == DropRolledBack
    ensures f.ExportOpen? || f.ExportClosing?
    ensures Records(ExportApply(s, a).disk, Quiet) && Control(ExportApply(s, a), Quiet, kept)
  {
    hide WritingOk, StagingOk, SnapshotOk, ImportingOk, RolledBack;
    DropVaultRecord(s.disk, f, s.pc.transfer);
  }

  lemma EndExportKeeps(s: System, a: ExportAction, f: Flight, kept: map<AssetId, Content>) returns (g: Flight)
    requires Inv(s, f, kept) && ExportEnabled(s, a)
    requires a == DropUnwritten || a == DropExportSource || a == DropRolledBack
    ensures Inv(ExportApply(s, a), g, kept)
  {
    hide Rows, VaultIntact, Followed, Records, Control, RolledBack;
    g := Quiet;
    EndExportMoves(s, a, f, kept);
    JournalKeeps(s, ExportApply(s, a), f, g, kept);
  }

  lemma DropExportDestinationMoves(s: System, f: Flight, kept: map<AssetId, Content>)
    requires Records(s.disk, f) && Progress(s.disk, f) && Control(s, f, kept) && ExportEnabled(s, DropExportDestination)
    ensures var u, g := ExportApply(s, DropExportDestination), ExportClosing(s.pc.transfer, s.pc.ids);
      f.ExportCommitted? && f.ids == g.ids && Records(u.disk, g) && Progress(u.disk, g) && Control(u, g, kept)
  {
    hide WritingOk, StagingOk, SnapshotOk, ImportingOk, Closure;
    DropMainRecord(s.disk, f, s.pc.transfer);
  }

  /** The exported rows and blobs have left the vault, so the rest of it stands for itself. */
  lemma GoneFromVault(d: Disk, e: Disk, f: Flight, g: Flight, kept: map<AssetId, Content>)
    requires f.ExportCommitted? && g.ExportClosing? && g.ids == f.ids && Outside(d.vaultRows, f.ids)
    requires Rows(d, f.ids, {}) && VaultIntact(d, f.ids, {}) && Followed(d, f, kept) && e == d.(mainJournal := e.mainJournal)
    ensures Rows(e, {}, {}) && VaultIntact(e, {}, {}) && Followed(e, g, kept)
  {
    GoneIntact(d, e, f.ids);
    hide Rows, VaultIntact;
  }

  lemma GoneIntact(d: Disk, e: Disk, ids: set<AssetId>)
    requires Outside(d.vaultRows, ids) && Rows(d, ids, {}) && VaultIntact(d, ids, {}) && e == d.(mainJournal := e.mainJournal)
    ensures Rows(e, {}, {}) && VaultIntact(e, {}, {})
  {
  }

  lemma DropExportDestinationKeeps(s: System, f: Flight, kept: map<AssetId, Content>) returns (g: Flight)
    requires Inv(s, f, kept) && ExportEnabled(s, DropExportDestination)
    ensures Inv(ExportApply(s, DropExportDestination), g, kept)
  {
    hide Rows, VaultIntact, Followed, Records, Control;
    g := ExportClosing(s.pc.transfer, s.pc.ids);
    DropExportDestinationMoves(s, f, kept);
    GoneFromVault(s.disk, ExportApply(s, DropExportDestination).disk, f, g, kept);
  }

  lemma BeginExportControls(s: System, t: TransferId, ids: set<AssetId>, kept: map<AssetId, Content>)
    requires Followed(s.disk, Quiet, kept) && ExportEnabled(s, BeginExport(t, ids))
    requires forall a :: a in s.disk.mainRows ==> a !in s.disk.vaultRows
    ensures Control(ExportApply(s, BeginExport(t, ids)), ExportOpen(t, ids), kept)
    ensures Progress(ExportApply(s, BeginExport(t, ids)).disk, ExportOpen(t, ids))
  {
  }

  lemma NothingShared(d: Disk, f: Flight)
    requires Rows(d, Shared(f), Arriving(f)) && f.Quiet?
    ensures forall a :: a in d.mainRows ==> a !in d.vaultRows
  {
  }

  lemma BeginExportKeeps(s: System, t: TransferId, ids: set<AssetId>, f: Flight, kept: map<AssetId, Content>)
    returns (g: Flight)
    requires Inv(s, f, kept) && ExportEnabled(s, BeginExport(t, ids))
    ensures Inv(ExportApply(s, BeginExport(t, ids)), g, kept)
  {
    hide Rows, VaultIntact, Control, Progress, ImportValid, Closure;
    g := ExportOpen(t, ids);
    NoRecords(f);
    NothingShared(s.disk, f);
    BeginExportControls(s, t, ids, kept);
    JournalFrame(s.disk, ExportApply(s, BeginExport(t, ids)).disk, f, g);
  }

  /** Plain files change only for assets whose main copy nobody relies on. */
  lemma PlainFrame(s: System, u: System, f: Flight, kept: map<AssetId, Content>, touched: set<AssetId>)
    requires Inv(s, f, kept)
    requires u == s.(disk := s.disk.(plain := u.disk.plain), pc := u.pc)
    requires forall slot: Slot :: slot.asset !in touched && slot in s.disk.plain ==>
      slot in u.disk.plain && u.disk.plain[slot] == s.disk.plain[slot]
    requires forall a :: a in touched && a in kept ==> !MainCopy(s.disk, a, kept[a]) || (f.ImportCommitted? && a in f.ids)
    requires f.ExportOpen? || u.disk.plain.Keys <= s.disk.plain.Keys
    ensures Records(u.disk, f) && Rows(u.disk, Shared(f), Arriving(f)) && VaultIntact(u.disk, Leaving(f), Arriving(f))
    ensures Progress(u.disk, f) && Followed(u.disk, f, kept) && PurgeOk(u)
  {
    PlainVaultFrame(s.disk, u.disk, Shared(f), Leaving(f), Arriving(f));
    hide Rows, VaultIntact;
  }

  lemma PlainVaultFrame(d: Disk, e: Disk, shared: set<AssetId>, leaving: set<AssetId>, arriving: set<AssetId>)
    requires Rows(d, shared, arriving) && VaultIntact(d, leaving, arriving)
    requires e == d.(plain := e.plain)
    ensures Rows(e, shared, arriving) && VaultIntact(e, leaving, arriving)
  {
    MainFrame(d, e, leaving, arriving);
  }

  lemma OpenPlainMoves(s: System, slot: Slot, f: Flight, kept: map<AssetId, Content>)
    requires Control(s, f, kept) && ExportEnabled(s, OpenPlain(slot))
    ensures f == ExportOpen(s.pc.transfer, s.pc.ids) && Control(ExportApply(s, OpenPlain(slot)), f, kept)
    ensures forall x: Slot :: x.asset !in f.ids && x in s.disk.plain ==>
      x in ExportApply(s, OpenPlain(slot)).disk.plain && ExportApply(s, OpenPlain(slot)).disk.plain[x] == s.disk.plain[x]
  {
    hide ImportingOk, ExportingOk, StagingOk, Records;
  }

  lemma OpenPlainKeeps(s: System, slot: Slot, f: Flight, kept: map<AssetId, Content>)
    requires Inv(s, f, kept) && ExportEnabled(s, OpenPlain(slot))
    ensures Inv(ExportApply(s, OpenPlain(slot)), f, kept)
  {
    hide Rows, VaultIntact, Followed, Records, Control, Closure;
    OpenPlainMoves(s, slot, f, kept);
    PlainFrame(s, ExportApply(s, OpenPlain(slot)), f, kept, f.ids);
  }

  lemma WritePlainMoves(s: System, f: Flight, kept: map<AssetId, Content>)
    requires Control(s, f, kept) && ExportEnabled(s, WritePlain)
    ensures f == ExportOpen(s.pc.transfer, s.pc.ids) && Control(ExportApply(s, WritePlain), f, kept)
    ensures forall slot: Slot :: slot.asset !in f.ids && slot in s.disk.plain ==>
      slot in ExportApply(s, WritePlain).disk.plain && ExportApply(s, WritePlain).disk.plain[slot] == s.disk.plain[slot]
  {
    hide ImportingOk, ExportingOk, StagingOk, Records;
  }

  lemma WritePlainKeeps(s: System, f: Flight, kept: map<AssetId, Content>)
    requires Inv(s, f, kept) && ExportEnabled(s, WritePlain)
    ensures Inv(ExportApply(s, WritePlain), f, kept)
  {
    hide Rows, VaultIntact, Followed, Records, Control, Closure;
    WritePlainMoves(s, f, kept);
    PlainFrame(s, ExportApply(s, WritePlain), f, kept, f.ids);
  }

  lemma RollbackPlainKeeps(s: System, slot: Slot, f: Flight, kept: map<AssetId, Content>)
    requires Inv(s, f, kept) && ExportEnabled(s, RollbackPlain(slot))
    ensures Inv(ExportApply(s, RollbackPlain(slot)), f, kept)
  {
    PlainFrame(s, ExportApply(s, RollbackPlain(slot)), f, kept, {slot.asset});
  }

  lemma CommitExportInserts(s: System, order: seq<AssetId>, primaries: seq<Option<AssetId>>, pages: set<AssetId>)
    requires ExportEnabled(s, CommitExport(order, primaries, pages)) && Outside(s.disk.mainRows, s.pc.ids)
    requires forall id :: id in s.pc.ids ==> !s.pc.rows[id].lifecycle.Purging?
    ensures var u := ExportApply(s, CommitExport(order, primaries, pages));
      && u.disk.mainRows.Keys == s.disk.mainRows.Keys + s.pc.ids && u.disk.pages == s.disk.pages + pages
      && (forall id :: id in s.disk.mainRows ==> u.disk.mainRows[id] == s.disk.mainRows[id])
      && forall id :: id in s.pc.ids ==>
           && u.disk.mainRows[id].hash == s.pc.rows[id].hash
           && !u.disk.mainRows[id].lifecycle.Purging?
           && (s.pc.rows[id].purgeAfter.None? ==> u.disk.mainRows[id].purgeAfter.None?)
  {
    InsertRowsSpec(s.disk.mainRows, order, s.pc.rows, primaries, s.pc.ids);
  }

  lemma CommitExportKeeps(s: System, order: seq<AssetId>, primaries: seq<Option<AssetId>>, pages: set<AssetId>, f: Flight,
                          kept: map<AssetId, Content>) returns (g: Flight)
    requires Inv(s, f, kept) && ExportEnabled(s, CommitExport(order, primaries, pages))
    ensures Inv(ExportApply(s, CommitExport(order, primaries, pages)), g, kept)
  {
    hide Rows, VaultIntact, Followed, Lookups, InsertRows, StagingOk, Closure, ImportingOk, Lists;
    g := ExportCommitted(s.pc.transfer, s.pc.ids, Preparing);
    CommitExportInserts(s, order, primaries, pages);
    var u := ExportApply(s, CommitExport(order, primaries, pages));
    CommitExportRecords(s, order, primaries, pages, f);
    CommitExportIntact(s.disk, u.disk, s.pc.ids);
    CommitExportFollows(s, u, f, g, kept);
    hide WritingOk, SnapshotOk;
  }

  lemma CommitExportIntact(d: Disk, e: Disk, ids: set<AssetId>)
    requires Rows(d, {}, {}) && VaultIntact(d, {}, {})
    requires e == d.(mainRows := e.mainRows, pages := e.pages, mainJournal := e.mainJournal)
    requires forall id :: id in e.mainRows ==> id in d.mainRows || id in ids
    ensures Rows(e, ids, {}) && VaultIntact(e, ids, {})
  {
  }

  lemma CommitExportFollows(s: System, u: System, f: Flight, g: Flight, kept: map<AssetId, Content>)
    requires Inv(s, f, kept) && s.pc.Writing? && s.pc.written == s.pc.sources && Outside(s.disk.mainRows, s.pc.ids)
    requires g.ExportCommitted? && g.ids == s.pc.ids
    requires u.disk == s.disk.(mainRows := u.disk.mainRows, pages := u.disk.pages, mainJournal := u.disk.mainJournal)
    requires Within(u.disk.mainRows, s.pc.ids)
    requires forall id :: id in s.disk.mainRows ==> id in u.disk.mainRows && u.disk.mainRows[id] == s.disk.mainRows[id]
    requires forall id :: id in s.pc.ids ==>
      && u.disk.mainRows[id].hash == s.pc.rows[id].hash
      && !u.disk.mainRows[id].lifecycle.Purging?
      && (s.pc.rows[id].purgeAfter.None? ==> u.disk.mainRows[id].purgeAfter.None?)
    ensures Followed(u.disk, g, kept)
  {
    forall a | a in kept && a in s.pc.ids ensures MainCopy(u.disk, a, kept[a]) {
      assert Slot(a, Original) in s.pc.sources;
    }
  }

  /** The rows and blobs of assets on their way out may change or go. */
  lemma LeavingFrame(d: Disk, e: Disk, ids: set<AssetId>)
    requires Rows(d, ids, {}) && VaultIntact(d, ids, {})
    requires e == d.(vaultRows := e.vaultRows, blobs := e.blobs)
    requires forall a :: a in e.vaultRows ==> a in d.vaultRows && (a !in ids ==> e.vaultRows[a] == d.vaultRows[a])
    requires forall slot :: slot in e.blobs ==> slot in d.blobs && e.blobs[slot] == d.blobs[slot] && slot.asset in e.vaultRows
    requires forall slot: Slot :: slot.asset !in ids && slot in d.blobs ==> slot in e.blobs
    ensures Rows(e, ids, {}) && VaultIntact(e, ids, {})
  {
  }

  /** A step of a committed export that changes nothing but its own rows and blobs in the vault. */
  lemma VaultShrinks(s: System, u: System, f: Flight, kept: map<AssetId, Content>)
    requires Inv(s, f, kept) && f.ExportCommitted? && u.purge == s.purge
    requires u.disk == s.disk.(vaultRows := u.disk.vaultRows, blobs := u.disk.blobs, sealed := u.disk.sealed)
    requires forall a :: a in s.disk.vaultRows && a !in f.ids ==> a in u.disk.vaultRows && u.disk.vaultRows[a] == s.disk.vaultRows[a]
    requires Rows(u.disk, f.ids, {}) && VaultIntact(u.disk, f.ids, {}) && Progress(u.disk, f) && Control(u, f, kept)
    ensures Inv(u, f, kept)
  {
    hide Rows, VaultIntact, Progress, Control;
  }

  lemma LeaseVaultIntact(d: Disk, ids: set<AssetId>)
    requires Rows(d, ids, {}) && VaultIntact(d, ids, {})
    ensures Rows(d.(vaultRows := LeaseRows(d.vaultRows, ids)), ids, {})
    ensures VaultIntact(d.(vaultRows := LeaseRows(d.vaultRows, ids)), ids, {})
  {
    LeavingFrame(d, d.(vaultRows := LeaseRows(d.vaultRows, ids)), ids);
  }

  lemma LeaseVaultMoves(s: System, f: Flight, kept: map<AssetId, Content>)
    requires Records(s.disk, f) && Progress(s.disk, f) && Control(s, f, kept) && ExportEnabled(s, LeaseVault)
    ensures f.ExportCommitted? && f.ids == s.pc.ids
    ensures Progress(ExportApply(s, LeaseVault).disk, f) && Control(ExportApply(s, LeaseVault), f, kept)
  {
    hide WritingOk, StagingOk, SnapshotOk, ImportingOk;
  }

  lemma LeaseVaultKeeps(s: System, f: Flight, kept: map<AssetId, Content>)
    requires Inv(s, f, kept) && ExportEnabled(s, LeaseVault)
    ensures Inv(ExportApply(s, LeaseVault), f, kept)
  {
    hide Rows, VaultIntact, Progress, Followed, Records, Control, Closure;
    LeaseVaultMoves(s, f, kept);
    LeaseVaultIntact(s.disk, f.ids);
    VaultShrinks(s, ExportApply(s, LeaseVault), f, kept);
  }

  lemma UnlinkBlobMoves(s: System, slot: Slot, f: Flight, kept: map<AssetId, Content>)
    requires Records(s.disk, f) && Progress(s.disk, f) && Control(s, f, kept) && ExportEnabled(s, UnlinkBlob(slot))
    ensures f.ExportCommitted? && f.ids == s.pc.ids
    ensures Progress(ExportApply(s, UnlinkBlob(slot)).disk, f) && Control(ExportApply(s, UnlinkBlob(slot)), f, kept)
  {
    hide WritingOk, StagingOk, SnapshotOk, ImportingOk;
  }

  lemma UnlinkBlobIntact(d: Disk, slot: Slot, ids: set<AssetId>)
    requires Rows(d, ids, {}) && VaultIntact(d, ids, {}) && slot in d.blobs && slot.asset in ids
    ensures Rows(d.(sealed := d.sealed - {d.blobs[slot]}), ids, {}) && VaultIntact(d.(sealed := d.sealed - {d.blobs[slot]}), ids, {})
  {
  }

  lemma UnlinkBlobKeeps(s: System, slot: Slot, f: Flight, kept: map<AssetId, Content>)
    requires Inv(s, f, kept) && ExportEnabled(s, UnlinkBlob(slot))
    ensures Inv(ExportApply(s, UnlinkBlob(slot)), f, kept)
  {
    hide Rows, VaultIntact, Progress, Followed, Records, Control;
    UnlinkBlobMoves(s, slot, f, kept);
    UnlinkBlobIntact(s.disk, slot, f.ids);
    VaultShrinks(s, ExportApply(s, UnlinkBlob(slot)), f, kept);
  }

  lemma DeleteVaultRowsIntact(d: Disk, e: Disk, ids: set<AssetId>)
    requires Rows(d, ids, {}) && VaultIntact(d, ids, {})
    requires e == d.(vaultRows := RemoveIds(d.vaultRows, ids), blobs := RemoveSlots(d.blobs, ids))
    ensures Rows(e, ids, {}) && VaultIntact(e, ids, {})
  {
    assert forall slot :: slot in d.blobs ==> slot.asset in d.vaultRows;
    LeavingFrame(d, e, ids);
  }

  lemma DeleteVaultRowsMoves(s: System, f: Flight, kept: map<AssetId, Content>)
    requires Records(s.disk, f) && Progress(s.disk, f) && Control(s, f, kept) && ExportEnabled(s, DeleteVaultRows)
    ensures f.ExportCommitted? && f.ids == s.pc.ids
    ensures Progress(ExportApply(s, DeleteVaultRows).disk, f) && Control(ExportApply(s, DeleteVaultRows), f, kept)
  {
    hide WritingOk, StagingOk, SnapshotOk, ImportingOk;
  }

  lemma DeleteVaultRowsKeeps(s: System, f: Flight, kept: map<AssetId, Content>)
    requires Inv(s, f, kept) && ExportEnabled(s, DeleteVaultRows)
    ensures Inv(ExportApply(s, DeleteVaultRows), f, kept)
  {
    hide Rows, VaultIntact, Progress, Followed, Records, Control;
    DeleteVaultRowsMoves(s, f, kept);
    DeleteVaultRowsIntact(s.disk, ExportApply(s, DeleteVaultRows).disk, f.ids);
    VaultShrinks(s, ExportApply(s, DeleteVaultRows), f, kept);
  }

  // ----- purge -----

  lemma PurgeKeeps(s: System, a: PurgeAction, f: Flight, kept: map<AssetId, Content>)
    requires Inv(s, f, kept) && PurgeEnabled(s, a)
    ensures Inv(PurgeApply(s, a), f, kept)
  {
    hide Rows, VaultIntact, Progress, Followed, Records;
    match a
    case MarkDue(now) => MarkDueKeeps(s, now, f, kept);
    case RestoreBlocked(id) => RestoreBlockedKeeps(s, id, f, kept);
    case StartDelete(id) =>
    case UnlinkPurged(kind) => UnlinkPurgedKeeps(s, kind, f, kept);
    case FinishDelete => FinishDeleteKeeps(s, f, kept);
    case GiveUpPurge =>
  }

  lemma PurgeControls(s: System, u: System, f: Flight, kept: map<AssetId, Content>)
    requires Control(s, f, kept)
    requires u == s.(disk := s.disk.(mainRows := u.disk.mainRows), purge := u.purge)
    requires u.disk.mainRows.Keys <= s.disk.mainRows.Keys
    ensures Control(u, f, kept)
  {
  }

  lemma MarkDueKeeps(s: System, now: int, f: Flight, kept: map<AssetId, Content>)
    requires Inv(s, f, kept) && PurgeEnabled(s, MarkDue(now))
    ensures Inv(PurgeApply(s, MarkDue(now)), f, kept)
  {
    hide Rows, VaultIntact, Control;
    MainShrinks(s.disk, PurgeApply(s, MarkDue(now)).disk, f, kept);
    PurgeControls(s, PurgeApply(s, MarkDue(now)), f, kept);
  }

  lemma RestoreBlockedKeeps(s: System, id: AssetId, f: Flight, kept: map<AssetId, Content>)
    requires Inv(s, f, kept) && PurgeEnabled(s, RestoreBlocked(id))
    ensures Inv(PurgeApply(s, RestoreBlocked(id)), f, kept)
  {
    hide Rows, VaultIntact, Control;
    MainShrinks(s.disk, PurgeApply(s, RestoreBlocked(id)).disk, f, kept);
    PurgeControls(s, PurgeApply(s, RestoreBlocked(id)), f, kept);
  }

  lemma UnlinkPurgedControls(s: System, kind: Kind, f: Flight, kept: map<AssetId, Content>)
    requires Control(s, f, kept) && Progress(s.disk, f) && PurgeOk(s) && PurgeEnabled(s, UnlinkPurged(kind))
    ensures Control(PurgeApply(s, UnlinkPurged(kind)), f, kept)
  {
  }

  lemma UnlinkPurgedKeeps(s: System, kind: Kind, f: Flight, kept: map<AssetId, Content>)
    requires Inv(s, f, kept) && PurgeEnabled(s, UnlinkPurged(kind))
    ensures Inv(PurgeApply(s, UnlinkPurged(kind)), f, kept)
  {
    hide Rows, VaultIntact, Followed, Progress, Records, Control;
    UnlinkPurgedControls(s, kind, f, kept);
    PlainFrame(s, PurgeApply(s, UnlinkPurged(kind)), f, kept, {s.purge.id});
  }

  lemma FinishDeleteKeeps(s: System, f: Flight, kept: map<AssetId, Content>)
    requires Inv(s, f, kept) && PurgeEnabled(s, FinishDelete)
    ensures Inv(PurgeApply(s, FinishDelete), f, kept)
  {
    hide Rows, VaultIntact, Control;
    MainShrinks(s.disk, PurgeApply(s, FinishDelete).disk, f, kept);
    PurgeControls(s, PurgeApply(s, FinishDelete), f, kept);
  }

  /** The vault side does not see changes of main rows and plain files. */
  lemma MainFrame(d: Disk, e: Disk, leaving: set<AssetId>, arriving: set<AssetId>)
    requires VaultIntact(d, leaving, arriving)
    requires e == d.(mainRows := e.mainRows, plain := e.plain, pages := e.pages)
    ensures VaultIntact(e, leaving, arriving)
  {
  }

  // ----- everything -----

  lemma IngestKeepsClosure(s: System, a: Action, f: Flight)
    requires Enabled(s, a) && a.Ingest? && s.disk.mainJournal == MainRecords(f)
    requires f.ImportOpen? || f.ImportCommitted?
    requires Closure(s.disk.mainRows, f.ids)
    ensures Closure(Apply(s, a).disk.mainRows, f.ids)
  {
    assert f.transfer in s.disk.mainJournal;
  }

  lemma IngestFollows(s: System, a: Action, f: Flight, kept: map<AssetId, Content>)
    requires Enabled(s, a) && a.Ingest? && Followed(s.disk, f, kept)
    ensures Followed(Apply(s, a).disk, f, kept)
  {
  }

  lemma IngestControls(s: System, a: Action, f: Flight, kept: map<AssetId, Content>)
    requires Enabled(s, a) && a.Ingest? && Control(s, f, kept)
    ensures Control(Apply(s, a), f, kept)
  {
  }

  lemma IngestKeepsRows(s: System, a: Action, f: Flight)
    requires Rows(s.disk, Shared(f), Arriving(f)) && Enabled(s, a) && a.Ingest?
    ensures Rows(Apply(s, a).disk, Shared(f), Arriving(f))
  {
  }

  lemma IngestProgress(s: System, a: Action, f: Flight)
    requires Progress(s.disk, f) && Records(s.disk, f) && Enabled(s, a) && a.Ingest?
    ensures Progress(Apply(s, a).disk, f)
  {
    if f.ImportOpen? || f.ImportCommitted? { IngestKeepsClosure(s, a, f); }
    HasRecord(f);
    hide Closure;
  }

  lemma IngestKeeps(s: System, a: Action, f: Flight, kept: map<AssetId, Content>)
    requires Inv(s, f, kept) && Enabled(s, a) && a.Ingest?
    ensures Inv(Apply(s, a), f, kept)
  {
    hide Rows, VaultIntact, Progress, Followed, Control, FreshAsset;
    MainFrame(s.disk, Apply(s, a).disk, Leaving(f), Arriving(f));
    IngestKeepsRows(s, a, f);
    IngestProgress(s, a, f);
    IngestFollows(s, a, f, kept);
    IngestControls(s, a, f, kept);
    hide Enabled;
  }

  lemma StepKeeps(s: System, a: Action, f: Flight, kept: map<AssetId, Content>) returns (g: Flight)
    requires Inv(s, f, kept) && Enabled(s, a)
    ensures Inv(Apply(s, a), g, kept)
  {
    hide Rows, VaultIntact, Progress, Followed;
    g := f;
    match a
    case StageStep(x) => g := StageKeeps(s, x, f, kept);
    case ImportStep(x) => g := ImportKeeps(s, x, f, kept);
    case ExportStep(x) => g := ExportKeeps(s, x, f, kept);
    case PurgeStep(x) => PurgeKeeps(s, x, f, kept);
    case Ingest(id, content, primary, retention) => IngestKeeps(s, a, f, kept);
    case ResumeImport(t) =>
    case ResumeExport(t) =>
    case ResumeDirect(t) =>
    case StartOrphanSweep =>
    case FinishOrphanSweep =>
    case GiveUp =>
    case Crash =>
  }
}
