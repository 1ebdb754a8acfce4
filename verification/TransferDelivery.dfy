/** What becomes of an exported asset in the main library until its transfer is closed. */
module TransferDelivery {
  import opened Basics
  import opened TransferModel
  import opened TransferInvariant
  import opened TransferSafety
  import opened TransferSteps

  function ExportSources(d: Disk): set<TransferId> {
    set t | t in d.vaultJournal && d.vaultJournal[t].direction.ExportDirection? && d.vaultJournal[t].role.Source?
  }

  /** The destination's transaction has committed: its record is there, or its clean-up removed it. */
  predicate ExportHappened(d: Disk, t: TransferId)
    requires t in ExportSources(d)
  {
    t in d.mainJournal || d.vaultJournal[t].state.SourceDatabaseDeleted?
  }

  /** The assets of the exports on record whose transaction has committed. */
  function Exported(d: Disk): set<AssetId> {
    set t, id | t in ExportSources(d) && ExportHappened(d, t) && id in d.vaultJournal[t].ids :: id
  }

  /** A row with its original in place. */
  predicate Whole(d: Disk, id: AssetId) {
    && id in d.mainRows && Slot(id, Original) in d.plain
    && d.plain[Slot(id, Original)] == Complete(d.mainRows[id].hash)
  }

  /** A purge has taken the row, or has marked it and nothing can unmark it. */
  predicate Lost(d: Disk, id: AssetId) {
    id in d.mainRows ==> d.mainRows[id].lifecycle.Purging? && id !in d.pages && !Referenced(d.mainRows, id)
  }

  /** Every exported asset has its complete original for as long as its row is visible, and is lost for good after that. */
  ghost predicate Delivered(d: Disk) {
    forall id :: id in Exported(d) ==> if Visible(d.mainRows, id) then Whole(d, id) else Lost(d, id)
  }

  lemma SameFiles(d: Disk, e: Disk)
    requires Delivered(d) && e.mainRows == d.mainRows && e.plain == d.plain && e.pages == d.pages
    requires Exported(e) <= Exported(d)
    ensures Delivered(e)
  {
  }

  lemma NothingExported(d: Disk, f: Flight)
    requires Records(d, f) && !f.ExportCommitted? && !f.ExportClosing?
    ensures Exported(d) == {}
  {
  }

  lemma ExportedIds(d: Disk, f: Flight)
    requires Records(d, f) && (f.ExportCommitted? || f.ExportClosing?)
    ensures Exported(d) == f.ids
  {
    assert f.transfer in ExportSources(d) && ExportHappened(d, f.transfer);
  }

  // ----- every step keeps it -----

  lemma StageDelivers(s: System, a: StageAction)
    requires Delivered(s.disk) && StageEnabled(s, a)
    ensures Delivered(StageApply(s, a).disk)
  {
    hide Lookups, InsertRows, Delivered;
    SameFiles(s.disk, StageApply(s, a).disk);
  }

  lemma ImportDelivers(s: System, a: ImportAction, f: Flight, kept: map<AssetId, Content>)
    requires Records(s.disk, f) && Control(s, f, kept) && Delivered(s.disk) && ImportEnabled(s, a)
    ensures Delivered(ImportApply(s, a).disk)
  {
    hide Delivered, Exported;
    var u := ImportApply(s, a);
    if s.pc.Importing? {
      NothingExported(s.disk, f);
      ImportExportsNothing(s, a);
      NoneDelivered(u.disk);
    } else {
      SameExports(s.disk, u.disk);
      SameFiles(s.disk, u.disk);
    }
  }

  lemma ImportExportsNothing(s: System, a: ImportAction)
    requires ImportEnabled(s, a) && Exported(s.disk) == {}
    ensures Exported(ImportApply(s, a).disk) == {}
  {
    FewerExports(s.disk, ImportApply(s, a).disk);
  }

  lemma NoneDelivered(d: Disk)
    requires Exported(d) == {}
    ensures Delivered(d)
  {
  }

  lemma SameExports(d: Disk, e: Disk)
    requires e.mainJournal == d.mainJournal && e.vaultJournal == d.vaultJournal
    ensures Exported(e) == Exported(d)
  {
  }

  /** Records may go, and change their state short of the last one. */
  lemma FewerExports(d: Disk, e: Disk)
    requires e.mainJournal.Keys <= d.mainJournal.Keys
    requires forall t :: t in ExportSources(e) ==>
      && t in ExportSources(d) && e.vaultJournal[t].ids == d.vaultJournal[t].ids
      && (ExportHappened(e, t) ==> ExportHappened(d, t))
    ensures Exported(e) <= Exported(d)
  {
  }

  lemma ExportDelivers(s: System, a: ExportAction, f: Flight, kept: map<AssetId, Content>)
    requires Inv(s, f, kept) && Delivered(s.disk) && ExportEnabled(s, a)
    ensures Delivered(ExportApply(s, a).disk)
  {
    hide Delivered, Exported, Control, Lookups, ExportApply, Rows, VaultIntact, Followed, Progress;
    if a.CommitExport? {
      CommitExportDelivers(s, a.order, a.primaries, a.pages, f, kept);
    } else if a.RollbackPlain? {
      RollbackDelivers(s, a.slot);
    } else if a.BeginExport? || s.pc.Writing? || s.pc.Unwriting? {
      OpenExportDelivers(s, a, f, kept);
    } else {
      ClosingDelivers(s, a, f, kept);
    }
  }

  /** Before its commit an export has delivered nothing. */
  lemma OpenExportDelivers(s: System, a: ExportAction, f: Flight, kept: map<AssetId, Content>)
    requires Records(s.disk, f) && Control(s, f, kept) && ExportEnabled(s, a) && !a.CommitExport?
    requires a.BeginExport? || s.pc.Writing? || s.pc.Unwriting?
    ensures Delivered(ExportApply(s, a).disk)
  {
    var u := ExportApply(s, a);
    if a.BeginExport? {
      NothingExported(u.disk, ExportOpen(a.transfer, a.ids));
    } else {
      NothingExported(s.disk, f);
      FewerExports(s.disk, u.disk);
    }
    NoneDelivered(u.disk);
  }

  /** After it the export touches the vault and the journals only. */
  lemma ClosingDelivers(s: System, a: ExportAction, f: Flight, kept: map<AssetId, Content>)
    requires Records(s.disk, f) && Control(s, f, kept) && Delivered(s.disk) && ExportEnabled(s, a)
    requires s.pc.Exporting? || a.DropRolledBack?
    ensures Delivered(ExportApply(s, a).disk)
  {
    hide Delivered, Exported, Control, ExportValid, Closure, RolledBack, WithState;
    var d, t := s.disk, s.pc.transfer;
    match a {
      case MarkExportReady => MarkedExports(d, t, DestinationReady);
      case MarkBlobsDeleted => MarkedExports(d, t, SourceFilesDeleted);
      case MarkVaultRowsDeleted =>
        HasDestination(s, f, kept);
        MarkedExports(d, t, SourceDatabaseDeleted);
      case DropExportDestination => FewerExports(d, d.(mainJournal := d.mainJournal - {t}));
      case DropExportSource => FewerExports(d, d.(vaultJournal := d.vaultJournal - {t}));
      case DropRolledBack => FewerExports(d, d.(vaultJournal := d.vaultJournal - {t}));
      case _ =>
    }
    SameExports(ExportApply(s, a).disk, d.(mainJournal := ExportApply(s, a).disk.mainJournal, vaultJournal := ExportApply(s, a).disk.vaultJournal));
    SameFiles(d, ExportApply(s, a).disk);
  }

  lemma MarkedExports(d: Disk, t: TransferId, state: TransferState)
    requires state.SourceDatabaseDeleted? ==> t in d.mainJournal
    ensures Exported(d.(vaultJournal := WithState(d.vaultJournal, t, state))) <= Exported(d)
  {
    hide Exported;
    FewerExports(d, d.(vaultJournal := WithState(d.vaultJournal, t, state)));
  }

  lemma HasDestination(s: System, f: Flight, kept: map<AssetId, Content>)
    requires Records(s.disk, f) && Control(s, f, kept) && AtExport(s, MarkingRows)
    ensures s.pc.transfer in s.disk.mainJournal
  {
  }

  lemma RollbackDelivers(s: System, slot: Slot)
    requires Delivered(s.disk) && ExportEnabled(s, RollbackPlain(slot))
    ensures Delivered(ExportApply(s, RollbackPlain(slot)).disk)
  {
    var e := ExportApply(s, RollbackPlain(slot)).disk;
    SameExports(s.disk, e);
    hide Exported;
    assert forall id :: id in Exported(e) && Visible(e.mainRows, id) ==> Whole(s.disk, id) && id != slot.asset;
  }

  lemma CommitExportDelivers(s: System, order: seq<AssetId>, primaries: seq<Option<AssetId>>, pages: set<AssetId>, f: Flight,
                             kept: map<AssetId, Content>)
    requires Inv(s, f, kept) && ExportEnabled(s, CommitExport(order, primaries, pages))
    ensures Delivered(ExportApply(s, CommitExport(order, primaries, pages)).disk)
  {
    hide Rows, VaultIntact, Followed, Lookups, InsertRows, Closure, Exported;
    var u := ExportApply(s, CommitExport(order, primaries, pages));
    CommitExportInserts(s, order, primaries, pages);
    CommitExportRecords(s, order, primaries, pages, f);
    ExportedIds(u.disk, ExportCommitted(f.transfer, f.ids, Preparing));
    forall id | id in s.pc.ids ensures Visible(u.disk.mainRows, id) && Whole(u.disk, id) {
      assert Slot(id, Original) in s.pc.sources;
    }
  }

  /** A marked row is unreferenced and on no page, so nothing restores it, and its files go only while it is marked. */
  lemma PurgeDelivers(s: System, a: PurgeAction)
    requires PurgeOk(s) && Delivered(s.disk) && PurgeEnabled(s, a)
    ensures Delivered(PurgeApply(s, a).disk)
  {
    var e := PurgeApply(s, a).disk;
    SameExports(s.disk, e);
    hide Exported;
    forall id | id in Exported(s.disk) ensures if Visible(e.mainRows, id) then Whole(e, id) else Lost(e, id) {
      PurgeTakes(s, a, id);
    }
  }

  lemma PurgeTakes(s: System, a: PurgeAction, id: AssetId)
    requires PurgeOk(s) && PurgeEnabled(s, a)
    requires if Visible(s.disk.mainRows, id) then Whole(s.disk, id) else Lost(s.disk, id)
    ensures var e := PurgeApply(s, a).disk;
      if Visible(e.mainRows, id) then Whole(e, id) else Lost(e, id)
  {
  }

  lemma IngestDelivers(s: System, a: Action)
    requires Delivered(s.disk) && Enabled(s, a) && a.Ingest?
    ensures Delivered(Apply(s, a).disk)
  {
    var e := Apply(s, a).disk;
    SameExports(s.disk, e);
    forall id | id in Exported(s.disk) ensures id != a.id {}
    hide Exported;
  }

  lemma StepDelivers(s: System, a: Action, f: Flight, kept: map<AssetId, Content>)
    requires Inv(s, f, kept) && Delivered(s.disk) && Enabled(s, a)
    ensures Delivered(Apply(s, a).disk)
  {
    hide Delivered, Rows, VaultIntact, Progress, Followed;
    match a
    case StageStep(x) => StageDelivers(s, x);
    case ImportStep(x) => ImportDelivers(s, x, f, kept);
    case ExportStep(x) => ExportDelivers(s, x, f, kept);
    case PurgeStep(x) => PurgeDelivers(s, x);
    case Ingest(_, _, _, _) => IngestDelivers(s, a);
    case _ =>
  }

  /** So it holds in every state that a run from rest reaches. */
  lemma {:induction false} RunDelivers(s: System, run: seq<Action>, f: Flight, kept: map<AssetId, Content>)
    requires Inv(s, f, kept) && Delivered(s.disk) && Legal(s, run)
    ensures Delivered(Final(s, run).disk)
    decreases |run|
  {
    if run != [] {
      StepDelivers(s, run[0], f, kept);
      var g := StepKeeps(s, run[0], f, kept);
      RunDelivers(Apply(s, run[0]), run[1..], g, kept);
    }
  }

  lemma RestDelivers(s: System, kept: map<AssetId, Content>)
    requires AtRest(s, kept)
    ensures Delivered(s.disk)
  {
  }

  // ----- what the two readers of the exported rows ask for -----

  /** `validate_export_destination` accepts exactly when no exported row is lost. */
  lemma ValidIffVisible(s: System, f: Flight, kept: map<AssetId, Content>)
    requires Inv(s, f, kept) && Delivered(s.disk) && AtExport(s, Validating)
    ensures Exported(s.disk) == s.pc.ids
    ensures ExportValid(s.disk, s.pc.ids) <==> forall id :: id in Exported(s.disk) ==> Visible(s.disk.mainRows, id)
  {
    ExportedIds(s.disk, f);
  }

  /** With the destination's record gone, `rollback_export_files` accepts under the same condition. */
  lemma RolledBackIffVisible(s: System, f: Flight, kept: map<AssetId, Content>)
    requires Inv(s, f, kept) && s.pc.RollingBack? && f.ExportClosing?
    ensures Exported(s.disk) == s.pc.ids
    ensures (forall id :: id in s.pc.ids ==> RolledBack(s.disk, id)) <==> forall id :: id in Exported(s.disk) ==> Visible(s.disk.mainRows, id)
  {
    ExportedIds(s.disk, f);
  }
}
