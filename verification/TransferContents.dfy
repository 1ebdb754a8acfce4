/** What a transfer carries over: every field of a row, every file of an asset, and nothing when it fails. */
module TransferContents {
  import opened Basics
  import opened TransferModel
  import opened TransferInvariant
  import opened TransferSteps
  import opened TransferSafety
  import opened TransferRows

  /** A purge may mark a row and a repair may unmark it, but neither touches another field. */
  predicate SameTrace(row: Row, other: Row) { row == other.(lifecycle := row.lifecycle) }

  /** An import in the making knows its rows and has a source for each of their files, and what is sealed is what the file holds. */
  ghost predicate ImportCarries(d: Disk, pc: Pc)
    requires pc.Staging?
  {
    && pc.rows.Keys == pc.ids
    && (forall id :: id in pc.ids && id in d.mainRows ==> SameTrace(d.mainRows[id], pc.rows[id]))
    && (forall slot :: slot in d.plain && slot.asset in pc.ids ==> slot in pc.sources)
    && (forall slot :: slot in pc.prepared && slot in d.plain && d.plain[slot].Complete? ==>
          pc.prepared[slot] in d.staged && d.staged[pc.prepared[slot]].file == d.plain[slot])
  }

  /** So does an export, and a written file holds what its blob holds. */
  ghost predicate ExportCarries(d: Disk, pc: Pc)
    requires pc.Writing?
  {
    && pc.rows.Keys == pc.ids
    && (forall id :: id in pc.ids ==> id in d.vaultRows && d.vaultRows[id] == pc.rows[id])
    && (forall slot :: slot in d.blobs && slot.asset in pc.ids ==> slot in pc.sources)
    && (forall slot :: slot in pc.written ==>
          slot in d.blobs && d.blobs[slot] in d.sealed && slot in d.plain && d.plain[slot] == d.sealed[d.blobs[slot]])
  }

  ghost predicate Carries(s: System) {
    && (s.pc.Staging? && s.pc.direction.ImportDirection? ==> ImportCarries(s.disk, s.pc))
    && (s.pc.Writing? ==> ExportCarries(s.disk, s.pc))
  }

  // ----- every step keeps it -----

  lemma StageCarries(s: System, a: StageAction, f: Flight, kept: map<AssetId, Content>)
    requires Carries(s) && Control(s, f, kept) && StageEnabled(s, a)
    ensures Carries(StageApply(s, a))
  {
    hide SnapshotOk, Lookups, InsertRows, Closure, Referenced, FreshAsset;
  }

  lemma ExportStepCarries(s: System, a: ExportAction, f: Flight, kept: map<AssetId, Content>)
    requires Carries(s) && Records(s.disk, f) && Progress(s.disk, f) && Control(s, f, kept) && ExportEnabled(s, a)
    ensures Carries(ExportApply(s, a))
  {
    hide ExportCarries, Lookups, InsertRows, Closure, Referenced, Lists, RolledBack, StagingOk, ImportingOk, ExportingOk, Progress, Records;
    if a.BeginExport? {
      BeginExportCarries(s, a.transfer, a.ids);
    } else if s.pc.Writing? && ExportApply(s, a).pc.Writing? {
      WritingCarries(s, a, f, kept);
    }
  }

  lemma BeginExportCarries(s: System, t: TransferId, ids: set<AssetId>)
    requires ExportEnabled(s, BeginExport(t, ids))
    ensures Carries(ExportApply(s, BeginExport(t, ids)))
  {
    hide Closure;
  }

  lemma WritingCarries(s: System, a: ExportAction, f: Flight, kept: map<AssetId, Content>)
    requires s.pc.Writing? && ExportCarries(s.disk, s.pc) && Control(s, f, kept) && ExportEnabled(s, a)
    ensures ExportApply(s, a).pc.Writing? ==> ExportCarries(ExportApply(s, a).disk, ExportApply(s, a).pc)
  {
    hide Lookups, InsertRows, Closure, Lists, SnapshotOk, ImportValid, RolledBack, FileOk;
  }

  lemma ImportStepCarries(s: System, a: ImportAction)
    requires Carries(s) && ImportEnabled(s, a)
    ensures Carries(ImportApply(s, a))
  {
    hide Closure, ImportValid;
  }

  lemma PurgeStepCarries(s: System, a: PurgeAction, f: Flight, kept: map<AssetId, Content>)
    requires Carries(s) && Progress(s.disk, f) && Control(s, f, kept) && PurgeOk(s) && PurgeEnabled(s, a)
    ensures Carries(PurgeApply(s, a))
  {
    hide ImportCarries, ExportCarries;
    if s.pc.Staging? && s.pc.direction.ImportDirection? { PurgeKeepsImport(s, a); }
    if s.pc.Writing? { PurgeKeepsExport(s, a, f, kept); }
    hide Closure, Referenced, StagingOk, SnapshotOk, ImportingOk, ExportingOk, PurgeApply, Control, Progress;
  }

  lemma PurgeKeepsImport(s: System, a: PurgeAction)
    requires s.pc.Staging? && ImportCarries(s.disk, s.pc) && PurgeEnabled(s, a)
    ensures PurgeApply(s, a).pc == s.pc && ImportCarries(PurgeApply(s, a).disk, s.pc)
  {
    hide Referenced;
  }

  lemma PurgeKeepsExport(s: System, a: PurgeAction, f: Flight, kept: map<AssetId, Content>)
    requires s.pc.Writing? && ExportCarries(s.disk, s.pc) && Progress(s.disk, f) && Control(s, f, kept) && PurgeOk(s) && PurgeEnabled(s, a)
    ensures PurgeApply(s, a).pc == s.pc && ExportCarries(PurgeApply(s, a).disk, s.pc)
  {
    hide Closure, Referenced, SnapshotOk;
  }

  lemma RestCarries(s: System, a: Action, f: Flight, kept: map<AssetId, Content>)
    requires Carries(s) && Control(s, f, kept) && Enabled(s, a) && !a.StageStep? && !a.ImportStep? && !a.ExportStep? && !a.PurgeStep?
    ensures Carries(Apply(s, a))
  {
    hide StageEnabled, StageApply, ImportEnabled, ImportApply, ExportEnabled, ExportApply, PurgeEnabled, PurgeApply, Lookup, IndexAccepts,
         SnapshotOk, ImportingOk, ExportingOk;
  }

  lemma StepCarries(s: System, a: Action, f: Flight, kept: map<AssetId, Content>)
    requires Inv(s, f, kept) && Carries(s) && Enabled(s, a)
    ensures Carries(Apply(s, a))
  {
    hide Carries, StageEnabled, StageApply, ImportEnabled, ImportApply, ExportEnabled, ExportApply, PurgeEnabled, PurgeApply,
         Rows, VaultIntact, Followed, Progress, Records, Control;
    match a
    case StageStep(x) => StageCarries(s, x, f, kept);
    case ImportStep(x) => ImportStepCarries(s, x);
    case ExportStep(x) => ExportStepCarries(s, x, f, kept);
    case PurgeStep(x) => PurgeStepCarries(s, x, f, kept);
    case _ => RestCarries(s, a, f, kept);
  }

  /** Over every legal run, whatever purges and uploads do in between. */
  lemma {:induction false} RunCarries(s: System, run: seq<Action>, f: Flight, kept: map<AssetId, Content>)
    requires Inv(s, f, kept) && Carries(s) && Legal(s, run)
    ensures Carries(Final(s, run))
    decreases |run|
  {
    hide Inv, Carries, Enabled, Apply;
    if run != [] {
      StepCarries(s, run[0], f, kept);
      var g := StepKeeps(s, run[0], f, kept);
      RunCarries(Apply(s, run[0]), run[1..], g, kept);
    }
  }

  // ----- what a commit brings -----

  lemma MovedArrive(rows: map<AssetId, Row>, journal: map<TransferId, Journal>, order: seq<AssetId>, moved: map<AssetId, Row>,
                    primaries: seq<Option<AssetId>>, ids: set<AssetId>)
    requires |primaries| == |order| && Lists(order, ids) && Outside(rows, ids)
    requires (forall id :: id in order ==> id in moved) && LinkedDuplicates(moved)
    requires Lookups(rows, journal, order, moved, primaries)
    ensures var out := InsertRows(rows, order, moved, primaries);
      forall id :: id in ids ==> id in moved && id in out && Arrives(moved[id], out[id].duplicateOf, out[id])
  {
    hide Arrives, Lookups, InsertRows, LinkedDuplicates, CanonicalOf;
    InsertRowsLinks(rows, journal, order, moved, primaries, ids);
    var out := InsertRows(rows, order, moved, primaries);
    forall id | id in ids ensures id in moved && id in out && Arrives(moved[id], out[id].duplicateOf, out[id]) {
      var k :| 0 <= k < |order| && order[k] == id;
      LinkIs(moved[id], primaries[k], out[id]);
    }
  }

  lemma LinkIs(row: Row, primary: Option<AssetId>, out: Row)
    requires Arrives(row, primary, out)
    ensures Arrives(row, out.duplicateOf, out)
  {
  }

  /** The vault gets each row as main had it when the import began, and for each whole file a blob with its content. */
  lemma CommitImportBrings(s: System, order: seq<AssetId>, primaries: seq<Option<AssetId>>, f: Flight, kept: map<AssetId, Content>)
    requires Inv(s, f, kept) && RowsInOrder(s) && Carries(s) && StageEnabled(s, CommitImport(order, primaries))
    ensures var d, u := s.disk, StageApply(s, CommitImport(order, primaries)).disk;
      && (forall id :: id in s.pc.ids ==> id in u.vaultRows && Arrives(s.pc.rows[id], u.vaultRows[id].duplicateOf, u.vaultRows[id]))
      && (forall id :: id in s.pc.ids && id in d.mainRows ==>
            u.vaultRows[id].hash == d.mainRows[id].hash && u.vaultRows[id].trashedAt == d.mainRows[id].trashedAt)
      && (forall slot :: slot in d.plain && slot.asset in s.pc.ids && d.plain[slot].Complete? ==>
            slot in u.blobs && u.blobs[slot] in u.staged && u.staged[u.blobs[slot]].file == d.plain[slot])
  {
    hide Rows, VaultIntact, Followed, Progress, Records, Linked, OneCanonical, Lookups, InsertRows, SnapshotOk, StagingOk, LinkedDuplicates;
    MovedArrive(s.disk.vaultRows, s.disk.vaultJournal, order, s.pc.rows, primaries, s.pc.ids);
    hide Lists;
  }

  /** Main gets each row as the vault has it, and each blob's content as a plain file. */
  lemma CommitExportBrings(s: System, order: seq<AssetId>, primaries: seq<Option<AssetId>>, pages: set<AssetId>, f: Flight,
                           kept: map<AssetId, Content>)
    requires Inv(s, f, kept) && RowsInOrder(s) && Carries(s) && ExportEnabled(s, CommitExport(order, primaries, pages))
    ensures var d, u := s.disk, ExportApply(s, CommitExport(order, primaries, pages)).disk;
      && (forall id :: id in s.pc.ids ==>
            id in d.vaultRows && id in u.mainRows && Arrives(d.vaultRows[id], u.mainRows[id].duplicateOf, u.mainRows[id]))
      && (forall slot :: slot in d.blobs && slot.asset in s.pc.ids ==>
            slot in u.plain && d.blobs[slot] in d.sealed && u.plain[slot] == d.sealed[d.blobs[slot]])
  {
    hide Rows, VaultIntact, Followed, Progress, Records, Linked, OneCanonical, Lookups, InsertRows, SnapshotOk, WritingOk, LinkedDuplicates;
    MovedArrive(s.disk.mainRows, s.disk.mainJournal, order, s.pc.rows, primaries, s.pc.ids);
    hide Lists;
  }

  // ----- a failed export -----

  /** The plain files of an export's assets are those in `before` and those it has still to answer for. */
  ghost predicate Accounted(s: System, before: set<Slot>) {
    && (s.pc.Writing? ==> forall slot :: slot in s.disk.plain && slot.asset in s.pc.ids ==>
          slot in before || slot in s.pc.written || s.pc.current == Some(slot))
    && (s.pc.Unwriting? ==> forall slot :: slot in s.disk.plain && slot.asset in s.pc.ids ==> slot in before || slot in s.pc.leftover)
  }

  predicate Open(s: System) { s.pc.Writing? || s.pc.Unwriting? }

  lemma ExportAccounts(s: System, a: ExportAction, before: set<Slot>)
    requires Accounted(s, before) && Open(s) && ExportEnabled(s, a)
    ensures Accounted(ExportApply(s, a), before)
    ensures a.DropUnwritten? ==> forall slot :: slot in s.disk.plain && slot.asset in s.pc.ids ==> slot in before
    ensures Open(ExportApply(s, a)) ==> ExportApply(s, a).pc.ids == s.pc.ids
  {
    hide Lookups, InsertRows, Closure, Lists, ImportValid, RolledBack;
  }

  lemma PurgeAccounts(s: System, a: PurgeAction, before: set<Slot>)
    requires Accounted(s, before) && Open(s) && PurgeEnabled(s, a)
    ensures Accounted(PurgeApply(s, a), before) && PurgeApply(s, a).pc == s.pc
  {
    hide Referenced;
  }

  /** While an export is open no staging and no completion of a transfer is enabled. */
  lemma NothingElseOpen(s: System, a: Action)
    requires Open(s) && Enabled(s, a)
    ensures !a.StageStep? && !a.ImportStep?
  {
    hide Lookups, Lookup, Closure, Lists, FreshAsset, FreshBlob, ExportEnabled, PurgeEnabled, IndexAccepts;
  }

  lemma OthersAccount(s: System, a: Action, before: set<Slot>)
    requires Accounted(s, before) && Open(s) && Enabled(s, a) && !a.ExportStep?
    ensures Accounted(Apply(s, a), before) && (Open(Apply(s, a)) ==> Apply(s, a).pc.ids == s.pc.ids)
  {
    hide StageEnabled, StageApply, ImportEnabled, ImportApply, ExportEnabled, ExportApply, PurgeEnabled, PurgeApply, Lookup, IndexAccepts;
    NothingElseOpen(s, a);
    if a.PurgeStep? { PurgeAccounts(s, a.purge, before); }
  }

  /** The export stays open through the run: no commit, no crash. */
  ghost predicate StaysOpen(s: System, run: seq<Action>)
    requires Legal(s, run)
    decreases |run|
  {
    Open(s) && (run == [] || StaysOpen(Apply(s, run[0]), run[1..]))
  }

  lemma {:induction false} OpenRunAccounts(s: System, run: seq<Action>, before: set<Slot>)
    requires Accounted(s, before) && Legal(s, run) && StaysOpen(s, run)
    ensures Accounted(Final(s, run), before) && Open(Final(s, run)) && Final(s, run).pc.ids == s.pc.ids
    decreases |run|
  {
    hide Accounted;
    if run != [] {
      if run[0].ExportStep? { ExportAccounts(s, run[0].move, before); } else { OthersAccount(s, run[0], before); }
      OpenRunAccounts(Apply(s, run[0]), run[1..], before);
    }
  }

  /** An export that fails before its commit leaves no file of its assets that was not there when it began. */
  lemma FailedExportLeavesNothing(s: System, t: TransferId, ids: set<AssetId>, run: seq<Action>)
    requires ExportEnabled(s, BeginExport(t, ids))
    requires Legal(ExportApply(s, BeginExport(t, ids)), run) && StaysOpen(ExportApply(s, BeginExport(t, ids)), run)
    requires ExportEnabled(Final(ExportApply(s, BeginExport(t, ids)), run), DropUnwritten)
    ensures var u := Final(ExportApply(s, BeginExport(t, ids)), run);
      forall slot :: slot in ExportApply(u, DropUnwritten).disk.plain && slot.asset in ids ==> slot in s.disk.plain
  {
    hide Legal, Final, StaysOpen, ImportValid, Closure;
    var first := ExportApply(s, BeginExport(t, ids));
    OpenRunAccounts(first, run, s.disk.plain.Keys);
    ExportAccounts(Final(first, run), DropUnwritten, s.disk.plain.Keys);
  }

  /** Except that a file it refused to overwrite is gone. */
  lemma RefusedFileIsLost(s: System, slot: Slot)
    requires ExportEnabled(s, ClobberPlain(slot))
    ensures slot in s.disk.plain && slot !in ExportApply(s, ClobberPlain(slot)).disk.plain && slot !in s.pc.written
  {
  }
}
