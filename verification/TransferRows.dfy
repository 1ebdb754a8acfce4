/** The rows that transfers write: one canonical row a hash on each side, links that never dangle, pages that name rows. */
module TransferRows {
  import opened Basics
  import opened TransferModel
  import opened TransferInvariant
  import opened TransferSteps
  import opened TransferSafety

  // ----- insert_asset -----

  /** A link names a row of the same hash that has no link itself, and a `duplicate` row has one. */
  ghost predicate Linked(rows: map<AssetId, Row>) {
    forall a :: a in rows ==>
      match rows[a].duplicateOf
      case None => !rows[a].lifecycle.Duplicate?
      case Some(p) => p in rows && rows[p].duplicateOf.None? && rows[p].hash == rows[a].hash
  }

  predicate Canonical(row: Row) { row.lifecycle.Active? && row.duplicateOf.None? }

  /** The partial unique index. */
  ghost predicate OneCanonical(rows: map<AssetId, Row>) {
    forall a, b :: a in rows && b in rows && Canonical(rows[a]) && Canonical(rows[b]) && rows[a].hash == rows[b].hash ==> a == b
  }

  /** The row that arrives for `row` when its lookup found `primary`: the link is what was found; an active row or a duplicate
      is a duplicate with a link and active without; any other lifecycle stays; and only a duplicate that lost its link loses its date. */
  ghost predicate Arrives(row: Row, primary: Option<AssetId>, out: Row) {
    && out.duplicateOf == primary && out.hash == row.hash && out.trashedAt == row.trashedAt
    && (row.lifecycle.Trashed? || row.lifecycle.Purging? ==> out.lifecycle == row.lifecycle && out.purgeAfter == row.purgeAfter)
    && (row.lifecycle.Active? || row.lifecycle.Duplicate? ==>
          && (out.lifecycle.Duplicate? <==> out.duplicateOf.Some?) && (out.lifecycle.Active? <==> out.duplicateOf.None?)
          && out.purgeAfter == if row.lifecycle.Duplicate? && primary.None? then None else row.purgeAfter)
  }

  /** A duplicate comes with a link. */
  ghost predicate LinkedDuplicates(moved: map<AssetId, Row>) {
    forall a :: a in moved && moved[a].lifecycle.Duplicate? ==> moved[a].duplicateOf.Some?
  }

  lemma InsertedArrives(row: Row, primary: Option<AssetId>)
    requires row.lifecycle.Duplicate? ==> row.duplicateOf.Some?
    ensures Arrives(row, primary, InsertedRow(row, primary))
  {
  }

  /** One insert that the lookup allows keeps links and canonical rows as they should be. */
  lemma InsertKeepsRows(rows: map<AssetId, Row>, journal: map<TransferId, Journal>, id: AssetId, out: Row, primary: Option<AssetId>)
    requires Linked(rows) && OneCanonical(rows) && id !in rows && Lookup(rows, journal, out.hash, primary)
    requires out.duplicateOf == primary && (out.lifecycle.Duplicate? ==> primary.Some?)
    requires forall p :: p in rows && rows[p].hash == out.hash && Canonical(rows[p]) ==> !InSourceTransfer(journal, p)
    ensures Linked(rows[id := out]) && OneCanonical(rows[id := out])
  {
    hide InSourceTransfer;
  }

  /** What the commit of a transfer writes, row by row, with the lookups its inserts made: each moved row arrives by what its
      lookup found, links name canonical rows, and with no transfer of the destination pending each hash still has one at most. */
  lemma {:induction false} InsertRowsLinks(rows: map<AssetId, Row>, journal: map<TransferId, Journal>, order: seq<AssetId>,
                                           moved: map<AssetId, Row>, primaries: seq<Option<AssetId>>, ids: set<AssetId>)
    requires |primaries| == |order| && Lists(order, ids) && Outside(rows, ids)
    requires (forall id :: id in order ==> id in moved) && LinkedDuplicates(moved)
    requires Lookups(rows, journal, order, moved, primaries)
    ensures var out := InsertRows(rows, order, moved, primaries);
      && (forall id :: id in rows ==> id in out && out[id] == rows[id])
      && (forall k :: 0 <= k < |order| ==>
            order[k] in out && Arrives(moved[order[k]], primaries[k], out[order[k]]) && CanonicalOf(out, primaries[k], out[order[k]].hash))
    decreases |order|
  {
    if order != [] {
      hide InsertedRow, Linked, OneCanonical, Arrives, Lookup, InsertRows;
      var rest := order[1..];
      assert forall id :: id in order <==> id == order[0] || id in rest;
      var next := rows[order[0] := InsertedRow(moved[order[0]], primaries[0])];
      FirstInsert(rows, journal, order, moved, primaries);
      InsertRowsLinks(next, journal, rest, moved, primaries[1..], ids - {order[0]});
      var out := InsertRows(next, rest, moved, primaries[1..]);
      forall k | 0 <= k < |order|
        ensures order[k] in out && Arrives(moved[order[k]], primaries[k], out[order[k]]) && CanonicalOf(out, primaries[k], out[order[k]].hash)
      {
        if k > 0 { assert order[k] == rest[k - 1]; } else { CanonicalStays(rows, out, primaries[0], moved[order[0]].hash); }
      }
    }
  }

  /** A link names an active row of that hash without a link. */
  ghost predicate CanonicalOf(rows: map<AssetId, Row>, link: Option<AssetId>, hash: Content) {
    link.Some? ==> link.value in rows && rows[link.value].hash == hash && Canonical(rows[link.value])
  }

  lemma CanonicalStays(rows: map<AssetId, Row>, out: map<AssetId, Row>, link: Option<AssetId>, hash: Content)
    requires CanonicalOf(rows, link, hash) && forall id :: id in rows ==> id in out && out[id] == rows[id]
    ensures CanonicalOf(out, link, hash)
  {
  }

  lemma FirstInsert(rows: map<AssetId, Row>, journal: map<TransferId, Journal>, order: seq<AssetId>, moved: map<AssetId, Row>,
                    primaries: seq<Option<AssetId>>)
    requires |primaries| == |order| && order != [] && forall id :: id in order ==> id in moved
    requires Lookups(rows, journal, order, moved, primaries) && LinkedDuplicates(moved)
    ensures Lookup(rows, journal, moved[order[0]].hash, primaries[0])
    ensures forall id :: id in order[1..] ==> id in moved
    ensures var next := rows[order[0] := InsertedRow(moved[order[0]], primaries[0])];
      && Lookups(next, journal, order[1..], moved, primaries[1..])
      && InsertRows(rows, order, moved, primaries) == InsertRows(next, order[1..], moved, primaries[1..])
      && Arrives(moved[order[0]], primaries[0], next[order[0]])
      && CanonicalOf(rows, primaries[0], moved[order[0]].hash)
  {
    assert forall id :: id in order[1..] ==> id in order;
    InsertedArrives(moved[order[0]], primaries[0]);
    hide InsertedRow;
  }

  /** No pending source transfer names one of these rows. */
  ghost predicate Unleased(journal: map<TransferId, Journal>, rows: map<AssetId, Row>, ids: set<AssetId>) {
    forall p :: p in rows || p in ids ==> !InSourceTransfer(journal, p)
  }

  /** A commit keeps links and canonical rows as they should be, unless a pending source transfer hides a canonical row from its
      lookups: the unique index never refuses it. */
  lemma {:induction false} InsertRowsKeep(rows: map<AssetId, Row>, journal: map<TransferId, Journal>, order: seq<AssetId>,
                                          moved: map<AssetId, Row>, primaries: seq<Option<AssetId>>, ids: set<AssetId>)
    requires |primaries| == |order| && Lists(order, ids) && Outside(rows, ids)
    requires (forall id :: id in order ==> id in moved) && LinkedDuplicates(moved)
    requires Lookups(rows, journal, order, moved, primaries) && Unleased(journal, rows, ids)
    requires Linked(rows) && OneCanonical(rows)
    ensures Linked(InsertRows(rows, order, moved, primaries)) && OneCanonical(InsertRows(rows, order, moved, primaries))
    decreases |order|
  {
    if order != [] {
      hide InsertedRow, Linked, OneCanonical, Lookup, InsertRows, InSourceTransfer;
      var rest := order[1..];
      assert forall id :: id in order <==> id == order[0] || id in rest;
      var next := rows[order[0] := InsertedRow(moved[order[0]], primaries[0])];
      FirstInsert(rows, journal, order, moved, primaries);
      InsertKeepsRows(rows, journal, order[0], next[order[0]], primaries[0]);
      InsertRowsKeep(next, journal, rest, moved, primaries[1..], ids - {order[0]});
    }
  }

  // ----- single transactions -----

  /** Which rows the selection of a purge marks, from their own fields. */
  lemma MarkDueRow(s: System, now: int, id: AssetId)
    requires PurgeEnabled(s, MarkDue(now)) && id in s.disk.mainRows
    ensures var row, rows := s.disk.mainRows[id], PurgeApply(s, MarkDue(now)).disk.mainRows;
      && rows.Keys == s.disk.mainRows.Keys
      && (if (row.lifecycle.Duplicate? || row.lifecycle.Trashed?) && row.purgeAfter.Some? && row.purgeAfter.value < now
             && id !in s.disk.pages && (forall r :: r in s.disk.mainRows ==> s.disk.mainRows[r].duplicateOf != Some(id))
          then rows[id] == row.(lifecycle := Purging) else rows[id] == row)
  {
  }

  /** A blocked tombstone returns to the state its other fields tell of. */
  lemma RestoredByTrace(s: System, id: AssetId)
    requires PurgeEnabled(s, RestoreBlocked(id))
    ensures var row, out := s.disk.mainRows[id], PurgeApply(s, RestoreBlocked(id)).disk.mainRows[id];
      && out == row.(lifecycle := out.lifecycle) && !out.lifecycle.Purging?
      && (out.lifecycle.Active? <==> !row.trashedAt && id in s.disk.pages)
      && (out.lifecycle.Duplicate? <==> !row.trashedAt && id !in s.disk.pages && row.duplicateOf.Some?)
  {
  }

  /** A lease takes exactly the transfer's rows out of sight, on either side, and a new import of the same content cannot link to them. */
  lemma LeaseHides(rows: map<AssetId, Row>, ids: set<AssetId>, hash: Content)
    ensures var out := LeaseRows(rows, ids);
      && out.Keys == rows.Keys && (forall id :: id in rows && id !in ids ==> out[id] == rows[id])
      && (forall id :: id in rows && id in ids ==> out[id].hash == rows[id].hash && out[id].duplicateOf == rows[id].duplicateOf)
      && forall id :: id in ids ==> !Visible(out, id) && !IsPrimary(out, hash, id)
  {
  }

  /** The lease of an import takes its rows out of sight in main... */
  lemma LeaseTakes(s: System)
    requires ImportEnabled(s, Lease)
    ensures var u := ImportApply(s, Lease).disk;
      && u == s.disk.(mainRows := u.mainRows) && u.mainRows.Keys == s.disk.mainRows.Keys
      && (forall id :: id in s.pc.ids ==> !Visible(u.mainRows, id))
      && (forall id :: id in u.mainRows && id !in s.pc.ids ==> u.mainRows[id] == s.disk.mainRows[id])
  {
    LeaseHides(s.disk.mainRows, s.pc.ids, 0);
  }

  /** ... but the repair of blocked tombstones cannot tell a lease from one: a leased row that a duplicate links to comes back into
      sight, as trashed, while its files go. */
  lemma LeaseCanBeUndone(s: System, id: AssetId)
    requires ImportEnabled(s, Lease) && id in s.pc.ids && id in s.disk.mainRows
    requires Referenced(s.disk.mainRows, id) && id !in s.disk.pages && s.disk.mainRows[id].duplicateOf.None?
    ensures var u := ImportApply(s, Lease);
      PurgeEnabled(u, RestoreBlocked(id)) && Visible(PurgeApply(u, RestoreBlocked(id)).disk.mainRows, id)
  {
    var r :| r in s.disk.mainRows && s.disk.mainRows[r].duplicateOf == Some(id);
    assert ImportApply(s, Lease).disk.mainRows[r].duplicateOf == Some(id);
  }

  /** An upload is a duplicate with a date exactly when its lookup found a canonical row. */
  lemma IngestedArrives(content: Content, primary: Option<AssetId>, retention: int)
    ensures var out := IngestedRow(content, primary, retention);
      && out.hash == content && out.duplicateOf == primary && !out.trashedAt
      && (out.lifecycle.Duplicate? <==> primary.Some?) && (out.lifecycle.Active? <==> primary.None?)
      && (primary.Some? ==> out.purgeAfter == Some(retention)) && (primary.None? ==> out.purgeAfter.None?)
  {
  }

  /** A purge unlinks the files of its row one by one, and deletes that row alone, once no file of it is left. */
  lemma PurgeTakes(s: System, kind: Kind)
    requires s.purge.Deleting?
    ensures var u := PurgeApply(s, UnlinkPurged(kind));
      forall slot :: slot in u.disk.plain <==> slot in s.disk.plain && slot != Slot(s.purge.id, kind)
    ensures PurgeEnabled(s, FinishDelete) ==>
      var u := PurgeApply(s, FinishDelete);
      && u.disk.mainRows.Keys == s.disk.mainRows.Keys - {s.purge.id} && u.purge.PurgeIdle?
      && (forall id :: id in u.disk.mainRows ==> u.disk.mainRows[id] == s.disk.mainRows[id])
      && forall slot :: slot in u.disk.plain ==> slot.asset != s.purge.id
  {
    if PurgeEnabled(s, FinishDelete) {
      forall slot | slot in s.disk.plain ensures slot.asset != s.purge.id { assert slot !in SlotsOf(s.disk.plain, {s.purge.id}); }
    }
  }

  /** A direct ingest into the vault is a duplicate with a date exactly when its lookup found a canonical row. */
  lemma DirectArrives(s: System, id: AssetId, primary: Option<AssetId>, retention: int)
    requires StageEnabled(s, CommitDirect(id, primary, retention)) && Canonical(s.pc.rows[id])
    ensures var rows := StageApply(s, CommitDirect(id, primary, retention)).disk.vaultRows;
      && rows.Keys == s.disk.vaultRows.Keys + {id} && (forall a :: a in s.disk.vaultRows ==> rows[a] == s.disk.vaultRows[a])
      && rows[id].hash == s.pc.rows[id].hash && rows[id].duplicateOf == primary
      && (rows[id].lifecycle.Duplicate? <==> primary.Some?) && (rows[id].lifecycle.Active? <==> primary.None?)
      && rows[id].purgeAfter == (if primary.Some? then Some(retention) else s.pc.rows[id].purgeAfter)
  {
  }

  // ----- every step, every run -----

  /** Both tables are in order, stack pages name rows, and nothing names the row that a purge is deleting. */
  ghost predicate RowsInOrder(s: System) {
    var d := s.disk;
    && Linked(d.mainRows) && OneCanonical(d.mainRows) && Linked(d.vaultRows) && OneCanonical(d.vaultRows)
    && (forall id :: id in d.pages ==> id in d.mainRows)
    && (s.pc.Staging? || s.pc.Writing? ==> LinkedDuplicates(s.pc.rows))
    && (s.pc.Staging? && s.pc.direction.DirectIngest? ==> forall a :: a in s.pc.rows ==> Canonical(s.pc.rows[a]))
    && (s.purge.Deleting? ==> s.purge.id !in d.pages && !Referenced(d.mainRows, s.purge.id))
  }

  /** Fewer rows, with the links of the rest unbroken, and lifecycles that only become `purging`. */
  lemma FewerRows(rows: map<AssetId, Row>, after: map<AssetId, Row>)
    requires Linked(rows) && OneCanonical(rows)
    requires forall id :: id in after ==>
      id in rows && (after[id] == rows[id] || after[id] == rows[id].(lifecycle := Purging))
    requires forall id :: id in after && after[id].duplicateOf.Some? ==> after[id].duplicateOf.value in after
    ensures Linked(after) && OneCanonical(after)
  {
  }

  lemma StageRows(s: System, a: StageAction, f: Flight, kept: map<AssetId, Content>)
    requires RowsInOrder(s) && Records(s.disk, f) && Control(s, f, kept) && StageEnabled(s, a)
    ensures RowsInOrder(StageApply(s, a))
  {
    match a
    case CommitImport(order, primaries) => CommitImportRows(s, order, primaries, f, kept);
    case CommitDirect(id, primary, retention) => CommitDirectRows(s, id, primary, retention, f, kept);
    case _ => hide Linked, OneCanonical, Lookups, InsertRows, StagingOk, FreshAsset, FreshBlob, Closure, Referenced;
  }

  lemma CommitImportRows(s: System, order: seq<AssetId>, primaries: seq<Option<AssetId>>, f: Flight, kept: map<AssetId, Content>)
    requires RowsInOrder(s) && Records(s.disk, f) && Control(s, f, kept) && StageEnabled(s, CommitImport(order, primaries))
    ensures RowsInOrder(StageApply(s, CommitImport(order, primaries)))
  {
    hide StagingOk, SnapshotOk, Linked, OneCanonical, InsertRows, Lookups, LinkedDuplicates, Referenced;
    InsertRowsKeep(s.disk.vaultRows, s.disk.vaultJournal, order, s.pc.rows, primaries, s.pc.ids);
  }

  lemma CommitDirectRows(s: System, id: AssetId, primary: Option<AssetId>, retention: int, f: Flight, kept: map<AssetId, Content>)
    requires RowsInOrder(s) && Records(s.disk, f) && Control(s, f, kept) && StageEnabled(s, CommitDirect(id, primary, retention))
    ensures RowsInOrder(StageApply(s, CommitDirect(id, primary, retention)))
  {
    hide StagingOk, SnapshotOk, Linked, OneCanonical, Lookup, LinkedDuplicates, Referenced;
    InsertKeepsRows(s.disk.vaultRows, s.disk.vaultJournal, id, StageApply(s, CommitDirect(id, primary, retention)).disk.vaultRows[id], primary);
  }

  lemma ImportRows(s: System, a: ImportAction, f: Flight, kept: map<AssetId, Content>)
    requires RowsInOrder(s) && Records(s.disk, f) && Progress(s.disk, f) && Control(s, f, kept) && ImportEnabled(s, a)
    ensures RowsInOrder(ImportApply(s, a))
  {
    hide Linked, OneCanonical, Progress, Control, Closure, Referenced, LinkedDuplicates, Records, ImportValid;
    match a
    case Lease => LeaseInOrder(s);
    case DeleteRows => DeleteRowsInOrder(s, f, kept);
    case _ =>
  }

  lemma LeaseInOrder(s: System)
    requires RowsInOrder(s) && ImportEnabled(s, Lease)
    ensures RowsInOrder(ImportApply(s, Lease))
  {
    FewerRows(s.disk.mainRows, ImportApply(s, Lease).disk.mainRows);
  }

  lemma DeleteRowsInOrder(s: System, f: Flight, kept: map<AssetId, Content>)
    requires RowsInOrder(s) && Records(s.disk, f) && Progress(s.disk, f) && Control(s, f, kept) && ImportEnabled(s, DeleteRows)
    ensures RowsInOrder(ImportApply(s, DeleteRows))
  {
    assert Closure(s.disk.mainRows, s.pc.ids);
    FewerRows(s.disk.mainRows, ImportApply(s, DeleteRows).disk.mainRows);
  }

  lemma ExportRows(s: System, a: ExportAction, f: Flight, kept: map<AssetId, Content>)
    requires RowsInOrder(s) && Records(s.disk, f) && Progress(s.disk, f) && Control(s, f, kept) && ExportEnabled(s, a)
    ensures RowsInOrder(ExportApply(s, a))
  {
    hide Linked, OneCanonical, Progress, Control, Closure, Referenced, Lookups, InsertRows, Records, Lists, ImportValid, RolledBack;
    match a
    case CommitExport(order, primaries, pages) => CommitExportRows(s, order, primaries, pages, f, kept);
    case LeaseVault => LeaseVaultInOrder(s);
    case DeleteVaultRows => DeleteVaultRowsInOrder(s, f, kept);
    case BeginExport(t, ids) => BeginExportInOrder(s, t, ids);
    case _ =>
  }

  lemma LeaseVaultInOrder(s: System)
    requires RowsInOrder(s) && ExportEnabled(s, LeaseVault)
    ensures RowsInOrder(ExportApply(s, LeaseVault))
  {
    FewerRows(s.disk.vaultRows, ExportApply(s, LeaseVault).disk.vaultRows);
  }

  lemma BeginExportInOrder(s: System, t: TransferId, ids: set<AssetId>)
    requires RowsInOrder(s) && ExportEnabled(s, BeginExport(t, ids))
    ensures RowsInOrder(ExportApply(s, BeginExport(t, ids)))
  {
    hide OneCanonical, Closure, ImportValid, Referenced;
  }

  lemma DeleteVaultRowsInOrder(s: System, f: Flight, kept: map<AssetId, Content>)
    requires RowsInOrder(s) && Records(s.disk, f) && Progress(s.disk, f) && Control(s, f, kept) && ExportEnabled(s, DeleteVaultRows)
    ensures RowsInOrder(ExportApply(s, DeleteVaultRows))
  {
    assert Closure(s.disk.vaultRows, s.pc.ids);
    FewerRows(s.disk.vaultRows, ExportApply(s, DeleteVaultRows).disk.vaultRows);
  }

  lemma CommitExportRows(s: System, order: seq<AssetId>, primaries: seq<Option<AssetId>>, pages: set<AssetId>, f: Flight,
                         kept: map<AssetId, Content>)
    requires RowsInOrder(s) && Records(s.disk, f) && Control(s, f, kept) && ExportEnabled(s, CommitExport(order, primaries, pages))
    ensures RowsInOrder(ExportApply(s, CommitExport(order, primaries, pages)))
  {
    hide WritingOk, SnapshotOk, Linked, OneCanonical, InsertRows, Lookups, LinkedDuplicates, Referenced;
    InsertRowsKeep(s.disk.mainRows, s.disk.mainJournal, order, s.pc.rows, primaries, s.pc.ids);
    InsertRowsSpec(s.disk.mainRows, order, s.pc.rows, primaries, s.pc.ids);
  }

  lemma PurgeRows(s: System, a: PurgeAction)
    requires RowsInOrder(s) && PurgeEnabled(s, a)
    ensures RowsInOrder(PurgeApply(s, a))
  {
    match a
    case MarkDue(now) => FewerRows(s.disk.mainRows, PurgeApply(s, a).disk.mainRows);
    case RestoreBlocked(id) => RestoredInOrder(s, id);
    case FinishDelete => FinishedInOrder(s);
    case _ => hide Linked, OneCanonical, LinkedDuplicates;
  }

  lemma RestoredInOrder(s: System, id: AssetId)
    requires RowsInOrder(s) && PurgeEnabled(s, RestoreBlocked(id))
    ensures RowsInOrder(PurgeApply(s, RestoreBlocked(id)))
  {
  }

  lemma FinishedInOrder(s: System)
    requires RowsInOrder(s) && PurgeEnabled(s, FinishDelete)
    ensures RowsInOrder(PurgeApply(s, FinishDelete))
  {
    var u := PurgeApply(s, FinishDelete);
    forall id | id in u.disk.mainRows && u.disk.mainRows[id].duplicateOf.Some? ensures u.disk.mainRows[id].duplicateOf.value in u.disk.mainRows {
      assert s.disk.mainRows[id].duplicateOf != Some(s.purge.id);
    }
    FewerRows(s.disk.mainRows, u.disk.mainRows);
  }

  lemma IngestRows(s: System, id: AssetId, content: Content, primary: Option<AssetId>, retention: int)
    requires RowsInOrder(s) && Enabled(s, Ingest(id, content, primary, retention))
    ensures RowsInOrder(Apply(s, Ingest(id, content, primary, retention)))
  {
  }

  lemma StepRows(s: System, a: Action, f: Flight, kept: map<AssetId, Content>)
    requires Inv(s, f, kept) && RowsInOrder(s) && Enabled(s, a)
    ensures RowsInOrder(Apply(s, a))
  {
    hide RowsInOrder, StageEnabled, StageApply, ImportEnabled, ImportApply, ExportEnabled, ExportApply, PurgeEnabled, PurgeApply,
         Rows, VaultIntact, Followed, Progress, Records, Control;
    match a
    case StageStep(x) => StageRows(s, x, f, kept);
    case ImportStep(x) => ImportRows(s, x, f, kept);
    case ExportStep(x) => ExportRows(s, x, f, kept);
    case PurgeStep(x) => PurgeRows(s, x);
    case Ingest(id, content, primary, retention) => IngestRows(s, id, content, primary, retention);
    case _ => PointerRows(s, a);
  }

  /** The remaining steps move the program counters only. */
  lemma PointerRows(s: System, a: Action)
    requires RowsInOrder(s) && Enabled(s, a)
    requires !a.StageStep? && !a.ImportStep? && !a.ExportStep? && !a.PurgeStep? && !a.Ingest?
    ensures RowsInOrder(Apply(s, a))
  {
    hide StageEnabled, StageApply, ImportEnabled, ImportApply, ExportEnabled, ExportApply, PurgeEnabled, PurgeApply,
         Linked, OneCanonical, LinkedDuplicates, Referenced;
  }

  /** Over every legal run the unique index holds on both sides, no link dangles or leads to a link, and no page loses its row. */
  lemma {:induction false} RunRows(s: System, run: seq<Action>, f: Flight, kept: map<AssetId, Content>)
    requires Inv(s, f, kept) && RowsInOrder(s) && Legal(s, run)
    ensures RowsInOrder(Final(s, run))
    decreases |run|
  {
    hide Inv, RowsInOrder, Enabled, Apply;
    if run != [] {
      StepRows(s, run[0], f, kept);
      var g := StepKeeps(s, run[0], f, kept);
      RunRows(Apply(s, run[0]), run[1..], g, kept);
    }
  }

  /** So from rest: whatever transfers, purges, uploads and crashes do, the index would have accepted every row there is. */
  lemma RowsFromRest(s: System, run: seq<Action>, kept: map<AssetId, Content>)
    requires AtRest(s, kept) && RowsInOrder(s) && Legal(s, run)
    ensures var d := Final(s, run).disk;
      && Linked(d.mainRows) && OneCanonical(d.mainRows) && Linked(d.vaultRows) && OneCanonical(d.vaultRows)
      && forall id :: id in d.pages ==> id in d.mainRows
  {
    hide Linked, OneCanonical, Legal, Final, Inv, AtRest;
    AtRestInv(s, kept);
    RunRows(s, run, Quiet, kept);
  }

  /** The index never refuses the rows of a commit: a reachable state satisfies what `InsertRowsKeep` asks for. */
  lemma CommitsAccepted(s: System, f: Flight, kept: map<AssetId, Content>, a: Action)
    requires Inv(s, f, kept) && RowsInOrder(s) && Enabled(s, a)
    ensures a.StageStep? && a.stage.CommitImport? ==>
      OneCanonical(InsertRows(s.disk.vaultRows, a.stage.order, s.pc.rows, a.stage.primaries))
    ensures a.ExportStep? && a.move.CommitExport? ==>
      OneCanonical(InsertRows(s.disk.mainRows, a.move.order, s.pc.rows, a.move.primaries))
  {
    hide Rows, VaultIntact, Followed, Progress, Linked, OneCanonical, InsertRows, Lookups, SnapshotOk, StagingOk, WritingOk;
    StepRows(s, a, f, kept);
  }
}
