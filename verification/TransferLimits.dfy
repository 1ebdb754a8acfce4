/** Where convergence stops: an export whose assets the purge service may still select. */
module TransferLimits {
  import opened Basics
  import opened TransferModel
  import opened TransferInvariant
  import opened TransferSafety
  import opened TransferDelivery

  /** An export on record has committed, a purge has marked or taken one of its assets since, and no
      other transfer is on record. */
  ghost predicate Stuck(s: System, t: TransferId, id: AssetId) {
    var d := s.disk;
    && d.vaultJournal.Keys == {t} && d.mainJournal.Keys <= {t}
    && d.vaultJournal[t].direction.ExportDirection? && d.vaultJournal[t].role.Source?
    && id in d.vaultJournal[t].ids && Lost(d, id)
    && (if t in d.mainJournal then d.mainJournal[t].direction.ExportDirection? && d.mainJournal[t].role.Destination?
        else id !in d.vaultRows)
    && match s.pc
       case Idle => true
       case SweepingOrphans => true
       case Exporting(u, ids, _, at) => u == t && ids == d.vaultJournal[t].ids && at.Validating? && t in d.mainJournal
       case RollingBack(u, ids) => u == t && ids == d.vaultJournal[t].ids && t !in d.mainJournal
       case _ => false
  }

  lemma NothingNewBegins(s: System, a: StageAction, t: TransferId, id: AssetId)
    requires Stuck(s, t, id)
    ensures !StageEnabled(s, a)
  {
    assert t in s.disk.vaultJournal;
  }

  lemma OnlySweeping(s: System, a: ImportAction, t: TransferId, id: AssetId)
    requires Stuck(s, t, id) && ImportEnabled(s, a)
    ensures Stuck(ImportApply(s, a), t, id)
  {
    assert a.RemoveStaged? || a.RemoveDir?;
  }

  lemma NotRolledBack(s: System, t: TransferId, id: AssetId)
    requires Stuck(s, t, id) && s.pc.RollingBack?
    ensures id in s.pc.ids && !RolledBack(s.disk, id)
  {
  }

  /** Validation and the end of the roll-back both need the row to be visible. */
  lemma OnlyUnlinking(s: System, a: ExportAction, t: TransferId, id: AssetId)
    requires Stuck(s, t, id) && ExportEnabled(s, a)
    ensures Stuck(ExportApply(s, a), t, id)
  {
    hide ImportValid, Closure, Lookups, RolledBack;
    assert t in s.disk.vaultJournal;
    if s.pc.RollingBack? {
      NotRolledBack(s, t, id);
    }
  }

  lemma PurgeAddsNothing(s: System, a: PurgeAction, t: TransferId, id: AssetId)
    requires Stuck(s, t, id) && PurgeEnabled(s, a)
    ensures Stuck(PurgeApply(s, a), t, id)
  {
  }

  lemma RestStaysStuck(s: System, a: Action, t: TransferId, id: AssetId)
    requires Stuck(s, t, id) && Enabled(s, a) && !a.StageStep? && !a.ImportStep? && !a.ExportStep? && !a.PurgeStep?
    ensures Stuck(Apply(s, a), t, id)
  {
    hide StageEnabled, StageApply, ImportEnabled, ImportApply, ExportEnabled, ExportApply, PurgeEnabled, PurgeApply;
    assert t in s.disk.vaultJournal;
  }

  lemma StuckStep(s: System, a: Action, t: TransferId, id: AssetId)
    requires Stuck(s, t, id) && Enabled(s, a)
    ensures Stuck(Apply(s, a), t, id)
  {
    hide Stuck, StageEnabled, StageApply, ImportEnabled, ImportApply, ExportEnabled, ExportApply, PurgeEnabled, PurgeApply;
    match a
    case StageStep(x) => NothingNewBegins(s, x, t, id);
    case ImportStep(x) => OnlySweeping(s, x, t, id);
    case ExportStep(x) => OnlyUnlinking(s, x, t, id);
    case PurgeStep(x) => PurgeAddsNothing(s, x, t, id);
    case _ => RestStaysStuck(s, a, t, id);
  }

  /** Neither reconciliation nor anything else ever closes such an export. */
  lemma {:induction false} ExportNeverCloses(s: System, run: seq<Action>, t: TransferId, id: AssetId)
    requires Stuck(s, t, id) && Legal(s, run)
    ensures Stuck(Final(s, run), t, id)
    decreases |run|
  {
    if run != [] {
      StuckStep(s, run[0], t, id);
      ExportNeverCloses(Apply(s, run[0]), run[1..], t, id);
    }
  }

  lemma BlockedIsStuck(s: System, f: Flight, kept: map<AssetId, Content>, id: AssetId) returns (t: TransferId)
    requires Inv(s, f, kept) && Delivered(s.disk) && s.pc.Idle?
    requires id in Exported(s.disk) && !Visible(s.disk.mainRows, id)
    ensures Stuck(s, t, id)
  {
    if f.ExportCommitted? || f.ExportClosing? {
      ExportedIds(s.disk, f);
    } else {
      NothingExported(s.disk, f);
    }
    t := f.transfer;
    hide Rows, VaultIntact, Followed, Exported;
  }

  /** Whatever runs from such a state, reconciliation included, leaves the transfer on record. */
  lemma BlockedForEver(s: System, run: seq<Action>, f: Flight, kept: map<AssetId, Content>, id: AssetId)
    requires Inv(s, f, kept) && Delivered(s.disk) && s.pc.Idle? && Legal(s, run)
    requires id in Exported(s.disk) && !Visible(s.disk.mainRows, id)
    ensures Final(s, run).disk.vaultJournal != map[]
  {
    hide Legal, Final, Inv, Delivered, Exported;
    var t := BlockedIsStuck(s, f, kept, id);
    ExportNeverCloses(s, run, t, id);
    assert t in Final(s, run).disk.vaultJournal;
  }

  lemma LegalCons(s: System, a: Action, rest: seq<Action>)
    requires Enabled(s, a) && Legal(Apply(s, a), rest)
    ensures Legal(s, [a] + rest) && Final(s, [a] + rest) == Final(Apply(s, a), rest)
  {
    assert ([a] + rest)[1..] == rest;
  }

  lemma LegalOne(s: System, a: Action)
    requires Enabled(s, a)
    ensures Legal(s, [a]) && Final(s, [a]) == Apply(s, a)
  {
    assert [a][1..] == [];
  }

  const BLOB := BlobId(0, Slot(1, Original))

  /** One trashed asset in the vault, due for purge. */
  function Trash(): Row { Row(7, Trashed, None, true, Some(0)) }

  function Before(): System {
    System(Disk(map[], map[], {}, map[1 := Trash()], map[], map[BLOB.slot := BLOB], map[], map[BLOB := Complete(7)], map[], {}),
           Idle, PurgeIdle)
  }

  function Committed(): System {
    System(Disk(map[1 := Trash()], map[0 := Journal(ExportDirection, Destination, {1}, DestinationReady)], {},
                map[1 := Trash()], map[0 := Journal(ExportDirection, Source, {1}, Preparing)],
                map[BLOB.slot := BLOB], map[BLOB.slot := Complete(7)], map[BLOB := Complete(7)], map[], {}),
           Exporting(0, {1}, Preparing, Validating), PurgeIdle)
  }

  lemma {:induction false} LegalConcat(s: System, first: seq<Action>, second: seq<Action>)
    requires Legal(s, first) && Legal(Final(s, first), second)
    ensures Legal(s, first + second) && Final(s, first + second) == Final(Final(s, first), second)
    decreases |first|
  {
    if first == [] {
      assert first + second == second;
    } else {
      LegalConcat(Apply(s, first[0]), first[1..], second);
      assert (first + second)[1..] == first[1..] + second;
    }
  }

  function Written(): System {
    System(Disk(map[], map[], {}, map[1 := Trash()], map[0 := Journal(ExportDirection, Source, {1}, Preparing)],
                map[BLOB.slot := BLOB], map[BLOB.slot := Complete(7)], map[BLOB := Complete(7)], map[], {}),
           Writing(0, {1}, map[1 := Trash()], {BLOB.slot}, {BLOB.slot}, None), PurgeIdle)
  }

  lemma WritesExport() returns (run: seq<Action>)
    ensures Legal(Before(), run) && Final(Before(), run) == Written()
  {
    hide Legal, Final;
    var slot := BLOB.slot;
    var s0 := Before();
    var a0 := ExportStep(BeginExport(0, {1}));
    var s1 := Apply(s0, a0);
    assert SlotsOf(s0.disk.blobs, {1}) == {slot};
    assert s1.pc.rows == map[1 := Trash()];
    var a1 := ExportStep(OpenPlain(slot));
    var s2 := Apply(s1, a1);
    var a2 := ExportStep(WritePlain);
    var s3 := Apply(s2, a2);
    assert s3.disk.plain == map[slot := Complete(7)] && s3.pc.written == {slot};
    LegalOne(s2, a2);
    LegalCons(s1, a1, [a2]);
    LegalCons(s0, a0, [a1] + [a2]);
    run := [a0] + ([a1] + [a2]);
  }

  lemma CommitsExport() returns (a: Action)
    ensures Legal(Written(), [a]) && Final(Written(), [a]) == Committed()
  {
    hide Legal, Final;
    a := ExportStep(CommitExport([1], [None], {}));
    assert Lists([1], {1}) by { assert 1 in [1]; }
    assert InsertRows(map[], [1], map[1 := Trash()], [None]) == map[1 := Trash()];
    LegalOne(Written(), a);
  }

  lemma PurgeMarksIt()
    ensures Legal(Committed(), [Crash, PurgeStep(MarkDue(1))])
    ensures Stuck(Final(Committed(), [Crash, PurgeStep(MarkDue(1))]), 0, 1)
  {
    hide Legal, Final;
    var s0 := Committed();
    var s1 := Apply(s0, Crash);
    var a1 := PurgeStep(MarkDue(1));
    assert Apply(s1, a1).disk.mainRows == map[1 := Trash().(lifecycle := Purging)];
    LegalOne(s1, a1);
    LegalCons(s0, Crash, [a1]);
    assert [Crash] + [a1] == [Crash, a1];
  }

  /** Such a state is reached from rest: export a trashed asset that is due, crash after the commit, and
      let the hourly purge mark it before the next unlock. */
  lemma ScheduledPurgeBlocksExport() returns (run: seq<Action>)
    ensures AtRest(Before(), map[]) && Legal(Before(), run) && Stuck(Final(Before(), run), 0, 1)
  {
    hide Legal, Final, Stuck;
    var written := WritesExport();
    var commit := CommitsExport();
    LegalConcat(Before(), written, [commit]);
    PurgeMarksIt();
    LegalConcat(Before(), written + [commit], [Crash, PurgeStep(MarkDue(1))]);
    run := written + [commit] + [Crash, PurgeStep(MarkDue(1))];
  }
}
