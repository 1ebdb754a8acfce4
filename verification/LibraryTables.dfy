/** The tables of one library database, and the invariants its services keep together. */
module LibraryTables {
  import opened Basics

  type StackId = nat
  type ChapterId = nat

  datatype Asset = Asset(hash: Content, lifecycle: Lifecycle, duplicateOf: Option<AssetId>, inTimeline: bool, visible: bool,
                         trashedAt: bool, purgeAfter: Option<int>)

  datatype Chapter = Chapter(stack: StackId, no: int)

  /** The primary key of `stack_pages`: an asset is on one page of a stack at most. */
  datatype PageKey = PageKey(stack: StackId, asset: AssetId)

  datatype Page = Page(chapter: ChapterId, no: int, show: bool)

  type Assets = map<AssetId, Asset>
  type Pages = map<PageKey, Page>

  // ----- queries -----

  /** A row of the partial unique index on `hash`. */
  predicate IsPrimary(assets: Assets, hash: Content, id: AssetId) {
    && id in assets && assets[id].hash == hash
    && assets[id].lifecycle.Active? && assets[id].duplicateOf.None?
  }

  predicate Referenced(assets: Assets, id: AssetId) {
    exists d :: d in assets && assets[d].duplicateOf == Some(id)
  }

  predicate OnPage(pages: Pages, id: AssetId) {
    exists k :: k in pages && k.asset == id
  }

  /** Some page of the asset has `show_in_timeline = 0`. */
  predicate Hidden(pages: Pages, id: AssetId) {
    exists k :: k in pages && k.asset == id && !pages[k].show
  }

  // ----- invariants -----

  /** Each link names a row of the same hash that has no link itself; a `duplicate` row has a link. */
  ghost predicate Stars(assets: Assets) {
    forall a :: a in assets ==>
      match assets[a].duplicateOf
      case None => !assets[a].lifecycle.Duplicate?
      case Some(p) => p in assets && assets[p].duplicateOf.None? && assets[p].hash == assets[a].hash
  }

  /** The partial unique index. */
  ghost predicate UniquePrimaries(assets: Assets) {
    forall a, b :: a in assets && IsPrimary(assets, assets[a].hash, a) && IsPrimary(assets, assets[a].hash, b) ==> a == b
  }

  /** No page and no link names a `purging` row. */
  ghost predicate PurgeSafe(assets: Assets, pages: Pages) {
    && (forall k :: k in pages && k.asset in assets ==> !assets[k.asset].lifecycle.Purging?)
    && (forall d :: d in assets && assets[d].duplicateOf.Some? && assets[d].duplicateOf.value in assets ==>
          !assets[assets[d].duplicateOf.value].lifecycle.Purging?)
  }

  predicate VisibleNow(row: Asset, hidden: bool) {
    row.lifecycle.Active? && row.inTimeline && !hidden
  }

  ghost predicate Cached(assets: Assets, pages: Pages) {
    forall a :: a in assets ==> (assets[a].visible <==> VisibleNow(assets[a], Hidden(pages, a)))
  }

  /** Chapters of a stack are numbered 1.. in the order `order` gives. */
  ghost predicate ChaptersNumbered(stacks: map<StackId, Option<AssetId>>, chapters: map<ChapterId, Chapter>,
                             order: map<StackId, seq<ChapterId>>) {
    && order.Keys == stacks.Keys
    && (forall s, i :: s in order && 0 <= i < |order[s]| ==> order[s][i] in chapters && chapters[order[s][i]] == Chapter(s, i + 1))
    && (forall c :: c in chapters ==>
          && chapters[c].stack in order && 1 <= chapters[c].no <= |order[chapters[c].stack]|
          && order[chapters[c].stack][chapters[c].no - 1] == c)
  }

  /** Pages of chapter `c` are numbered 1.. in the order of `ids`. */
  ghost predicate Numbered(pages: Pages, s: StackId, c: ChapterId, ids: seq<AssetId>) {
    && (forall i :: 0 <= i < |ids| ==>
          PageKey(s, ids[i]) in pages && pages[PageKey(s, ids[i])].chapter == c && pages[PageKey(s, ids[i])].no == i + 1)
    && (forall k :: k in pages && pages[k].chapter == c ==>
          k.stack == s && 1 <= pages[k].no <= |ids| && ids[pages[k].no - 1] == k.asset)
  }

  ghost predicate PagesNumbered(chapters: map<ChapterId, Chapter>, pages: Pages, layout: map<ChapterId, seq<AssetId>>) {
    && layout.Keys == chapters.Keys
    && (forall c :: c in layout ==> Numbered(pages, chapters[c].stack, c, layout[c]))
    && (forall k :: k in pages ==> pages[k].chapter in chapters && chapters[pages[k].chapter].stack == k.stack)
  }

  /** The cover is a page of its stack, and is NULL exactly when the stack is empty. */
  ghost predicate Covered(stacks: map<StackId, Option<AssetId>>, pages: Pages) {
    && (forall s :: s in stacks && stacks[s].Some? ==> PageKey(s, stacks[s].value) in pages)
    && (forall k :: k in pages ==> k.stack in stacks && stacks[k.stack].Some?)
  }

  ghost predicate PagesExist(assets: Assets, pages: Pages) {
    forall k :: k in pages ==> k.asset in assets
  }

  ghost predicate AssetTables(assets: Assets, pages: Pages) {
    Stars(assets) && UniquePrimaries(assets) && PurgeSafe(assets, pages) && Cached(assets, pages) && PagesExist(assets, pages)
  }

  // ----- row updates -----

  function Recomputed(assets: Assets, pages: Pages, ids: set<AssetId>): Assets {
    map a | a in assets :: if a in ids then assets[a].(visible := VisibleNow(assets[a], Hidden(pages, a))) else assets[a]
  }

  function Promoted(assets: Assets, ids: set<AssetId>): Assets {
    map a | a in assets ::
      if a in ids && assets[a].lifecycle.Duplicate? then assets[a].(lifecycle := Active, purgeAfter := None) else assets[a]
  }

  function Ids(ids: seq<AssetId>): set<AssetId> {
    set a | a in ids
  }

  /** The recomputed set is large enough when it covers every asset whose pages or lifecycle changed. */
  lemma RecomputeRestoresCache(assets: Assets, pages: Pages, changed: Assets, newPages: Pages, ids: set<AssetId>)
    requires Cached(assets, pages) && changed.Keys == assets.Keys
    requires forall a :: a in assets && a !in ids ==> changed[a] == assets[a]
    requires forall k: PageKey :: k.asset !in ids ==>
      (k in pages <==> k in newPages) && (k in pages ==> newPages[k].show == pages[k].show)
    ensures Cached(Recomputed(changed, newPages, ids), newPages)
  {
    forall a | a in assets && a !in ids
      ensures Hidden(pages, a) <==> Hidden(newPages, a)
    {
      if Hidden(pages, a) {
        var k :| k in pages && k.asset == a && !pages[k].show;
        assert k in newPages;
      }
      if Hidden(newPages, a) {
        var k :| k in newPages && k.asset == a && !newPages[k].show;
        assert k in pages;
      }
    }
  }

  lemma PromotionKeeps(assets: Assets, pages: Pages, ids: set<AssetId>)
    requires Stars(assets) && UniquePrimaries(assets)
    ensures Stars(Promoted(assets, ids)) && UniquePrimaries(Promoted(assets, ids))
    ensures forall a :: a in assets ==> (Promoted(assets, ids)[a].lifecycle.Purging? <==> assets[a].lifecycle.Purging?)
  {
    var out := Promoted(assets, ids);
    forall a | a in assets && IsPrimary(out, out[a].hash, a) ensures IsPrimary(assets, assets[a].hash, a) {}
  }

  lemma RecomputeKeeps(assets: Assets, pages: Pages, ids: set<AssetId>)
    requires Stars(assets) && UniquePrimaries(assets)
    ensures Stars(Recomputed(assets, pages, ids)) && UniquePrimaries(Recomputed(assets, pages, ids))
  {
    var out := Recomputed(assets, pages, ids);
    forall a | a in assets && IsPrimary(out, out[a].hash, a) ensures IsPrimary(assets, assets[a].hash, a) {}
  }

  // ----- purge -----

  /** The selection of `DUE_ASSETS_SQL`. */
  predicate Due(assets: Assets, pages: Pages, id: AssetId, now: int) {
    && id in assets && (assets[id].lifecycle.Duplicate? || assets[id].lifecycle.Trashed?)
    && assets[id].purgeAfter.Some? && assets[id].purgeAfter.value < now
    && !OnPage(pages, id) && !Referenced(assets, id)
  }

  function DueSet(assets: Assets, pages: Pages, now: int): set<AssetId> {
    set id | id in assets && Due(assets, pages, id, now)
  }

  function PurgingSet(assets: Assets): set<AssetId> {
    set id | id in assets && assets[id].lifecycle.Purging?
  }

  function Marked(assets: Assets, ids: set<AssetId>): Assets {
    map a | a in assets :: if a in ids then assets[a].(lifecycle := Purging, visible := false) else assets[a]
  }

  /** What one `run_due_at(now)` leaves: tombstones first, then the rows that are due without them. */
  function AfterRun(assets: Assets, pages: Pages, now: int): Assets {
    var resumed := assets - PurgingSet(assets);
    resumed - DueSet(resumed, pages, now)
  }

  /** Which rows are due, from their own fields: duplicate or trashed, past their date, on no page and named by no link. */
  lemma DueRow(assets: Assets, pages: Pages, now: int, id: AssetId)
    requires id in assets
    ensures id in DueSet(assets, pages, now) <==>
      && (assets[id].lifecycle.Duplicate? || assets[id].lifecycle.Trashed?)
      && assets[id].purgeAfter.Some? && assets[id].purgeAfter.value < now
      && (forall k :: k in pages ==> k.asset != id) && (forall d :: d in assets ==> assets[d].duplicateOf != Some(id))
  {
  }

  lemma DueOnly(assets: Assets, pages: Pages, now: int)
    ensures forall id :: id in DueSet(assets, pages, now) ==> id in assets && !OnPage(pages, id) && !Referenced(assets, id)
  {
  }

  /** Which rows one run takes: a link from a tombstone does not hold a row, since the tombstones go first. */
  lemma RunTakesRow(assets: Assets, pages: Pages, now: int, id: AssetId)
    requires id in assets
    ensures id !in AfterRun(assets, pages, now) <==>
      || assets[id].lifecycle.Purging?
      || (&& (assets[id].lifecycle.Duplicate? || assets[id].lifecycle.Trashed?)
          && assets[id].purgeAfter.Some? && assets[id].purgeAfter.value < now
          && (forall k :: k in pages ==> k.asset != id)
          && (forall d :: d in assets && !assets[d].lifecycle.Purging? ==> assets[d].duplicateOf != Some(id)))
  {
    var resumed := assets - PurgingSet(assets);
    assert forall d :: d in resumed <==> d in assets && !assets[d].lifecycle.Purging?;
    if id in resumed { DueRow(resumed, pages, now, id); }
    hide DueSet;
  }

  /** The rows a run counts are those it takes beyond the tombstones. */
  lemma RunCounts(assets: Assets, pages: Pages, now: int)
    ensures forall id :: id in AfterRun(assets, pages, now) ==> id in assets && AfterRun(assets, pages, now)[id] == assets[id]
    ensures DueSet(assets - PurgingSet(assets), pages, now) ==
            set id | id in assets && id !in AfterRun(assets, pages, now) && !assets[id].lifecycle.Purging?
  {
    hide Due;
  }

  lemma RemovalKeeps(assets: Assets, pages: Pages, ids: set<AssetId>)
    requires AssetTables(assets, pages)
    requires forall d :: d in assets && assets[d].duplicateOf.Some? && d !in ids ==> assets[d].duplicateOf.value !in ids
    requires forall k :: k in pages ==> k.asset !in ids
    ensures AssetTables(assets - ids, pages)
  {
    var out := assets - ids;
    forall a | a in out && IsPrimary(out, out[a].hash, a) ensures IsPrimary(assets, assets[a].hash, a) {}
    forall a, b | a in out && IsPrimary(out, out[a].hash, a) && IsPrimary(out, out[a].hash, b) ensures a == b {
      assert IsPrimary(assets, assets[a].hash, b);
    }
  }

  /** No reference ever dangles and a canonical row outlives its duplicates. */
  lemma RunKeeps(assets: Assets, pages: Pages, now: int)
    requires AssetTables(assets, pages)
    ensures var out := AfterRun(assets, pages, now);
      AssetTables(out, pages) && PurgingSet(out) == {}
      && forall a :: a in out ==> out[a] == assets[a]
  {
    var resumed := assets - PurgingSet(assets);
    RemovalKeeps(assets, pages, PurgingSet(assets));
    var due := DueSet(resumed, pages, now);
    forall k | k in pages ensures k.asset !in due { assert OnPage(pages, k.asset); }
    forall d | d in resumed && resumed[d].duplicateOf.Some? && d !in due ensures resumed[d].duplicateOf.value !in due {
      assert Referenced(resumed, resumed[d].duplicateOf.value);
    }
    RemovalKeeps(resumed, pages, due);
  }

  /** A second run can only find canonical rows whose last duplicate went in the first. */
  lemma SecondRunTakesCanonicals(assets: Assets, pages: Pages, now: int, id: AssetId)
    requires AssetTables(assets, pages) && id in assets
    ensures Due(AfterRun(assets, pages, now), pages, id, now) ==> assets[id].duplicateOf.None?
  {
    var resumed := assets - PurgingSet(assets);
    if assets[id].duplicateOf.Some? {
      forall d | d in resumed ensures resumed[d].duplicateOf != Some(id) {}
      assert !Referenced(resumed, id);
    }
  }

  /** A run that takes canonical rows only makes no further row due. */
  lemma NothingFreed(assets: Assets, pages: Pages, now: int)
    requires PurgingSet(assets) == {}
    requires forall d :: d in DueSet(assets, pages, now) ==> assets[d].duplicateOf.None?
    ensures DueSet(AfterRun(assets, pages, now), pages, now) == {}
  {
    var after := AfterRun(assets, pages, now);
    assert assets - PurgingSet(assets) == assets;
    forall id | id in after ensures !Due(after, pages, id, now) {
      if Referenced(assets, id) {
        var d :| d in assets && assets[d].duplicateOf == Some(id);
        assert d !in DueSet(assets, pages, now);
        assert d in after;
      }
    }
  }

  /** After two runs a third deletes nothing: the purge reaches its fixpoint in two steps. */
  lemma ThirdRunDeletesNothing(assets: Assets, pages: Pages, now: int)
    requires AssetTables(assets, pages)
    ensures var twice := AfterRun(AfterRun(assets, pages, now), pages, now);
      PurgingSet(twice) == {} && DueSet(twice, pages, now) == {} && AfterRun(twice, pages, now) == twice
  {
    var once := AfterRun(assets, pages, now);
    RunKeeps(assets, pages, now);
    RunKeeps(once, pages, now);
    var twice := AfterRun(once, pages, now);
    assert once - PurgingSet(once) == once;
    forall d | d in DueSet(once, pages, now) ensures once[d].duplicateOf.None? {
      SecondRunTakesCanonicals(assets, pages, now, d);
    }
    NothingFreed(once, pages, now);
    assert twice - PurgingSet(twice) == twice;
  }

  /** One run is not always enough: a due canonical row waits for its last duplicate. */
  lemma OneRunIsNotEnough() returns (assets: Assets)
    ensures AssetTables(assets, map[])
    ensures AfterRun(assets, map[], 1).Keys == {1} && AfterRun(AfterRun(assets, map[], 1), map[], 1) == map[]
  {
    var canonical := Asset(7, Trashed, None, true, false, true, Some(0));
    var copy := Asset(7, Duplicate, Some(1), true, false, false, Some(0));
    assets := map[1 := canonical, 2 := copy];
    assert Referenced(assets, 1) by { assert assets[2].duplicateOf == Some(1); }
    assert Due(assets, map[], 2, 1);
    assert AfterRun(assets, map[], 1) == map[1 := canonical];
    assert Due(map[1 := canonical], map[], 1, 1);
  }

  // ----- restore -----

  /** `a` is the active canonical row of this hash, or a duplicate of it. */
  predicate InStar(assets: Assets, hash: Content, a: AssetId) {
    && a in assets
    && (IsPrimary(assets, hash, a) || (assets[a].duplicateOf.Some? && IsPrimary(assets, hash, assets[a].duplicateOf.value)))
  }

  /** The whole star of the hash now hangs on `id`. */
  function Reclaimed(assets: Assets, id: AssetId): Assets
    requires id in assets
  {
    map a | a in assets :: if InStar(assets, assets[id].hash, a) then assets[a].(duplicateOf := Some(id)) else assets[a]
  }

  /** `restore_at`, statement by statement, with the replacement that its lookup found. */
  function TakenOver(assets: Assets, id: AssetId, replacement: AssetId): Assets {
    map a | a in assets ::
      if a == replacement || assets[a].duplicateOf == Some(replacement) then assets[a].(duplicateOf := Some(id)) else assets[a]
  }

  lemma TakeOverReclaims(assets: Assets, id: AssetId, replacement: AssetId)
    requires UniquePrimaries(assets) && id in assets && IsPrimary(assets, assets[id].hash, replacement)
    ensures TakenOver(assets, id, replacement) == Reclaimed(assets, id)
  {
    forall p | IsPrimary(assets, assets[id].hash, p) ensures p == replacement {}
  }

  lemma TakeOverKeeps(assets: Assets, pages: Pages, id: AssetId, replacement: AssetId)
    requires AssetTables(assets, pages)
    requires id in assets && assets[id].lifecycle.Trashed? && assets[id].duplicateOf.None?
    requires IsPrimary(assets, assets[id].hash, replacement)
    ensures var out := TakenOver(assets, id, replacement);
      AssetTables(out, pages) && out[id] == assets[id] && forall a :: !IsPrimary(out, assets[id].hash, a)
  {
    var out := TakenOver(assets, id, replacement);
    forall a | a in out && IsPrimary(out, out[a].hash, a) ensures IsPrimary(assets, assets[a].hash, a) && a != replacement {}
  }

  // ----- single rows -----

  lemma AddedRowKeeps(assets: Assets, pages: Pages, id: AssetId, row: Asset)
    requires AssetTables(assets, pages) && id !in assets
    requires match row.duplicateOf
             case Some(p) => IsPrimary(assets, row.hash, p) && row.lifecycle.Duplicate? && !row.visible
             case None => (forall p :: !IsPrimary(assets, row.hash, p)) && row.lifecycle.Active? && row.inTimeline && row.visible
    ensures AssetTables(assets[id := row], pages)
  {
    assert !Hidden(pages, id);
    var out := assets[id := row];
    forall a | a in out && a != id && IsPrimary(out, out[a].hash, a) ensures IsPrimary(assets, assets[a].hash, a) {}
  }

  lemma ChangedRowKeeps(assets: Assets, pages: Pages, id: AssetId, row: Asset)
    requires AssetTables(assets, pages) && id in assets && !row.lifecycle.Purging?
    requires row.hash == assets[id].hash && row.duplicateOf == assets[id].duplicateOf
    requires row.lifecycle.Duplicate? ==> row.duplicateOf.Some?
    requires row.lifecycle.Active? && row.duplicateOf.None? ==> forall a :: IsPrimary(assets, row.hash, a) ==> a == id
    requires row.visible <==> VisibleNow(row, Hidden(pages, id))
    ensures AssetTables(assets[id := row], pages)
  {
    var out := assets[id := row];
    forall a | a in out && a != id && IsPrimary(out, out[a].hash, a) ensures IsPrimary(assets, assets[a].hash, a) {}
  }

  lemma MarkingKeeps(assets: Assets, pages: Pages, ids: set<AssetId>)
    requires AssetTables(assets, pages)
    requires forall id :: id in ids ==> id in assets && !OnPage(pages, id) && !Referenced(assets, id)
    ensures AssetTables(Marked(assets, ids), pages)
  {
    var out := Marked(assets, ids);
    forall a | a in out && IsPrimary(out, out[a].hash, a) ensures IsPrimary(assets, assets[a].hash, a) {}
    forall k | k in pages ensures !out[k.asset].lifecycle.Purging? { assert OnPage(pages, k.asset); }
    forall d | d in out && out[d].duplicateOf.Some? ensures !out[out[d].duplicateOf.value].lifecycle.Purging? {
      assert Referenced(assets, out[d].duplicateOf.value);
    }
  }

  // ----- numbered pages -----

  ghost predicate Ascending(pages: Pages, s: StackId, ids: seq<AssetId>) {
    && (forall i :: 0 <= i < |ids| ==> PageKey(s, ids[i]) in pages)
    && (forall i, j :: 0 <= i < j < |ids| ==> pages[PageKey(s, ids[i])].no < pages[PageKey(s, ids[j])].no)
  }

  /** The pages of a chapter in ascending order of their numbers, as a query with ORDER BY returns them. */
  ghost predicate Listing(pages: Pages, s: StackId, c: ChapterId, ids: seq<AssetId>) {
    && Ascending(pages, s, ids)
    && (forall i :: 0 <= i < |ids| ==> pages[PageKey(s, ids[i])].chapter == c && pages[PageKey(s, ids[i])].no >= 1)
    && (forall k :: k in pages && pages[k].chapter == c ==> k.stack == s && k.asset in ids)
  }

  lemma NumberedIsListing(pages: Pages, s: StackId, c: ChapterId, ids: seq<AssetId>)
    requires Numbered(pages, s, c, ids)
    ensures Listing(pages, s, c, ids)
  {
  }

  /** Two listings of one chapter are the same. */
  lemma {:induction false} ListingUnique(pages: Pages, s: StackId, xs: seq<AssetId>, ys: seq<AssetId>)
    requires Ascending(pages, s, xs) && Ascending(pages, s, ys)
    requires forall a :: a in xs <==> a in ys
    ensures xs == ys
    decreases |xs|
  {
    assert (xs != [] ==> xs[0] in xs) && (ys != [] ==> ys[0] in ys);
    if xs != [] {
      assert xs[0] in ys;
      assert ys != [] && ys[0] in xs;
      assert xs[0] == ys[0];
      forall a | a in xs[1..] ensures a in ys[1..] { assert a in xs; var j :| 0 <= j < |ys| && ys[j] == a; assert j != 0; }
      forall a | a in ys[1..] ensures a in xs[1..] { assert a in ys; var j :| 0 <= j < |xs| && xs[j] == a; assert j != 0; }
      ListingUnique(pages, s, xs[1..], ys[1..]);
    }
  }

  /** In a listing the i-th number is at least i + 1. */
  lemma {:induction false} NumbersGrow(pages: Pages, s: StackId, c: ChapterId, ids: seq<AssetId>, i: nat)
    requires Listing(pages, s, c, ids) && i < |ids|
    ensures pages[PageKey(s, ids[i])].no >= i + 1
  {
    if i > 0 {
      NumbersGrow(pages, s, c, ids, i - 1);
    }
  }

  function Without(ids: seq<AssetId>, asset: AssetId): (r: seq<AssetId>) {
    if ids == [] then []
    else if ids[0] == asset then Without(ids[1..], asset)
    else [ids[0]] + Without(ids[1..], asset)
  }

  lemma {:induction false} WithoutMembers(ids: seq<AssetId>, asset: AssetId)
    ensures forall a :: a in Without(ids, asset) <==> a in ids && a != asset
  {
    if ids != [] {
      WithoutMembers(ids[1..], asset);
      assert forall a :: a in ids <==> a == ids[0] || a in ids[1..];
    }
  }

  /** Removing a page leaves the others in their order. */
  lemma {:induction false} WithoutKeepsOrder(pages: Pages, s: StackId, ids: seq<AssetId>, asset: AssetId)
    requires Ascending(pages, s, ids)
    ensures Ascending(pages, s, Without(ids, asset))
  {
    if ids != [] {
      var rest := Without(ids[1..], asset);
      WithoutKeepsOrder(pages, s, ids[1..], asset);
      if ids[0] != asset {
        forall j | 0 <= j < |rest| ensures pages[PageKey(s, ids[0])].no < pages[PageKey(s, rest[j])].no {
          WithoutMembers(ids[1..], asset);
          assert rest[j] in ids[1..];
        }
        assert Without(ids, asset) == [ids[0]] + rest;
      }
    }
  }

  // ----- structural edits -----

  function Flag(flags: map<AssetId, bool>, a: AssetId): bool {
    a in flags && flags[a]
  }

  /** What `insert_pages` does to the table. */
  ghost predicate InsertedPages(before: Pages, after: Pages, s: StackId, c: ChapterId, ids: seq<AssetId>, first: int,
                                flags: map<AssetId, bool>)
  {
    && (forall k :: k in before ==> k in after && after[k] == before[k])
    && (forall i :: 0 <= i < |ids| ==>
          PageKey(s, ids[i]) in after && after[PageKey(s, ids[i])] == Page(c, first + i, Flag(flags, ids[i])))
    && (forall k :: k in after ==> k in before || (k.stack == s && k.asset in ids))
  }

  /** A chapter's numbers depend on its own pages only. */
  lemma NumberedFrame(before: Pages, after: Pages, s: StackId, c: ChapterId, ids: seq<AssetId>)
    requires Numbered(before, s, c, ids)
    requires forall k :: k in before && before[k].chapter == c ==> k in after && after[k].chapter == c && after[k].no == before[k].no
    requires forall k :: k in after && after[k].chapter == c ==> k in before && before[k].chapter == c
    ensures Numbered(after, s, c, ids)
  {
  }

  lemma NumberedBelow(pages: Pages, s: StackId, c: ChapterId, ids: seq<AssetId>)
    requires Numbered(pages, s, c, ids)
    ensures forall k :: k in pages && pages[k].chapter == c ==> pages[k].no < |ids| + 1
  {
  }

  lemma InsertNumbersChapter(before: Pages, after: Pages, s: StackId, c: ChapterId, held: seq<AssetId>, ids: seq<AssetId>,
                             flags: map<AssetId, bool>)
    requires Numbered(before, s, c, held) && InsertedPages(before, after, s, c, ids, |held| + 1, flags)
    requires forall a :: a in ids ==> PageKey(s, a) !in before
    ensures Numbered(after, s, c, held + ids)
  {
    forall k | k in after && after[k].chapter == c
      ensures k.stack == s && 1 <= after[k].no <= |held + ids| && (held + ids)[after[k].no - 1] == k.asset
    {
      if k !in before {
        var i :| 0 <= i < |ids| && ids[i] == k.asset;
        assert k == PageKey(s, ids[i]) && after[k].no == |held| + 1 + i;
      }
    }
  }

  lemma InsertKeepsNumbers(chapters: map<ChapterId, Chapter>, before: Pages, after: Pages, layout: map<ChapterId, seq<AssetId>>,
                           c: ChapterId, ids: seq<AssetId>, flags: map<AssetId, bool>)
    requires PagesNumbered(chapters, before, layout) && c in chapters
    requires InsertedPages(before, after, chapters[c].stack, c, ids, |layout[c]| + 1, flags)
    requires forall a :: a in ids ==> PageKey(chapters[c].stack, a) !in before
    ensures PagesNumbered(chapters, after, layout[c := layout[c] + ids])
  {
    hide Numbered;
    var s := chapters[c].stack;
    InsertNumbersChapter(before, after, s, c, layout[c], ids, flags);
    forall k | k in after && k !in before ensures after[k].chapter == c && k.stack == s {
      var i :| 0 <= i < |ids| && ids[i] == k.asset;
      assert k == PageKey(s, ids[i]);
    }
    forall d | d in layout && d != c ensures Numbered(after, chapters[d].stack, d, layout[d]) {
      NumberedFrame(before, after, chapters[d].stack, d, layout[d]);
    }
  }

  lemma NewChapterKeepsNumbers(stacks: map<StackId, Option<AssetId>>, chapters: map<ChapterId, Chapter>, pages: Pages,
                               order: map<StackId, seq<ChapterId>>, layout: map<ChapterId, seq<AssetId>>, s: StackId, c: ChapterId)
    requires ChaptersNumbered(stacks, chapters, order) && PagesNumbered(chapters, pages, layout)
    requires s in stacks && c !in chapters
    ensures ChaptersNumbered(stacks, chapters[c := Chapter(s, |order[s]| + 1)], order[s := order[s] + [c]])
    ensures PagesNumbered(chapters[c := Chapter(s, |order[s]| + 1)], pages, layout[c := []])
  {
    hide PagesNumbered;
    NewChapterKeepsOrder(stacks, chapters, order, s, c);
    NewChapterKeepsPages(chapters, pages, layout, c, Chapter(s, |order[s]| + 1));
  }

  lemma NewChapterIsEmpty(chapters: map<ChapterId, Chapter>, pages: Pages, layout: map<ChapterId, seq<AssetId>>,
                          s: StackId, c: ChapterId)
    requires PagesNumbered(chapters, pages, layout) && c !in chapters
    ensures Numbered(pages, s, c, [])
  {
  }

  lemma NewChapterKeepsPages(chapters: map<ChapterId, Chapter>, pages: Pages, layout: map<ChapterId, seq<AssetId>>,
                             c: ChapterId, chapter: Chapter)
    requires PagesNumbered(chapters, pages, layout) && c !in chapters
    ensures PagesNumbered(chapters[c := chapter], pages, layout[c := []])
  {
    NewChapterIsEmpty(chapters, pages, layout, chapter.stack, c);
    hide Numbered;
  }

  lemma NewChapterKeepsOrder(stacks: map<StackId, Option<AssetId>>, chapters: map<ChapterId, Chapter>,
                             order: map<StackId, seq<ChapterId>>, s: StackId, c: ChapterId)
    requires ChaptersNumbered(stacks, chapters, order) && s in stacks && c !in chapters
    ensures ChaptersNumbered(stacks, chapters[c := Chapter(s, |order[s]| + 1)], order[s := order[s] + [c]])
  {
  }

  function ChaptersOf(chapters: map<ChapterId, Chapter>, s: StackId): set<ChapterId> {
    set c | c in chapters && chapters[c].stack == s
  }

  function PagesOf(pages: Pages, s: StackId): set<PageKey> {
    set k | k in pages && k.stack == s
  }

  function AssetsOf(pages: Pages, s: StackId): set<AssetId> {
    set k | k in pages && k.stack == s :: k.asset
  }

  lemma DropKeepsOrder(stacks: map<StackId, Option<AssetId>>, chapters: map<ChapterId, Chapter>,
                       order: map<StackId, seq<ChapterId>>, s: StackId)
    requires ChaptersNumbered(stacks, chapters, order) && s in stacks
    ensures ChaptersNumbered(stacks, chapters - ChaptersOf(chapters, s), order[s := []])
    ensures ChaptersNumbered(stacks - {s}, chapters - ChaptersOf(chapters, s), order - {s})
  {
  }

  /** Deleting a stack's chapters cascades to its pages. */
  lemma DropKeepsPages(chapters: map<ChapterId, Chapter>, pages: Pages, layout: map<ChapterId, seq<AssetId>>, s: StackId)
    requires PagesNumbered(chapters, pages, layout)
    ensures PagesNumbered(chapters - ChaptersOf(chapters, s), pages - PagesOf(pages, s), layout - ChaptersOf(chapters, s))
  {
    hide Numbered;
    forall d | d in layout && d !in ChaptersOf(chapters, s)
      ensures Numbered(pages - PagesOf(pages, s), chapters[d].stack, d, layout[d])
    {
      forall k | k in pages && pages[k].chapter == d ensures k in pages - PagesOf(pages, s) { assert k.stack == chapters[d].stack; }
      NumberedFrame(pages, pages - PagesOf(pages, s), chapters[d].stack, d, layout[d]);
    }
  }

  /** The asset side of every stack edit. */
  lemma EditKeepsAssets(assets: Assets, pages: Pages, newPages: Pages, promoted: set<AssetId>, ids: set<AssetId>)
    requires AssetTables(assets, pages) && promoted <= ids && PagesDiffer(assets, pages, newPages, ids)
    ensures AssetTables(Recomputed(Promoted(assets, promoted), newPages, ids), newPages)
  {
    hide Stars, UniquePrimaries, Cached, VisibleNow, Hidden;
    PromotionKeeps(assets, pages, promoted);
    RecomputeKeeps(Promoted(assets, promoted), newPages, ids);
    RecomputeRestoresCache(assets, pages, Promoted(assets, promoted), newPages, ids);
    EditKeepsPurge(assets, pages, newPages, promoted, ids);
    hide PurgeSafe, PagesExist, PagesDiffer, Recomputed, Promoted;
  }

  lemma EditKeepsPurge(assets: Assets, pages: Pages, newPages: Pages, promoted: set<AssetId>, ids: set<AssetId>)
    requires PurgeSafe(assets, pages) && PagesExist(assets, pages) && PagesDiffer(assets, pages, newPages, ids)
    ensures PurgeSafe(Recomputed(Promoted(assets, promoted), newPages, ids), newPages)
    ensures PagesExist(Recomputed(Promoted(assets, promoted), newPages, ids), newPages)
  {
    hide VisibleNow, Hidden;
  }

  predicate NoRepeats(ids: seq<AssetId>) {
    forall i, j :: 0 <= i < j < |ids| ==> ids[i] != ids[j]
  }

  /** `validate_assets`. */
  predicate Usable(assets: Assets, ids: seq<AssetId>) {
    forall a :: a in ids ==> a in assets && !assets[a].lifecycle.Purging?
  }

  /** Only the pages of `ids` differ, and those assets may be on a page. */
  ghost predicate PagesDiffer(assets: Assets, before: Pages, after: Pages, ids: set<AssetId>) {
    && (forall k: PageKey :: k.asset !in ids ==>
          (k in before <==> k in after) && (k in before ==> after[k].show == before[k].show))
    && (forall k :: k in after && k.asset in ids ==> k.asset in assets && !assets[k.asset].lifecycle.Purging?)
  }

  lemma InsertedDiffer(assets: Assets, before: Pages, after: Pages, s: StackId, c: ChapterId, ids: seq<AssetId>, first: int,
                       flags: map<AssetId, bool>)
    requires AssetTables(assets, before) && Usable(assets, ids) && InsertedPages(before, after, s, c, ids, first, flags)
    ensures PagesDiffer(assets, before, after, Ids(ids))
  {
  }

  /** A stack that gains pages keeps its cover, or takes the first new page when it had none. */
  lemma InsertedCovered(stacks: map<StackId, Option<AssetId>>, before: Pages, after: Pages, s: StackId, c: ChapterId,
                        ids: seq<AssetId>, first: int, flags: map<AssetId, bool>, cover: Option<AssetId>)
    requires Covered(stacks[s := cover], before) && InsertedPages(before, after, s, c, ids, first, flags)
    ensures Covered(stacks[s := if cover.Some? || ids == [] then cover else Some(ids[0])], after)
  {
    var held, out := stacks[s := cover], stacks[s := if cover.Some? || ids == [] then cover else Some(ids[0])];
    forall t | t in out && out[t].Some? ensures PageKey(t, out[t].value) in after {
      if t == s && cover.None? { assert PageKey(s, ids[0]) in after; } else { assert PageKey(t, held[t].value) in before; }
    }
    forall k | k in after ensures k.stack in out && out[k.stack].Some? {
      if k in before { assert held[k.stack].Some?; }
    }
  }

  lemma NewStackKeeps(stacks: map<StackId, Option<AssetId>>, chapters: map<ChapterId, Chapter>, pages: Pages,
                      order: map<StackId, seq<ChapterId>>, layout: map<ChapterId, seq<AssetId>>, s: StackId, cover: Option<AssetId>)
    requires ChaptersNumbered(stacks, chapters, order) && Covered(stacks, pages)
    requires s !in stacks
    ensures ChaptersNumbered(stacks[s := cover], chapters, order[s := []]) && Covered(stacks[s := None], pages)
    ensures forall k :: k in pages ==> k.stack != s
  {
    forall k | k in pages ensures k.stack != s { assert k.stack in stacks; }
    forall c | c in chapters ensures chapters[c].stack != s { assert chapters[c].stack in order; }
  }

  /** An asset is on one page of a stack at most. */
  lemma EachAssetOnce(chapters: map<ChapterId, Chapter>, pages: Pages, layout: map<ChapterId, seq<AssetId>>,
                      c: ChapterId, d: ChapterId, i: nat, j: nat)
    requires PagesNumbered(chapters, pages, layout) && c in chapters && d in chapters && chapters[c].stack == chapters[d].stack
    requires i < |layout[c]| && j < |layout[d]| && layout[c][i] == layout[d][j]
    ensures c == d && i == j
  {
    assert Numbered(pages, chapters[c].stack, c, layout[c]) && Numbered(pages, chapters[d].stack, d, layout[d]);
  }

  /** Pages whose chapters and numbers stay keep the structure. */
  lemma SameNumbers(chapters: map<ChapterId, Chapter>, before: Pages, after: Pages, layout: map<ChapterId, seq<AssetId>>)
    requires PagesNumbered(chapters, before, layout) && after.Keys == before.Keys
    requires forall k :: k in before ==> after[k].chapter == before[k].chapter && after[k].no == before[k].no
    ensures PagesNumbered(chapters, after, layout)
  {
    forall c | c in layout ensures Numbered(after, chapters[c].stack, c, layout[c]) {
      assert Numbered(before, chapters[c].stack, c, layout[c]);
    }
  }

  lemma RemovalDiffers(assets: Assets, before: Pages, gone: set<PageKey>, ids: set<AssetId>)
    requires AssetTables(assets, before) && forall k :: k in gone ==> k.asset in ids
    ensures PagesDiffer(assets, before, before - gone, ids)
  {
  }

  lemma PromotedNone(assets: Assets)
    ensures Promoted(assets, {}) == assets
  {
  }

  lemma FlagDiffers(assets: Assets, pages: Pages, k: PageKey, show: bool)
    requires AssetTables(assets, pages) && k in pages
    ensures PagesDiffer(assets, pages, pages[k := pages[k].(show := show)], {k.asset})
  {
  }

  lemma CoverKeepsNumbers(stacks: map<StackId, Option<AssetId>>, chapters: map<ChapterId, Chapter>,
                          order: map<StackId, seq<ChapterId>>, s: StackId, cover: Option<AssetId>)
    requires ChaptersNumbered(stacks, chapters, order) && s in stacks
    ensures ChaptersNumbered(stacks[s := cover], chapters, order)
  {
  }

  // ----- removing a page -----

  lemma ListingDistinct(pages: Pages, s: StackId, c: ChapterId, ids: seq<AssetId>, k: PageKey, m: PageKey)
    requires Listing(pages, s, c, ids) && k != m
    requires k in pages && m in pages && pages[k].chapter == c && pages[m].chapter == c
    ensures pages[k].no != pages[m].no
  {
    var i :| 0 <= i < |ids| && ids[i] == k.asset;
    var j :| 0 <= j < |ids| && ids[j] == m.asset;
    assert PageKey(s, ids[i]) == k && PageKey(s, ids[j]) == m;
  }

  lemma ListingFrame(before: Pages, after: Pages, s: StackId, c: ChapterId, ids: seq<AssetId>)
    requires Listing(before, s, c, ids)
    requires forall k :: k in before && before[k].chapter == c ==> k in after && after[k].chapter == c && after[k].no == before[k].no
    requires forall k :: k in after && after[k].chapter == c ==> k in before && before[k].chapter == c
    ensures Listing(after, s, c, ids)
  {
  }

  lemma RemovedListing(pages: Pages, s: StackId, c: ChapterId, ids: seq<AssetId>, asset: AssetId)
    requires Numbered(pages, s, c, ids) && PageKey(s, asset) in pages && pages[PageKey(s, asset)].chapter == c
    ensures Listing(pages - {PageKey(s, asset)}, s, c, Without(ids, asset))
  {
    NumberedIsListing(pages, s, c, ids);
    WithoutMembers(ids, asset);
    WithoutKeepsOrder(pages, s, ids, asset);
    var r := Without(ids, asset);
    forall i | 0 <= i < |r| ensures r[i] in ids && r[i] != asset { assert r[i] in r; }
  }

  /** The first page in reading order. */
  function FirstIn(cs: seq<ChapterId>, layout: map<ChapterId, seq<AssetId>>): Option<AssetId>
    requires forall c :: c in cs ==> c in layout
  {
    if cs == [] then None
    else if layout[cs[0]] != [] then Some(layout[cs[0]][0])
    else FirstIn(cs[1..], layout)
  }

  lemma {:induction false} FirstInIs(cs: seq<ChapterId>, layout: map<ChapterId, seq<AssetId>>, i: nat)
    requires forall c :: c in cs ==> c in layout
    requires i < |cs| && layout[cs[i]] != [] && forall j :: 0 <= j < i ==> layout[cs[j]] == []
    ensures FirstIn(cs, layout) == Some(layout[cs[i]][0])
  {
    if i > 0 {
      assert layout[cs[0]] == [];
      FirstInIs(cs[1..], layout, i - 1);
    }
  }

  lemma {:induction false} FirstInNone(cs: seq<ChapterId>, layout: map<ChapterId, seq<AssetId>>)
    requires forall c :: c in cs ==> c in layout && layout[c] == []
    ensures FirstIn(cs, layout) == None
  {
    if cs != [] {
      FirstInNone(cs[1..], layout);
    }
  }

  // ----- replacing a structure -----

  function Flatten(parts: seq<seq<AssetId>>): seq<AssetId> {
    if parts == [] then [] else Flatten(parts[..|parts| - 1]) + parts[|parts| - 1]
  }

  lemma {:induction false} FlattenPrefix(parts: seq<seq<AssetId>>, i: nat)
    requires i <= |parts|
    ensures Flatten(parts[..i]) <= Flatten(parts)
    decreases |parts|
  {
    if i < |parts| {
      FlattenPrefix(parts[..|parts| - 1], i);
      assert parts[..|parts| - 1][..i] == parts[..i];
    } else {
      assert parts[..i] == parts;
    }
  }

  lemma SplitNoRepeats(all: seq<AssetId>, done: seq<AssetId>, part: seq<AssetId>)
    requires NoRepeats(all) && done + part <= all
    ensures NoRepeats(part) && forall a :: a in part ==> a !in done && a in all
  {
    forall j | 0 <= j < |part| ensures part[j] == all[|done| + j] {
      assert (done + part)[|done| + j] == part[j];
    }
    forall a | a in part ensures a !in done && a in all {
      var j :| 0 <= j < |part| && part[j] == a;
      forall k | 0 <= k < |done| ensures done[k] != a { assert all[k] == (done + part)[k] == done[k]; }
    }
  }

  lemma FlattenNext(parts: seq<seq<AssetId>>, i: nat)
    requires i < |parts|
    ensures Flatten(parts[..i + 1]) == Flatten(parts[..i]) + parts[i]
  {
    assert parts[..i + 1][..i] == parts[..i];
  }

  /** With no repetition in the whole, the next chapter repeats nothing of the chapters before it. */
  lemma NextPartIsNew(parts: seq<seq<AssetId>>, i: nat)
    requires i < |parts| && NoRepeats(Flatten(parts))
    ensures Flatten(parts[..i + 1]) == Flatten(parts[..i]) + parts[i]
    ensures NoRepeats(parts[i]) && forall a :: a in parts[i] ==> a !in Flatten(parts[..i]) && a in Flatten(parts)
  {
    hide Flatten, NoRepeats;
    FlattenNext(parts, i);
    FlattenPrefix(parts, i + 1);
    SplitNoRepeats(Flatten(parts), Flatten(parts[..i]), parts[i]);
  }

  /** What renumbering a listed chapter leaves. */
  ghost predicate Relisted(before: Pages, after: Pages, s: StackId, ids: seq<AssetId>, upTo: nat)
    requires upTo <= |ids|
  {
    && after.Keys == before.Keys
    && (forall k :: k in after ==> after[k] == before[k].(no := after[k].no))
    && (forall j :: 0 <= j < upTo && PageKey(s, ids[j]) in after ==> after[PageKey(s, ids[j])].no == j + 1)
    && (forall k :: k in after && (k.stack != s || k.asset !in ids[..upTo]) ==> after[k] == before[k])
  }

  lemma RelistedStep(before: Pages, after: Pages, s: StackId, ids: seq<AssetId>, i: nat)
    requires i < |ids| && NoRepeats(ids) && Relisted(before, after, s, ids, i) && PageKey(s, ids[i]) in after
    ensures Relisted(before, after[PageKey(s, ids[i]) := after[PageKey(s, ids[i])].(no := i + 1)], s, ids, i + 1)
  {
    assert ids[..i + 1] == ids[..i] + [ids[i]];
  }

  lemma RelistedIsNumbered(before: Pages, after: Pages, s: StackId, c: ChapterId, ids: seq<AssetId>)
    requires Listing(before, s, c, ids) && Relisted(before, after, s, ids, |ids|)
    ensures Numbered(after, s, c, ids)
    ensures forall k :: k in after && before[k].chapter != c ==> after[k] == before[k]
  {
    forall k | k in after && before[k].chapter == c
      ensures k.stack == s && 1 <= after[k].no <= |ids| && ids[after[k].no - 1] == k.asset
    {
      var j :| 0 <= j < |ids| && ids[j] == k.asset;
      assert k == PageKey(s, ids[j]);
    }
    forall k | k in after && k.stack == s && k.asset in ids ensures before[k].chapter == c {
      var j :| 0 <= j < |ids| && ids[j] == k.asset;
      assert k == PageKey(s, ids[j]);
    }
    assert ids[..|ids|] == ids;
  }

  lemma ListingNoRepeats(pages: Pages, s: StackId, c: ChapterId, ids: seq<AssetId>)
    requires Listing(pages, s, c, ids)
    ensures NoRepeats(ids)
  {
  }

  /** UNIQUE (chapter_id, page_no) does not reject the i-th UPDATE: nobody else in the chapter holds its number. */
  lemma UniqueAfterUpdate(before: Pages, now: Pages, s: StackId, c: ChapterId, ids: seq<AssetId>, i: nat)
    requires Listing(before, s, c, ids) && i < |ids| && Relisted(before, now, s, ids, i)
    ensures forall k :: k in now && now[k].chapter == c && k != PageKey(s, ids[i]) ==> now[k].no != i + 1
  {
    forall k | k in now && now[k].chapter == c && k != PageKey(s, ids[i]) ensures now[k].no != i + 1 {
      var j :| 0 <= j < |ids| && ids[j] == k.asset;
      assert k == PageKey(s, ids[j]);
      NumbersGrow(before, s, c, ids, i);
      if j > i {
        ListingNoRepeats(before, s, c, ids);
        assert forall m :: 0 <= m < i ==> ids[m] != ids[j];
      }
    }
  }

  /** Between the DELETE of one page and the end of `renumber_pages`: chapters not yet done are listed. */
  ghost predicate Relisting(chapters: map<ChapterId, Chapter>, pages: Pages, s: StackId, want: map<ChapterId, seq<AssetId>>,
                            todo: set<ChapterId>)
  {
    forall c :: c in chapters ==>
      c in want && if c in todo then chapters[c].stack == s && Listing(pages, s, c, want[c])
                   else Numbered(pages, chapters[c].stack, c, want[c])
  }

  lemma RelistingStep(chapters: map<ChapterId, Chapter>, before: Pages, after: Pages, s: StackId,
                      want: map<ChapterId, seq<AssetId>>, todo: set<ChapterId>, c: ChapterId)
    requires Relisting(chapters, before, s, want, todo) && c in todo && c in chapters
    requires after.Keys == before.Keys && Numbered(after, s, c, want[c])
    requires forall k :: k in after ==> after[k] == if before[k].chapter == c then before[k].(no := after[k].no) else before[k]
    ensures Relisting(chapters, after, s, want, todo - {c})
  {
    hide Numbered, Listing;
    forall d | d in chapters && d != c
      ensures if d in todo then Listing(after, s, d, want[d]) else Numbered(after, chapters[d].stack, d, want[d])
    {
      if d in todo {
        ListingFrame(before, after, s, d, want[d]);
      } else {
        NumberedFrame(before, after, chapters[d].stack, d, want[d]);
      }
    }
  }

  lemma ChapterOf(chapters: map<ChapterId, Chapter>, pages: Pages, layout: map<ChapterId, seq<AssetId>>, key: PageKey)
    requires PagesNumbered(chapters, pages, layout) && key in pages
    ensures var c := pages[key].chapter;
      c in chapters && c in layout && chapters[c].stack == key.stack && Numbered(pages, key.stack, c, layout[c])
  {
    hide Numbered;
  }

  /** Page numbers of a chapter run up to its length, which the last page has. */
  lemma NumbersOf(chapters: map<ChapterId, Chapter>, pages: Pages, layout: map<ChapterId, seq<AssetId>>, c: ChapterId)
    requires PagesNumbered(chapters, pages, layout) && c in chapters
    ensures c in layout && forall k :: k in pages && pages[k].chapter == c ==> 1 <= pages[k].no <= |layout[c]|
    ensures layout[c] != [] ==>
      var last := PageKey(chapters[c].stack, layout[c][|layout[c]| - 1]);
      last in pages && pages[last].chapter == c && pages[last].no == |layout[c]|
  {
    assert Numbered(pages, chapters[c].stack, c, layout[c]);
  }

  lemma RemovalRelists(chapters: map<ChapterId, Chapter>, pages: Pages, layout: map<ChapterId, seq<AssetId>>, s: StackId, asset: AssetId)
    requires PagesNumbered(chapters, pages, layout) && PageKey(s, asset) in pages
    ensures var c := pages[PageKey(s, asset)].chapter;
      Relisting(chapters, pages - {PageKey(s, asset)}, s, layout[c := Without(layout[c], asset)], ChaptersOf(chapters, s))
  {
    hide Numbered, Listing, Without;
    var key := PageKey(s, asset);
    var c := pages[key].chapter;
    var want := layout[c := Without(layout[c], asset)];
    ChapterOf(chapters, pages, layout, key);
    RemovedListing(pages, s, c, layout[c], asset);
    forall d | d in chapters && d != c
      ensures d in want && if d in ChaptersOf(chapters, s) then Listing(pages - {key}, s, d, want[d])
                           else Numbered(pages - {key}, chapters[d].stack, d, want[d])
    {
      NumberedFrame(pages, pages - {key}, chapters[d].stack, d, layout[d]);
      if chapters[d].stack == s {
        NumberedIsListing(pages - {key}, s, d, layout[d]);
      }
    }
  }

  lemma RelistingDone(chapters: map<ChapterId, Chapter>, pages: Pages, s: StackId, want: map<ChapterId, seq<AssetId>>)
    requires Relisting(chapters, pages, s, want, {}) && want.Keys == chapters.Keys
    requires forall k :: k in pages ==> pages[k].chapter in chapters && chapters[pages[k].chapter].stack == k.stack
    ensures PagesNumbered(chapters, pages, want)
  {
  }

  lemma HeadPage(pages: Pages, s: StackId, c: ChapterId, ids: seq<AssetId>)
    requires Numbered(pages, s, c, ids)
    ensures ids != [] ==> PageKey(s, ids[0]) in pages && pages[PageKey(s, ids[0])].chapter == c
  {
  }

  /** A page that no page of its stack precedes is the first in reading order. */
  lemma EarliestIsFirst(stacks: map<StackId, Option<AssetId>>, chapters: map<ChapterId, Chapter>, pages: Pages,
                        order: map<StackId, seq<ChapterId>>, layout: map<ChapterId, seq<AssetId>>, k: PageKey)
    requires ChaptersNumbered(stacks, chapters, order) && PagesNumbered(chapters, pages, layout) && k in pages
    requires forall m :: m in pages && m.stack == k.stack && pages[m].chapter in chapters ==>
      || chapters[pages[k].chapter].no < chapters[pages[m].chapter].no
      || (chapters[pages[k].chapter].no == chapters[pages[m].chapter].no && pages[k].no <= pages[m].no)
    ensures forall c :: c in order[k.stack] ==> c in layout
    ensures FirstIn(order[k.stack], layout) == Some(k.asset)
  {
    var cs, c := order[k.stack], pages[k].chapter;
    var i := chapters[c].no - 1;
    assert Numbered(pages, k.stack, c, layout[c]);
    assert cs[i] == c && layout[c] != [];
    forall j | 0 <= j < i ensures layout[cs[j]] == [] {
      HeadPage(pages, k.stack, cs[j], layout[cs[j]]);
    }
    assert PageKey(k.stack, layout[c][0]) in pages;
    FirstInIs(cs, layout, i);
  }

  lemma NoPageNoFirst(stacks: map<StackId, Option<AssetId>>, chapters: map<ChapterId, Chapter>, pages: Pages,
                      order: map<StackId, seq<ChapterId>>, layout: map<ChapterId, seq<AssetId>>, s: StackId)
    requires ChaptersNumbered(stacks, chapters, order) && PagesNumbered(chapters, pages, layout) && s in stacks
    requires forall k :: k in pages ==> k.stack != s
    ensures forall c :: c in order[s] ==> c in layout
    ensures FirstIn(order[s], layout) == None
  {
    forall c | c in order[s] ensures c in layout && layout[c] == [] {
      var i :| 0 <= i < |order[s]| && order[s][i] == c;
      HeadPage(pages, s, c, layout[c]);
    }
    FirstInNone(order[s], layout);
  }

  lemma RemovedDiffer(assets: Assets, before: Pages, after: Pages, key: PageKey)
    requires AssetTables(assets, before) && after.Keys == before.Keys - {key}
    requires forall k :: k in after ==> after[k] == before[k].(no := after[k].no)
    ensures PagesDiffer(assets, before, after, {key.asset})
  {
  }

  lemma RemovedCovered(stacks: map<StackId, Option<AssetId>>, before: Pages, after: Pages, s: StackId, asset: AssetId,
                       first: Option<AssetId>)
    requires Covered(stacks, before) && s in stacks && PageKey(s, asset) in before
    requires after.Keys == before.Keys - {PageKey(s, asset)}
    requires if first.Some? then PageKey(s, first.value) in after else forall k :: k in after ==> k.stack != s
    ensures Covered(stacks[s := if stacks[s] == Some(asset) then first else stacks[s]], after)
  {
  }

  /** A stack rebuilt up to chapter `i` of `parts`: its pages are theirs and keep the flags they had. */
  ghost predicate Rebuilt(before: Pages, after: Pages, s: StackId, ids: seq<AssetId>) {
    && (forall k: PageKey :: k.stack != s ==> (k in after <==> k in before) && (k in after ==> after[k] == before[k]))
    && (forall a :: PageKey(s, a) in after <==> a in ids)
    && (forall a :: PageKey(s, a) in after ==>
          after[PageKey(s, a)].show == (PageKey(s, a) in before && before[PageKey(s, a)].show))
  }

  function FlagsOf(pages: Pages, s: StackId): map<AssetId, bool> {
    map k | k in pages && k.stack == s :: k.asset := pages[k].show
  }

  lemma FlagOf(pages: Pages, s: StackId, a: AssetId)
    ensures Flag(FlagsOf(pages, s), a) == (PageKey(s, a) in pages && pages[PageKey(s, a)].show)
  {
    if PageKey(s, a) in pages {
      assert a in FlagsOf(pages, s);
      var k :| k in pages && k.stack == s && k.asset == a;
      assert k == PageKey(s, a);
    }
  }

  lemma RebuiltStep(before: Pages, now: Pages, after: Pages, s: StackId, c: ChapterId, done: seq<AssetId>, ids: seq<AssetId>)
    requires Rebuilt(before, now, s, done) && InsertedPages(now, after, s, c, ids, 1, FlagsOf(before, s))
    requires forall a :: a in ids ==> a !in done
    ensures Rebuilt(before, after, s, done + ids)
  {
    forall a ensures PageKey(s, a) in after <==> a in done + ids {
      if a in ids { var i :| 0 <= i < |ids| && ids[i] == a; assert PageKey(s, ids[i]) in after; }
    }
    forall a | PageKey(s, a) in after
      ensures after[PageKey(s, a)].show == (PageKey(s, a) in before && before[PageKey(s, a)].show)
    {
      if a in ids {
        var i :| 0 <= i < |ids| && ids[i] == a;
        assert after[PageKey(s, ids[i])].show == Flag(FlagsOf(before, s), a);
        FlagOf(before, s, a);
      }
    }
  }

  lemma RebuiltDiffer(assets: Assets, before: Pages, after: Pages, s: StackId, ids: seq<AssetId>)
    requires AssetTables(assets, before) && Rebuilt(before, after, s, ids) && Usable(assets, ids)
    ensures PagesDiffer(assets, before, after, AssetsOf(before, s) + Ids(ids))
  {
    forall k: PageKey | k.asset !in AssetsOf(before, s) + Ids(ids)
      ensures (k in before <==> k in after) && (k in before ==> after[k].show == before[k].show)
    {
      assert k == PageKey(k.stack, k.asset);
    }
    forall k | k in after && k.asset in AssetsOf(before, s) + Ids(ids)
      ensures k.asset in assets && !assets[k.asset].lifecycle.Purging?
    {
      assert k == PageKey(k.stack, k.asset);
    }
  }

  lemma RebuiltCovered(stacks: map<StackId, Option<AssetId>>, before: Pages, after: Pages, s: StackId, ids: seq<AssetId>,
                       first: Option<AssetId>)
    requires Covered(stacks, before) && Rebuilt(before, after, s, ids) && s in stacks
    requires if first.Some? then PageKey(s, first.value) in after else forall k :: k in after ==> k.stack != s
    ensures Covered(stacks[s := if stacks[s].Some? && PageKey(s, stacks[s].value) in after then stacks[s] else first], after)
  {
    var out := stacks[s := if stacks[s].Some? && PageKey(s, stacks[s].value) in after then stacks[s] else first];
    forall k | k in after ensures k.stack in out && out[k.stack].Some? {
      assert k == PageKey(k.stack, k.asset);
    }
  }

  lemma NextPartUnplaced(before: Pages, now: Pages, s: StackId, parts: seq<seq<AssetId>>, i: nat)
    requires i < |parts| && NoRepeats(Flatten(parts)) && Rebuilt(before, now, s, Flatten(parts[..i]))
    ensures NoRepeats(parts[i]) && forall a :: a in parts[i] ==> PageKey(s, a) !in now
  {
    NextPartIsNew(parts, i);
  }

  lemma RebuiltNext(before: Pages, now: Pages, after: Pages, s: StackId, c: ChapterId, parts: seq<seq<AssetId>>, i: nat)
    requires i < |parts| && NoRepeats(Flatten(parts)) && Rebuilt(before, now, s, Flatten(parts[..i]))
    requires InsertedPages(now, after, s, c, parts[i], 1, FlagsOf(before, s))
    ensures Rebuilt(before, after, s, Flatten(parts[..i + 1]))
  {
    NextPartIsNew(parts, i);
    RebuiltStep(before, now, after, s, c, Flatten(parts[..i]), parts[i]);
  }

  /** The first `i` chapters of `parts` stand under the ids `cids`. */
  ghost predicate Rebuilding(order0: map<StackId, seq<ChapterId>>, layout0: map<ChapterId, seq<AssetId>>,
                             order: map<StackId, seq<ChapterId>>, layout: map<ChapterId, seq<AssetId>>, s: StackId,
                             parts: seq<seq<AssetId>>, cids: seq<ChapterId>, i: nat)
  {
    && i <= |parts| == |cids|
    && order == order0[s := cids[..i]]
    && (forall j :: i <= j < |cids| ==> cids[j] !in layout)
    && (forall j :: 0 <= j < i ==> cids[j] in layout && layout[cids[j]] == parts[j])
    && (forall c :: c in layout && c !in cids ==> c in layout0 && layout[c] == layout0[c])
  }

  lemma RebuildingStart(order0: map<StackId, seq<ChapterId>>, layout0: map<ChapterId, seq<AssetId>>,
                        layout: map<ChapterId, seq<AssetId>>, s: StackId, parts: seq<seq<AssetId>>, cids: seq<ChapterId>)
    requires |cids| == |parts| && forall c :: c in cids ==> c !in layout0
    requires forall c :: c in layout ==> c in layout0 && layout[c] == layout0[c]
    ensures Rebuilding(order0, layout0, order0[s := []], layout, s, parts, cids, 0)
  {
  }

  lemma RebuildingStep(order0: map<StackId, seq<ChapterId>>, layout0: map<ChapterId, seq<AssetId>>,
                       order: map<StackId, seq<ChapterId>>, layout: map<ChapterId, seq<AssetId>>, s: StackId,
                       parts: seq<seq<AssetId>>, cids: seq<ChapterId>, i: nat)
    requires Rebuilding(order0, layout0, order, layout, s, parts, cids, i) && i < |parts| && NoRepeats(cids)
    ensures s in order && |order[s]| == i && cids[i] !in layout
    ensures Rebuilding(order0, layout0, order[s := order[s] + [cids[i]]], layout[cids[i] := parts[i]], s, parts, cids, i + 1)
  {
    assert cids[..i + 1] == cids[..i] + [cids[i]];
  }

  lemma NothingRebuilt(before: Pages, s: StackId, parts: seq<seq<AssetId>>)
    ensures Rebuilt(before, before - PagesOf(before, s), s, Flatten(parts[..0]))
  {
  }
}
