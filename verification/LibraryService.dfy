/** `AssetService`, `StackService` and `PurgeService` over the tables of one database.

    Every method is one or more transactions; an error leaves the tables as they were.  `Valid` holds
    between any two transactions, so it holds over every run, and a crash between two of them too. */
module LibraryService {
  import opened Basics
  import opened LibraryTables

  datatype Error = InvalidStack | StackNotFound | StackChapterNotFound | AssetNotFound | UniqueViolation

  type Outcome<T> = Result<T, Error>

  const MAX_STACK_CHAPTERS := 1000
  const MAX_STACK_PAGES := 10_000

  class Library {
    var assets: Assets
    var stacks: map<StackId, Option<AssetId>>
    var chapters: map<ChapterId, Chapter>
    var pages: Pages

    // The structure as a reader sees it: chapters of a stack in order, pages of a chapter in order.
    ghost var order: map<StackId, seq<ChapterId>>
    ghost var layout: map<ChapterId, seq<AssetId>>

    ghost predicate AssetsValid()
      reads this
    {
      AssetTables(assets, pages)
    }

    ghost predicate NumbersValid()
      reads `stacks, `chapters, `pages, `order, `layout
    {
      ChaptersNumbered(stacks, chapters, order) && PagesNumbered(chapters, pages, layout)
    }

    ghost predicate Valid()
      reads this
    {
      AssetsValid() && NumbersValid() && Covered(stacks, pages)
    }

    constructor ()
      ensures Valid() && assets == map[] && stacks == map[]
    {
      assets, stacks, chapters, pages := map[], map[], map[], map[];
      order, layout := map[], map[];
    }

    // ----- AssetService -----

    /** `leased` holds the assets that a pending source transfer names: the lookup skips them, the
        partial unique index does not. */
    method Ingest(id: AssetId, hash: Content, leased: set<AssetId>, retention: int) returns (r: Outcome<Option<AssetId>>)
      requires Valid() && id !in assets
      modifies this`assets
      ensures Valid()
      ensures match r
              case Ok(Some(p)) =>
                && IsPrimary(old(assets), hash, p) && p !in leased
                && assets == old(assets)[id := Asset(hash, Duplicate, Some(p), true, false, false, Some(retention))]
              case Ok(None) =>
                && (forall p :: !IsPrimary(old(assets), hash, p))
                && assets == old(assets)[id := Asset(hash, Active, None, true, true, false, None)]
              case Err(e) =>
                e.UniqueViolation? && assets == old(assets) && exists p :: IsPrimary(assets, hash, p) && p in leased
    {
      assert !Hidden(pages, id);
      if p :| p in assets && IsPrimary(assets, hash, p) && p !in leased {
        assets := assets[id := Asset(hash, Duplicate, Some(p), true, false, false, Some(retention))];
        r := Ok(Some(p));
        AddedRowKeeps(old(assets), pages, id, assets[id]);
      } else if p :| p in assets && IsPrimary(assets, hash, p) {
        r := Err(UniqueViolation);
      } else {
        assets := assets[id := Asset(hash, Active, None, true, true, false, None)];
        r := Ok(None);
        AddedRowKeeps(old(assets), pages, id, assets[id]);
      }
    }

    method Trash(id: AssetId, purgeAfter: int) returns (r: Outcome<()>)
      requires Valid()
      modifies this`assets
      ensures Valid()
      ensures r.Ok? <==> id in old(assets) && !old(assets)[id].lifecycle.Purging?
      ensures r.Err? ==> r.error.AssetNotFound? && assets == old(assets)
      ensures r.Ok? ==> assets == old(assets)[id := old(assets)[id].(lifecycle := Trashed, visible := false, trashedAt := true,
                                                                    purgeAfter := Some(purgeAfter))]
    {
      if id !in assets || assets[id].lifecycle.Purging? {
        return Err(AssetNotFound);
      }
      ghost var before := assets;
      assets := assets[id := assets[id].(lifecycle := Trashed, visible := false, trashedAt := true, purgeAfter := Some(purgeAfter))];
      ChangedRowKeeps(before, pages, id, assets[id]);
      r := Ok(());
    }

    /** A row that became canonical while `id` was in the trash hands its star over. */
    method ReclaimStar(id: AssetId)
      requires Valid() && id in assets && assets[id].lifecycle.Trashed? && assets[id].duplicateOf.None?
      modifies this`assets
      ensures Valid() && assets == Reclaimed(old(assets), id) && assets[id] == old(assets)[id]
      ensures forall p :: !IsPrimary(assets, assets[id].hash, p)
    {
      hide Stars, UniquePrimaries, PurgeSafe, Cached, PagesExist;
      hide NumbersValid, Covered;
      if replacement :| replacement in assets && replacement != id && IsPrimary(assets, assets[id].hash, replacement) {
        TakeOverKeeps(assets, pages, id, replacement);
        TakeOverReclaims(assets, id, replacement);
        assets := map a | a in assets ::
          if assets[a].duplicateOf == Some(replacement) then assets[a].(duplicateOf := Some(id)) else assets[a];
        assets := assets[replacement := assets[replacement].(duplicateOf := Some(id))];
        assert assets == TakenOver(old(assets), id, replacement);
      } else {
        assert assets == Reclaimed(assets, id);
      }
    }

    method Restore(id: AssetId, retention: int) returns (r: Outcome<()>)
      requires Valid()
      modifies this`assets
      ensures Valid()
      ensures r.Ok? <==> id in old(assets) && old(assets)[id].lifecycle.Trashed?
      ensures r.Err? ==> r.error.AssetNotFound? && assets == old(assets)
      ensures r.Ok? ==>
        var row := old(assets)[id].(trashedAt := false);
        assets ==
          if row.duplicateOf.Some?
          then old(assets)[id := row.(lifecycle := Duplicate, purgeAfter := Some(retention), visible := false)]
          else Reclaimed(old(assets), id)[id := row.(lifecycle := Active, purgeAfter := None,
                                                     visible := row.inTimeline && !Hidden(pages, id))]
    {
      hide Stars, UniquePrimaries, PurgeSafe, Cached, PagesExist;
      hide NumbersValid, Covered;
      if id !in assets || !assets[id].lifecycle.Trashed? {
        return Err(AssetNotFound);
      }
      var lifecycle, purgeAfter := Active, None;
      if assets[id].duplicateOf.Some? {
        lifecycle, purgeAfter := Duplicate, Some(retention);
      } else {
        ReclaimStar(id);
      }
      var row := assets[id].(lifecycle := lifecycle, trashedAt := false, purgeAfter := purgeAfter);
      row := row.(visible := VisibleNow(row, Hidden(pages, id)));
      ChangedRowKeeps(assets, pages, id, row);
      assets := assets[id := row];
      r := Ok(());
    }

    // ----- PurgeService -----

    /** `restore_blocked_legacy_tombstone` would fire on a `purging` row with a page or a link to it. */
    predicate Blocked(id: AssetId)
      reads this
    {
      id in assets && assets[id].lifecycle.Purging? && (OnPage(pages, id) || Referenced(assets, id))
    }

    lemma NeverBlocked(id: AssetId)
      requires Valid()
      ensures !Blocked(id)
    {
    }

    /** One `finish_purging`: the row really goes. */
    method FinishPurging(id: AssetId) returns (r: Outcome<()>)
      requires Valid()
      modifies this`assets
      ensures Valid()
      ensures r.Ok? <==> id in old(assets) && old(assets)[id].lifecycle.Purging?
      ensures r.Err? ==> r.error.AssetNotFound?
      ensures assets == if r.Ok? then old(assets) - {id} else old(assets)
    {
      NeverBlocked(id);
      hide Stars, UniquePrimaries, PurgeSafe, Cached, PagesExist;
      hide NumbersValid, Covered;
      if id !in assets || !assets[id].lifecycle.Purging? || OnPage(pages, id) || Referenced(assets, id) {
        return Err(AssetNotFound);
      }
      RemovalKeeps(assets, pages, {id});
      assets := assets - {id};
      r := Ok(());
    }

    method ResumePurging() returns (count: nat)
      requires Valid()
      modifies this`assets
      ensures Valid()
      ensures assets == old(assets) - PurgingSet(old(assets)) && count == |PurgingSet(old(assets))|
      ensures forall id :: id in old(assets) ==> (id in assets <==> !old(assets)[id].lifecycle.Purging?)
    {
      var ids := PurgingSet(assets);
      count := |ids|;
      FinishAll(ids);
    }

    method FinishAll(ids: set<AssetId>)
      requires Valid() && forall id :: id in ids ==> id in assets && assets[id].lifecycle.Purging?
      modifies this`assets
      ensures Valid() && assets == old(assets) - ids
    {
      hide AssetsValid, NumbersValid, Covered;
      var todo := ids;
      while todo != {}
        invariant Valid() && todo <= ids && assets == old(assets) - (ids - todo)
        decreases todo
      {
        var id :| id in todo;
        var r := FinishPurging(id);
        todo := todo - {id};
      }
    }

    /** `mark_due_as_purging`. */
    method MarkDue(now: int) returns (ids: set<AssetId>)
      requires Valid()
      modifies this`assets
      ensures Valid()
      ensures ids == DueSet(old(assets), pages, now)
      ensures forall id :: id in ids ==> id in old(assets)
      ensures forall id :: id in old(assets) ==>
        (id in ids <==>
          && (old(assets)[id].lifecycle.Duplicate? || old(assets)[id].lifecycle.Trashed?)
          && old(assets)[id].purgeAfter.Some? && old(assets)[id].purgeAfter.value < now
          && (forall k :: k in pages ==> k.asset != id)
          && (forall d :: d in old(assets) ==> old(assets)[d].duplicateOf != Some(id)))
      ensures assets.Keys == old(assets).Keys
      ensures forall id :: id in assets ==>
        assets[id] == if id in ids then old(assets)[id].(lifecycle := Purging, visible := false) else old(assets)[id]
    {
      hide DueSet, AssetTables, NumbersValid, Covered;
      ids := DueSet(assets, pages, now);
      DueOnly(assets, pages, now);
      forall id | id in assets { DueRow(assets, pages, now, id); }
      MarkingKeeps(assets, pages, ids);
      assets := Marked(assets, ids);
    }

    method RunDue(now: int) returns (count: nat)
      requires Valid()
      modifies this`assets
      ensures Valid() && assets == AfterRun(old(assets), pages, now)
      ensures forall id :: id in assets ==> id in old(assets) && assets[id] == old(assets)[id]
      ensures forall id :: id in old(assets) ==>
        (id !in assets <==>
          || old(assets)[id].lifecycle.Purging?
          || (&& (old(assets)[id].lifecycle.Duplicate? || old(assets)[id].lifecycle.Trashed?)
              && old(assets)[id].purgeAfter.Some? && old(assets)[id].purgeAfter.value < now
              && (forall k :: k in pages ==> k.asset != id)
              && (forall d :: d in old(assets) && !old(assets)[d].lifecycle.Purging? ==> old(assets)[d].duplicateOf != Some(id))))
      ensures count == |set id | id in old(assets) && id !in assets && !old(assets)[id].lifecycle.Purging?|
    {
      hide AssetsValid, NumbersValid, Covered;
      RunCounts(assets, pages, now);
      forall id | id in assets { RunTakesRow(assets, pages, now, id); }
      hide DueSet, PurgingSet, AfterRun;
      var resumed := ResumePurging();
      ghost var before := assets;
      var ids := MarkDue(now);
      count := |ids|;
      FinishAll(ids);
      assert assets == before - ids;
    }

    method PurgeNow(id: AssetId) returns (r: Outcome<()>)
      requires Valid()
      modifies this`assets
      ensures Valid()
      ensures r.Ok? <==> id in old(assets) && (old(assets)[id].lifecycle.Duplicate? || old(assets)[id].lifecycle.Trashed?)
                         && !OnPage(pages, id) && !Referenced(old(assets), id)
      ensures r.Err? ==> r.error.AssetNotFound?
      ensures assets == if r.Ok? then old(assets) - {id} else old(assets)
    {
      hide AssetTables, NumbersValid, Covered, OnPage, Referenced;
      if id !in assets || !(assets[id].lifecycle.Duplicate? || assets[id].lifecycle.Trashed?)
         || OnPage(pages, id) || Referenced(assets, id) {
        return Err(AssetNotFound);
      }
      MarkingKeeps(assets, pages, {id});
      assets := Marked(assets, {id});
      r := FinishPurging(id);
      assert assets == old(assets) - {id};
    }

    // ----- StackService: the helpers of its transactions -----

    method ValidateAssets(ids: seq<AssetId>) returns (ok: bool)
      ensures ok <==> Usable(assets, ids)
    {
      for i := 0 to |ids|
        invariant Usable(assets, ids[..i])
      {
        if ids[i] !in assets || assets[ids[i]].lifecycle.Purging? {
          return false;
        }
      }
      assert ids[..|ids|] == ids;
      ok := true;
    }

    method InsertPages(s: StackId, c: ChapterId, ids: seq<AssetId>, first: int, flags: map<AssetId, bool>)
      requires NoRepeats(ids) && forall a :: a in ids ==> PageKey(s, a) !in pages
      requires forall k :: k in pages && pages[k].chapter == c ==> pages[k].no < first
      modifies this`pages
      ensures InsertedPages(old(pages), pages, s, c, ids, first, flags)
    {
      for i := 0 to |ids|
        invariant InsertedPages(old(pages), pages, s, c, ids[..i], first, flags)
        invariant forall k :: k in pages && pages[k].chapter == c ==> pages[k].no < first + i
      {
        assert PageKey(s, ids[i]) !in pages;  // PRIMARY KEY (stack_id, asset_id)
        pages := pages[PageKey(s, ids[i]) := Page(c, first + i, Flag(flags, ids[i]))];
        assert ids[..i + 1] == ids[..i] + [ids[i]];
      }
      assert ids[..|ids|] == ids;
    }

    method PromoteDuplicates(ids: seq<AssetId>)
      modifies this`assets
      ensures assets == Promoted(old(assets), Ids(ids))
      ensures assets.Keys == old(assets).Keys
      ensures forall a :: a in assets ==>
        assets[a] == if a in ids && old(assets)[a].lifecycle.Duplicate? then old(assets)[a].(lifecycle := Active, purgeAfter := None)
                     else old(assets)[a]
    {
      for i := 0 to |ids|
        invariant assets == Promoted(old(assets), Ids(ids[..i]))
      {
        var a := ids[i];
        if a in assets && assets[a].lifecycle.Duplicate? {
          assets := assets[a := assets[a].(lifecycle := Active, purgeAfter := None)];
        }
        assert ids[..i + 1] == ids[..i] + [ids[i]];
      }
      assert ids[..|ids|] == ids;
    }

    method RecomputeVisibility(ids: set<AssetId>)
      modifies this`assets
      ensures assets == Recomputed(old(assets), pages, ids)
      ensures forall a :: a in assets && a in ids ==>
        (assets[a].visible <==>
          assets[a].lifecycle.Active? && assets[a].inTimeline && forall k :: k in pages && k.asset == a ==> pages[k].show)
    {
      var todo := ids;
      while todo != {}
        invariant todo <= ids && assets == Recomputed(old(assets), pages, ids - todo)
        decreases todo
      {
        var a :| a in todo;
        todo := todo - {a};
        if a in assets {
          assets := assets[a := assets[a].(visible := VisibleNow(assets[a], Hidden(pages, a)))];
        }
      }
      assert ids - todo == ids;
    }

    predicate NotAfter(k: PageKey, m: PageKey)
      reads `pages, `chapters
      requires k in pages && m in pages && pages[k].chapter in chapters && pages[m].chapter in chapters
    {
      || chapters[pages[k].chapter].no < chapters[pages[m].chapter].no
      || (chapters[pages[k].chapter].no == chapters[pages[m].chapter].no && pages[k].no <= pages[m].no)
    }

    /** ORDER BY chapter_no, page_no LIMIT 1. */
    method Earliest(keys: set<PageKey>) returns (first: PageKey)
      requires keys != {} && forall k :: k in keys ==> k in pages && pages[k].chapter in chapters
      ensures first in keys && forall k :: k in keys ==> NotAfter(first, k)
    {
      first :| first in keys;
      var todo := keys - {first};
      while todo != {}
        invariant todo <= keys && first in keys
        invariant forall k :: k in keys && k !in todo ==> NotAfter(first, k)
        decreases todo
      {
        var k :| k in todo;
        todo := todo - {k};
        if !NotAfter(first, k) {
          first := k;
        }
      }
    }

    method FirstPage(s: StackId) returns (cover: Option<AssetId>)
      requires NumbersValid() && s in stacks
      ensures forall c :: c in order[s] ==> c in layout
      ensures cover == FirstIn(order[s], layout)
      ensures if cover.Some? then PageKey(s, cover.value) in pages else forall k :: k in pages ==> k.stack != s
    {
      hide ChaptersNumbered, Numbered;
      var keys := PagesOf(pages, s);
      if keys == {} {
        forall k | k in pages ensures k.stack != s { assert k !in keys; }
        NoPageNoFirst(stacks, chapters, pages, order, layout, s);
        return None;
      }
      var k := Earliest(keys);
      forall m | m in pages && m.stack == s ensures NotAfter(k, m) { assert m in keys; }
      EarliestIsFirst(stacks, chapters, pages, order, layout, k);
      cover := Some(k.asset);
      assert k == PageKey(s, k.asset);
    }

    /** A new last chapter. */
    method AddChapter(s: StackId, c: ChapterId, no: int)
      requires NumbersValid() && s in stacks && c !in chapters && no == |order[s]| + 1
      modifies this`chapters, this`order, this`layout
      ensures NumbersValid()
      ensures chapters == old(chapters)[c := Chapter(s, no)]
      ensures order == old(order)[s := old(order)[s] + [c]] && layout == old(layout)[c := []]
    {
      NewChapterKeepsNumbers(stacks, chapters, pages, order, layout, s, c);
      hide ChaptersNumbered, PagesNumbered;
      chapters := chapters[c := Chapter(s, no)];
      order, layout := order[s := order[s] + [c]], layout[c := []];
    }

    /** New pages at the end of a chapter. */
    method FillChapter(c: ChapterId, ids: seq<AssetId>, first: int, flags: map<AssetId, bool>)
      requires NumbersValid() && c in chapters && NoRepeats(ids) && first == |layout[c]| + 1
      requires forall a :: a in ids ==> PageKey(chapters[c].stack, a) !in pages
      modifies this`pages, this`layout
      ensures NumbersValid() && layout == old(layout)[c := old(layout)[c] + ids]
      ensures InsertedPages(old(pages), pages, chapters[c].stack, c, ids, first, flags)
    {
      hide ChaptersNumbered, InsertedPages, Numbered;
      NumberedBelow(pages, chapters[c].stack, c, layout[c]);
      hide PagesNumbered;
      InsertPages(chapters[c].stack, c, ids, first, flags);
      InsertKeepsNumbers(chapters, old(pages), pages, layout, c, ids, flags);
      layout := layout[c := layout[c] + ids];
    }

    method AddFilledChapter(s: StackId, c: ChapterId, no: int, ids: seq<AssetId>, flags: map<AssetId, bool>)
      requires NumbersValid() && s in stacks && s in order && c !in chapters && no == |order[s]| + 1
      requires NoRepeats(ids) && forall a :: a in ids ==> PageKey(s, a) !in pages
      modifies this`chapters, this`pages, this`order, this`layout
      ensures NumbersValid() && order == old(order)[s := old(order)[s] + [c]] && layout == old(layout)[c := ids]
      ensures InsertedPages(old(pages), pages, s, c, ids, 1, flags)
    {
      hide ChaptersNumbered, PagesNumbered, InsertedPages, NoRepeats;
      AddChapter(s, c, no);
      FillChapter(c, ids, 1, flags);
      assert layout[c] == ids;
    }

    /** `promote_duplicates`, then `recompute_visibility`. */
    method RefreshAssets(promoted: seq<AssetId>, ids: set<AssetId>, ghost before: Pages)
      requires AssetTables(assets, before) && Ids(promoted) <= ids && PagesDiffer(assets, before, pages, ids)
      modifies this`assets
      ensures AssetTables(assets, pages) && assets == Recomputed(Promoted(old(assets), Ids(promoted)), pages, ids)
    {
      hide AssetTables;
      EditKeepsAssets(assets, before, pages, Ids(promoted), ids);
      PromoteDuplicates(promoted);
      RecomputeVisibility(ids);
    }

    // ----- StackService: operations -----

    method Create(s: StackId, c: ChapterId, ids: seq<AssetId>) returns (r: Outcome<()>)
      requires Valid() && s !in stacks && c !in chapters
      modifies this
      ensures Valid()
      ensures r.Ok? <==> |ids| <= MAX_STACK_PAGES && NoRepeats(ids) && Usable(old(assets), ids)
      ensures r.Err? ==> unchanged(this) && r.error.InvalidStack?
      ensures r.Ok? ==>
        && stacks == old(stacks)[s := if ids == [] then None else Some(ids[0])]
        && order == old(order)[s := [c]] && layout == old(layout)[c := ids]
        && InsertedPages(old(pages), pages, s, c, ids, 1, map[])
        && assets == Recomputed(Promoted(old(assets), Ids(ids)), pages, Ids(ids))
    {
      hide AssetTables, NumbersValid, Covered, InsertedPages;
      if |ids| > MAX_STACK_PAGES || !NoRepeats(ids) {
        return Err(InvalidStack);
      }
      var usable := ValidateAssets(ids);
      if !usable {
        return Err(InvalidStack);
      }
      NewStack(s, c, ids);
      r := Ok(());
    }

    method NewStack(s: StackId, c: ChapterId, ids: seq<AssetId>)
      requires Valid() && s !in stacks && c !in chapters && NoRepeats(ids) && Usable(assets, ids)
      modifies this
      ensures Valid() && stacks == old(stacks)[s := if ids == [] then None else Some(ids[0])]
      ensures order == old(order)[s := [c]] && layout == old(layout)[c := ids]
      ensures InsertedPages(old(pages), pages, s, c, ids, 1, map[])
      ensures assets == Recomputed(Promoted(old(assets), Ids(ids)), pages, Ids(ids))
    {
      hide AssetTables, ChaptersNumbered, PagesNumbered, Covered, InsertedPages, PagesDiffer;
      var cover := if ids == [] then None else Some(ids[0]);
      NewStackKeeps(stacks, chapters, pages, order, layout, s, cover);
      BuildStack(s, c, ids, cover);
      InsertedDiffer(assets, old(pages), pages, s, c, ids, 1, map[]);
      InsertedCovered(old(stacks), old(pages), pages, s, c, ids, 1, map[], None);
      RefreshAssets(ids, Ids(ids), old(pages));
    }

    /** The rows of a new stack: the stack, its one chapter and its pages. */
    method BuildStack(s: StackId, c: ChapterId, ids: seq<AssetId>, cover: Option<AssetId>)
      requires ChaptersNumbered(stacks[s := cover], chapters, order[s := []]) && PagesNumbered(chapters, pages, layout)
      requires s !in stacks && c !in chapters && NoRepeats(ids) && forall k :: k in pages ==> k.stack != s
      modifies this`stacks, this`chapters, this`pages, this`order, this`layout
      ensures NumbersValid() && stacks == old(stacks)[s := cover]
      ensures order == old(order)[s := [c]] && layout == old(layout)[c := ids]
      ensures InsertedPages(old(pages), pages, s, c, ids, 1, map[])
    {
      hide ChaptersNumbered, PagesNumbered, InsertedPages;
      stacks := stacks[s := cover];
      order := order[s := []];
      AddFilledChapter(s, c, 1, ids, map[]);
      assert order[s] == [c];
    }

    method RefreshVisibility(ids: set<AssetId>, ghost before: Pages)
      requires AssetTables(assets, before) && PagesDiffer(assets, before, pages, ids)
      modifies this`assets
      ensures AssetTables(assets, pages) && assets == Recomputed(old(assets), pages, ids)
    {
      hide AssetTables;
      EditKeepsAssets(assets, before, pages, {}, ids);
      PromotedNone(assets);
      RecomputeVisibility(ids);
    }

    method DeleteStack(s: StackId) returns (r: Outcome<()>)
      requires Valid()
      modifies this
      ensures Valid()
      ensures r.Ok? <==> s in old(stacks)
      ensures r.Err? ==> r.error.StackNotFound? && unchanged(this)
      ensures r.Ok? ==>
        && stacks == old(stacks) - {s} && order == old(order) - {s}
        && layout == old(layout) - ChaptersOf(old(chapters), s)
        && pages == old(pages) - PagesOf(old(pages), s)
        && assets == Recomputed(old(assets), pages, AssetsOf(old(pages), s))
    {
      hide AssetTables, ChaptersNumbered, PagesNumbered;
      if s !in stacks {
        return Err(StackNotFound);
      }
      var affected := AssetsOf(pages, s);
      DropKeepsOrder(stacks, chapters, order, s);
      DropKeepsPages(chapters, pages, layout, s);
      RemovalDiffers(assets, pages, PagesOf(pages, s), affected);
      stacks, order := stacks - {s}, order - {s};
      layout := layout - ChaptersOf(chapters, s);
      pages := pages - PagesOf(pages, s);
      chapters := chapters - ChaptersOf(chapters, s);
      assert Covered(stacks, pages);
      hide Covered, PagesDiffer;
      RefreshVisibility(affected, old(pages));
      r := Ok(());
    }

    method SetCover(s: StackId, asset: AssetId) returns (r: Outcome<()>)
      requires Valid()
      modifies this`stacks
      ensures Valid()
      ensures r == if s !in old(stacks) then Err(StackNotFound) else if PageKey(s, asset) !in pages then Err(InvalidStack) else Ok(())
      ensures stacks == if r.Ok? then old(stacks)[s := Some(asset)] else old(stacks)
    {
      hide AssetTables, PagesNumbered;
      if s !in stacks {
        return Err(StackNotFound);
      }
      if PageKey(s, asset) !in pages {
        return Err(InvalidStack);
      }
      stacks := stacks[s := Some(asset)];
      r := Ok(());
    }

    method SetPageFlag(s: StackId, asset: AssetId, show: bool) returns (r: Outcome<()>)
      requires Valid()
      modifies this`pages, this`assets
      ensures Valid()
      ensures r == if s !in stacks then Err(StackNotFound) else if PageKey(s, asset) !in old(pages) then Err(AssetNotFound) else Ok(())
      ensures r.Err? ==> unchanged(this)
      ensures r.Ok? ==>
        && pages == old(pages)[PageKey(s, asset) := old(pages)[PageKey(s, asset)].(show := show)]
        && assets == Recomputed(old(assets), pages, {asset})
    {
      hide AssetTables, ChaptersNumbered, PagesNumbered;
      if s !in stacks {
        return Err(StackNotFound);
      }
      if PageKey(s, asset) !in pages {
        return Err(AssetNotFound);
      }
      FlagDiffers(assets, pages, PageKey(s, asset), show);
      pages := pages[PageKey(s, asset) := pages[PageKey(s, asset)].(show := show)];
      SameNumbers(chapters, old(pages), pages, layout);
      assert Covered(stacks, pages);
      hide Covered, PagesDiffer;
      RefreshVisibility({asset}, old(pages));
      r := Ok(());
    }

    /** SELECT coalesce(max(page_no), 0) + 1. */
    method NextPage(c: ChapterId) returns (first: int)
      requires NumbersValid() && c in chapters
      ensures first == |layout[c]| + 1
    {
      hide ChaptersNumbered, PagesNumbered, Numbered;
      NumbersOf(chapters, pages, layout, c);
      var keys := set k | k in pages && pages[k].chapter == c;
      first := 1;
      var todo := keys;
      while todo != {}
        invariant todo <= keys && 1 <= first <= |layout[c]| + 1
        invariant forall k :: k in keys && k !in todo ==> pages[k].no < first
        decreases todo
      {
        var k :| k in todo;
        todo := todo - {k};
        if pages[k].no >= first {
          first := pages[k].no + 1;
        }
      }
      if layout[c] != [] {
        assert PageKey(chapters[c].stack, layout[c][|layout[c]| - 1]) in keys;
      }
    }

    /** The given chapter of the stack, or its last one. */
    method TargetChapter(s: StackId, chapter: Option<ChapterId>) returns (c: Option<ChapterId>)
      requires NumbersValid() && s in stacks
      ensures c == if chapter.Some? then (if chapter.value in chapters && chapters[chapter.value].stack == s then chapter else None)
                   else if order[s] == [] then None else Some(order[s][|order[s]| - 1])
      ensures c.Some? ==> c.value in chapters && chapters[c.value].stack == s
    {
      hide PagesNumbered;
      if chapter.Some? {
        return if chapter.value in chapters && chapters[chapter.value].stack == s then chapter else None;
      }
      assert order[s] != [] ==>
        var last := order[s][|order[s]| - 1];
        last in chapters && chapters[last].stack == s && forall d :: d in chapters && chapters[d].stack == s ==> chapters[d].no <= chapters[last].no;
      if last :| last in chapters && chapters[last].stack == s && forall d :: d in chapters && chapters[d].stack == s ==> chapters[d].no <= chapters[last].no {
        assert order[s][|order[s]| - 1] in chapters;
        return Some(last);
      }
      c := None;
    }

    method AddPages(s: StackId, ids: seq<AssetId>, chapter: Option<ChapterId>) returns (r: Outcome<()>)
      requires Valid()
      modifies this
      ensures Valid()
      ensures r.Ok? <==>
        && ids != [] && |ids| <= MAX_STACK_PAGES && NoRepeats(ids)
        && s in old(stacks) && |PagesOf(old(pages), s)| + |ids| <= MAX_STACK_PAGES && Usable(old(assets), ids)
        && (match chapter case Some(c) => c in old(chapters) && old(chapters)[c].stack == s case None => old(order)[s] != [])
        && forall a :: a in ids ==> PageKey(s, a) !in old(pages)
      ensures r.Err? ==> unchanged(this)
      ensures r.Err? ==>
        r.error ==
        if ids == [] || |ids| > MAX_STACK_PAGES || !NoRepeats(ids) then InvalidStack
        else if s !in old(stacks) then StackNotFound
        else if |PagesOf(old(pages), s)| + |ids| > MAX_STACK_PAGES || !Usable(old(assets), ids) then InvalidStack
        else match chapter
             case Some(c) => if c in old(chapters) && old(chapters)[c].stack == s then InvalidStack else StackChapterNotFound
             case None => if old(order)[s] != [] then InvalidStack else StackChapterNotFound
      ensures r.Ok? ==>
        var c := if chapter.Some? then chapter.value else old(order)[s][|old(order)[s]| - 1];
        && order == old(order) && layout == old(layout)[c := old(layout)[c] + ids]
        && InsertedPages(old(pages), pages, s, c, ids, |old(layout)[c]| + 1, map[])
        && stacks == old(stacks)[s := if old(stacks)[s].Some? then old(stacks)[s] else Some(ids[0])]
        && assets == Recomputed(Promoted(old(assets), Ids(ids)), pages, Ids(ids))
    {
      hide AssetTables, ChaptersNumbered, PagesNumbered, InsertedPages, PagesDiffer;
      if ids == [] || |ids| > MAX_STACK_PAGES || !NoRepeats(ids) {
        return Err(InvalidStack);
      }
      if s !in stacks {
        return Err(StackNotFound);
      }
      if |PagesOf(pages, s)| + |ids| > MAX_STACK_PAGES {
        return Err(InvalidStack);
      }
      var usable := ValidateAssets(ids);
      if !usable {
        return Err(InvalidStack);
      }
      var target := TargetChapter(s, chapter);
      if target.None? {
        return Err(StackChapterNotFound);
      }
      var c := target.value;
      if a :| a in ids && PageKey(s, a) in pages {
        return Err(InvalidStack);
      }
      AppendPages(s, c, ids);
      r := Ok(());
    }

    method AppendPages(s: StackId, c: ChapterId, ids: seq<AssetId>)
      requires Valid() && s in stacks && c in chapters && chapters[c].stack == s
      requires ids != [] && NoRepeats(ids) && Usable(assets, ids) && forall a :: a in ids ==> PageKey(s, a) !in pages
      modifies this`pages, this`layout, this`assets, this`stacks
      ensures Valid() && layout == old(layout)[c := old(layout)[c] + ids]
      ensures InsertedPages(old(pages), pages, s, c, ids, |old(layout)[c]| + 1, map[])
      ensures stacks == old(stacks)[s := if old(stacks)[s].Some? then old(stacks)[s] else Some(ids[0])]
      ensures assets == Recomputed(Promoted(old(assets), Ids(ids)), pages, Ids(ids))
    {
      hide AssetTables, ChaptersNumbered, PagesNumbered, InsertedPages, PagesDiffer, Recomputed, Promoted, NoRepeats, Usable, Covered;
      var first := NextPage(c);
      assert stacks[s := stacks[s]] == stacks;
      FillChapter(c, ids, first, map[]);
      InsertedDiffer(assets, old(pages), pages, s, c, ids, first, map[]);
      InsertedCovered(stacks, old(pages), pages, s, c, ids, first, map[], stacks[s]);
      RefreshAssets(ids, Ids(ids), old(pages));
      CoverKeepsNumbers(stacks, chapters, order, s, if stacks[s].Some? then stacks[s] else Some(ids[0]));
      stacks := stacks[s := if stacks[s].Some? then stacks[s] else Some(ids[0])];
    }

    // ----- renumbering -----

    /** SELECT asset_id ... WHERE chapter_id = c ORDER BY page_no. */
    method OrderedPages(s: StackId, c: ChapterId, ghost want: seq<AssetId>) returns (ids: seq<AssetId>)
      requires c in chapters && Listing(pages, s, c, want)
      ensures ids == want
    {
      var keys := set k | k in pages && pages[k].chapter == c;
      var rest := keys;
      ids := [];
      while rest != {}
        invariant rest <= keys
        invariant Ascending(pages, s, ids)
        invariant forall i, k :: 0 <= i < |ids| && k in rest ==> pages[PageKey(s, ids[i])].no < pages[k].no
        invariant forall a :: a in ids <==> PageKey(s, a) in keys - rest
        decreases rest
      {
        var k := Earliest(rest);
        forall m | m in rest && m != k ensures pages[k].no < pages[m].no {
          ListingDistinct(pages, s, c, want, k, m);
        }
        assert k == PageKey(s, k.asset);
        rest := rest - {k};
        ids := ids + [k.asset];
      }
      forall a ensures a in ids <==> a in want {
        if a in want { var i :| 0 <= i < |want| && want[i] == a; assert PageKey(s, a) in keys; }
      }
      ListingUnique(pages, s, ids, want);
    }

    method RenumberChapter(s: StackId, c: ChapterId, ghost want: seq<AssetId>)
      requires c in chapters && Listing(pages, s, c, want)
      modifies this`pages
      ensures pages.Keys == old(pages).Keys && Numbered(pages, s, c, want)
      ensures forall k :: k in pages ==> pages[k] == if old(pages)[k].chapter == c then old(pages)[k].(no := pages[k].no) else old(pages)[k]
    {
      var ids := OrderedPages(s, c, want);
      ListingNoRepeats(pages, s, c, ids);
      for i := 0 to |ids|
        invariant Relisted(old(pages), pages, s, ids, i)
      {
        NumbersGrow(old(pages), s, c, want, i);
        RelistedStep(old(pages), pages, s, ids, i);
        UniqueAfterUpdate(old(pages), pages, s, c, ids, i);
        pages := pages[PageKey(s, ids[i]) := pages[PageKey(s, ids[i])].(no := i + 1)];
      }
      RelistedIsNumbered(old(pages), pages, s, c, ids);
    }

    /** `renumber_pages`: every chapter of the stack, in any order. */
    method RenumberPages(s: StackId, ghost want: map<ChapterId, seq<AssetId>>)
      requires Relisting(chapters, pages, s, want, ChaptersOf(chapters, s))
      modifies this`pages
      ensures Relisting(chapters, pages, s, want, {}) && pages.Keys == old(pages).Keys
      ensures forall k :: k in pages ==> pages[k] == old(pages)[k].(no := pages[k].no)
    {
      hide Numbered, Listing;
      var todo := ChaptersOf(chapters, s);
      while todo != {}
        invariant Relisting(chapters, pages, s, want, todo) && todo <= ChaptersOf(chapters, s)
        invariant pages.Keys == old(pages).Keys
        invariant forall k :: k in pages ==> pages[k] == old(pages)[k].(no := pages[k].no)
        decreases todo
      {
        var c :| c in todo;
        ghost var before := pages;
        assert Listing(pages, s, c, want[c]);
        RenumberChapter(s, c, want[c]);
        RelistingStep(chapters, before, pages, s, want, todo, c);
        todo := todo - {c};
      }
    }

    method RemovePage(s: StackId, asset: AssetId) returns (r: Outcome<()>)
      requires Valid()
      modifies this
      ensures Valid()
      ensures r == if s !in old(stacks) then Err(StackNotFound) else if PageKey(s, asset) !in old(pages) then Err(AssetNotFound) else Ok(())
      ensures r.Err? ==> unchanged(this)
      ensures r.Ok? ==>
        var c := old(pages)[PageKey(s, asset)].chapter;
        && order == old(order) && layout == old(layout)[c := Without(old(layout)[c], asset)]
        && pages.Keys == old(pages).Keys - {PageKey(s, asset)}
        && (forall k :: k in pages ==> pages[k].show == old(pages)[k].show)
        && (forall d :: d in order[s] ==> d in layout)
        && stacks == old(stacks)[s := if old(stacks)[s] == Some(asset) then FirstIn(order[s], layout) else old(stacks)[s]]
        && assets == Recomputed(old(assets), pages, {asset})
    {
      hide AssetTables, ChaptersNumbered, Numbered, Listing, PagesDiffer;
      if s !in stacks {
        return Err(StackNotFound);
      }
      if PageKey(s, asset) !in pages {
        return Err(AssetNotFound);
      }
      DropPage(s, asset);
      RemovedDiffer(assets, old(pages), pages, PageKey(s, asset));
      RefreshVisibility({asset}, old(pages));
      hide Covered, PagesNumbered;
      ReplaceCover(s, asset, old(pages));
      r := Ok(());
    }

    /** A removed cover gives way to the first page in reading order. */
    method ReplaceCover(s: StackId, asset: AssetId, ghost before: Pages)
      requires NumbersValid() && Covered(stacks, before) && s in stacks && PageKey(s, asset) in before
      requires pages.Keys == before.Keys - {PageKey(s, asset)}
      modifies this`stacks
      ensures NumbersValid() && Covered(stacks, pages)
      ensures forall c :: c in order[s] ==> c in layout
      ensures stacks == old(stacks)[s := if old(stacks)[s] == Some(asset) then FirstIn(order[s], layout) else old(stacks)[s]]
    {
      hide ChaptersNumbered, PagesNumbered;
      var first := FirstPage(s);
      RemovedCovered(stacks, before, pages, s, asset, first);
      hide Covered;
      var cover := if stacks[s] == Some(asset) then first else stacks[s];
      CoverKeepsNumbers(stacks, chapters, order, s, cover);
      stacks := stacks[s := cover];
    }

    method DropPage(s: StackId, asset: AssetId)
      requires NumbersValid() && PageKey(s, asset) in pages
      modifies this`pages, this`layout
      ensures NumbersValid() && pages.Keys == old(pages).Keys - {PageKey(s, asset)}
      ensures forall k :: k in pages ==> pages[k] == old(pages)[k].(no := pages[k].no)
      ensures var c := old(pages)[PageKey(s, asset)].chapter;
        c in old(layout) && layout == old(layout)[c := Without(old(layout)[c], asset)]
    {
      hide ChaptersNumbered, Numbered, Relisting;
      ghost var c := pages[PageKey(s, asset)].chapter;
      ghost var want := layout[c := Without(layout[c], asset)];
      RemovalRelists(chapters, pages, layout, s, asset);
      pages := pages - {PageKey(s, asset)};
      RenumberPages(s, want);
      layout := want;
      RelistingDone(chapters, pages, s, want);
    }

    // ----- replace_structure -----

    method DropChapters(s: StackId)
      requires NumbersValid() && s in stacks
      modifies this`chapters, this`pages, this`order, this`layout
      ensures NumbersValid() && order == old(order)[s := []] && layout == old(layout) - ChaptersOf(old(chapters), s)
      ensures chapters == old(chapters) - ChaptersOf(old(chapters), s) && pages == old(pages) - PagesOf(old(pages), s)
    {
      hide ChaptersNumbered, PagesNumbered;
      DropKeepsOrder(stacks, chapters, order, s);
      DropKeepsPages(chapters, pages, layout, s);
      order := order[s := []];
      layout := layout - ChaptersOf(chapters, s);
      pages := pages - PagesOf(pages, s);
      chapters := chapters - ChaptersOf(chapters, s);
    }

    /** The chapters of `parts` under fresh ids, with the flags the pages had before. */
    method RebuildChapters(s: StackId, parts: seq<seq<AssetId>>, cids: seq<ChapterId>)
      requires NumbersValid() && s in stacks && NoRepeats(Flatten(parts)) && |cids| == |parts| && NoRepeats(cids)
      requires forall c :: c in cids ==> c !in layout
      modifies this`chapters, this`pages, this`order, this`layout
      ensures NumbersValid() && Rebuilding(old(order), old(layout), order, layout, s, parts, cids, |parts|)
      ensures Rebuilt(old(pages), pages, s, Flatten(parts))
    {
      hide NumbersValid, Flatten, Rebuilding, Rebuilt, NoRepeats, FlagsOf;
      var flags := FlagsOf(pages, s);
      DropChapters(s);
      NothingRebuilt(old(pages), s, parts);
      RebuildingStart(old(order), old(layout), layout, s, parts, cids);
      for i := 0 to |parts|
        invariant NumbersValid() && Rebuilding(old(order), old(layout), order, layout, s, parts, cids, i)
        invariant Rebuilt(old(pages), pages, s, Flatten(parts[..i]))
      {
        RebuildingStep(old(order), old(layout), order, layout, s, parts, cids, i);
        RebuildChapter(s, parts, i, cids[i], flags, old(pages));
      }
      assert parts[..|parts|] == parts;
    }

    method RebuildChapter(s: StackId, parts: seq<seq<AssetId>>, i: nat, c: ChapterId, flags: map<AssetId, bool>, ghost before: Pages)
      requires NumbersValid() && s in stacks && NoRepeats(Flatten(parts)) && i < |parts|
      requires flags == FlagsOf(before, s) && s in order && |order[s]| == i && c !in layout
      requires Rebuilt(before, pages, s, Flatten(parts[..i]))
      modifies this`chapters, this`pages, this`order, this`layout
      ensures NumbersValid() && order == old(order)[s := old(order)[s] + [c]] && layout == old(layout)[c := parts[i]]
      ensures Rebuilt(before, pages, s, Flatten(parts[..i + 1]))
    {
      assert c !in chapters && s in order;
      hide ChaptersNumbered, PagesNumbered, InsertedPages, Rebuilt, NoRepeats, Flatten, FlagsOf;
      NextPartUnplaced(before, pages, s, parts, i);
      AddFilledChapter(s, c, i + 1, parts[i], flags);
      RebuiltNext(before, old(pages), pages, s, c, parts, i);
    }

    method ReplaceStructure(s: StackId, parts: seq<seq<AssetId>>, cids: seq<ChapterId>) returns (r: Outcome<()>)
      requires Valid() && |cids| == |parts| && NoRepeats(cids) && forall c :: c in cids ==> c !in chapters
      modifies this
      ensures Valid()
      ensures r.Ok? <==>
        && 1 <= |parts| <= MAX_STACK_CHAPTERS && |Flatten(parts)| <= MAX_STACK_PAGES && NoRepeats(Flatten(parts))
        && s in old(stacks) && Usable(old(assets), Flatten(parts))
      ensures r.Err? ==> unchanged(this)
      ensures r.Err? ==>
        r.error ==
        if 1 <= |parts| <= MAX_STACK_CHAPTERS && |Flatten(parts)| <= MAX_STACK_PAGES && NoRepeats(Flatten(parts)) && s !in old(stacks)
        then StackNotFound else InvalidStack
      ensures r.Ok? ==>
        && order == old(order)[s := cids]
        && Rebuilding(old(order), old(layout), order, layout, s, parts, cids, |parts|)
        && Rebuilt(old(pages), pages, s, Flatten(parts))
        && (forall c :: c in order[s] ==> c in layout)
        && stacks == old(stacks)[s := if old(stacks)[s].Some? && PageKey(s, old(stacks)[s].value) in pages then old(stacks)[s]
                                      else FirstIn(order[s], layout)]
        && assets == Recomputed(Promoted(old(assets), Ids(Flatten(parts))), pages, AssetsOf(old(pages), s) + Ids(Flatten(parts)))
    {
      hide AssetTables, ChaptersNumbered, Numbered, Covered, Rebuilt, PagesDiffer, Flatten, FirstIn;
      if parts == [] || |parts| > MAX_STACK_CHAPTERS {
        return Err(InvalidStack);
      }
      var ids := Flatten(parts);
      if |ids| > MAX_STACK_PAGES || !NoRepeats(ids) {
        return Err(InvalidStack);
      }
      if s !in stacks {
        return Err(StackNotFound);
      }
      var usable := ValidateAssets(ids);
      if !usable {
        return Err(InvalidStack);
      }
      var affected := AssetsOf(pages, s) + Ids(ids);
      assert layout.Keys == chapters.Keys;
      RebuildChapters(s, parts, cids);
      assert cids[..|parts|] == cids;
      RebuiltDiffer(assets, old(pages), pages, s, ids);
      RefreshAssets(ids, affected, old(pages));
      KeepOrReplaceCover(s, ids, old(pages));
      r := Ok(());
    }

    method KeepOrReplaceCover(s: StackId, ids: seq<AssetId>, ghost before: Pages)
      requires NumbersValid() && Covered(stacks, before) && Rebuilt(before, pages, s, ids) && s in stacks
      modifies this`stacks
      ensures NumbersValid() && Covered(stacks, pages)
      ensures forall c :: c in order[s] ==> c in layout
      ensures stacks == old(stacks)[s := if old(stacks)[s].Some? && PageKey(s, old(stacks)[s].value) in pages then old(stacks)[s]
                                         else FirstIn(order[s], layout)]
    {
      hide ChaptersNumbered, PagesNumbered, Rebuilt;
      var first := FirstPage(s);
      RebuiltCovered(stacks, before, pages, s, ids, first);
      hide Covered;
      var cover := if stacks[s].Some? && PageKey(s, stacks[s].value) in pages then stacks[s] else first;
      CoverKeepsNumbers(stacks, chapters, order, s, cover);
      stacks := stacks[s := cover];
    }
  }
}
