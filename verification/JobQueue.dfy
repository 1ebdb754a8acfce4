/** The job queue's table over whole runs. */
module JobQueue {
  import opened Basics

  type JobId = nat

  datatype JobState = Queued | Running | Done | Failed | Cancelled

  /** `created` and `finished` are microseconds: their texts have a fixed width and sort alike.  `asset` is the
      payload's asset id, if it has one. */
  datatype Job = Job(kind: string, asset: Option<AssetId>, state: JobState, priority: int, created: int, finished: Option<int>,
                     cancelRequested: bool)

  datatype Error = JobQueueFull | UniqueViolation

  type Jobs = map<JobId, Job>

  const MAX_ACTIVE_JOBS := 10_000
  const MAX_ACTIVE_ML_JOBS := 5_000
  const MAX_TERMINAL_JOBS := 5_000

  // ----- the table -----

  predicate IsActive(j: Job) { j.state.Queued? || j.state.Running? }

  /** `kind.starts_with("ml_")`. */
  predicate IsMl(kind: string) { "ml_" <= kind }

  /** `kind LIKE 'ml\_%'`: LIKE ignores the case of ASCII letters, so it counts at least as many. */
  predicate LikeMl(kind: string) {
    |kind| >= 3 && (kind[0] == 'm' || kind[0] == 'M') && (kind[1] == 'l' || kind[1] == 'L') && kind[2] == '_'
  }

  lemma LikeMlIff(kind: string)
    ensures LikeMl(kind) <==> |kind| >= 3 && kind[..3] in {"ml_", "mL_", "Ml_", "ML_"}
  {
    if |kind| >= 3 { assert kind[..3] == [kind[0], kind[1], kind[2]]; }
  }

  function ActiveJobs(jobs: Jobs): set<JobId> { set i | i in jobs && IsActive(jobs[i]) }

  function ActiveMlJobs(jobs: Jobs): set<JobId> { set i | i in jobs && IsActive(jobs[i]) && IsMl(jobs[i].kind) }

  function ActiveLikeMl(jobs: Jobs): set<JobId> { set i | i in jobs && IsActive(jobs[i]) && LikeMl(jobs[i].kind) }

  function Terminal(jobs: Jobs): set<JobId> { set i | i in jobs && !IsActive(jobs[i]) }

  /** ORDER BY priority DESC, created_at, id. */
  predicate Before(jobs: Jobs, a: JobId, b: JobId)
    requires a in jobs && b in jobs
  {
    || jobs[a].priority > jobs[b].priority
    || (jobs[a].priority == jobs[b].priority
        && (jobs[a].created < jobs[b].created || (jobs[a].created == jobs[b].created && a < b)))
  }

  // ----- pruning -----

  function Ended(j: Job): int { if j.finished.Some? then j.finished.value else j.created }

  /** ORDER BY COALESCE(finished_at, created_at) DESC, id DESC: `a` comes before `b`. */
  predicate Newer(jobs: Jobs, a: JobId, b: JobId)
    requires a in jobs && b in jobs
  {
    Ended(jobs[a]) > Ended(jobs[b]) || (Ended(jobs[a]) == Ended(jobs[b]) && a > b)
  }

  /** The rows that come before row `b` among the terminal ones. */
  function NewerThan(jobs: Jobs, b: JobId): set<JobId>
    requires b in jobs
  {
    set a | a in Terminal(jobs) && a in jobs && Newer(jobs, a, b)
  }

  /** COALESCE(finished_at, created_at) DESC, id DESC, over the rows that are done, failed or cancelled. */
  lemma NewerThanIff(jobs: Jobs, a: JobId, b: JobId)
    requires a in jobs && b in jobs
    ensures a in NewerThan(jobs, b) <==>
      && (jobs[a].state.Done? || jobs[a].state.Failed? || jobs[a].state.Cancelled?)
      && var s, t := (if jobs[a].finished.Some? then jobs[a].finished.value else jobs[a].created),
                     (if jobs[b].finished.Some? then jobs[b].finished.value else jobs[b].created);
         s > t || (s == t && a > b)
  {
  }

  const MICROS_PER_DAY := 86_400_000_000
  const MICROS_PER_SECOND := 1_000_000

  function Day(t: int): int { t / MICROS_PER_DAY }

  /** The text of a timestamp: a date, a separator and a time of day, each of a fixed width. */
  datatype Stamp = Stamp(date: int, separator: char, time: int)

  /** The order of such texts is lexicographic. */
  predicate TextBefore(a: Stamp, b: Stamp) {
    || a.date < b.date
    || (a.date == b.date && a.separator < b.separator)
    || (a.date == b.date && a.separator == b.separator && a.time < b.time)
  }

  /** RFC 3339 with microseconds, as the columns hold it. */
  function Stored(t: int): Stamp { Stamp(Day(t), 'T', t % MICROS_PER_DAY) }

  /** `datetime(...)`: a blank, and whole seconds. */
  function SqlDatetime(t: int): Stamp {
    Stamp(Day(t), ' ', t % MICROS_PER_DAY / MICROS_PER_SECOND * MICROS_PER_SECOND)
  }

  /** `finished_at < datetime('now', '-30 days')`. */
  predicate Expired(finished: int, cutoff: int) { TextBefore(Stored(finished), SqlDatetime(cutoff)) }

  /** Within a column texts sort like instants, so ORDER BY and COALESCE may be read as of numbers. */
  lemma StoredOrder(a: int, b: int)
    ensures TextBefore(Stored(a), Stored(b)) <==> a < b
  {
    DaySplits(a);
    DaySplits(b);
    hide Day;
  }

  lemma DaySplits(t: int)
    ensures t == Day(t) * MICROS_PER_DAY + t % MICROS_PER_DAY && 0 <= t % MICROS_PER_DAY < MICROS_PER_DAY
  {
  }

  /** Between the two formats only the dates decide: the `T` sorts after the blank. */
  lemma ExpiresByDate(finished: int, cutoff: int)
    ensures Expired(finished, cutoff) <==> Day(finished) < Day(cutoff)
  {
  }

  /** So a row expires no earlier than it should and less than a day late. */
  lemma ExpiresWithinADay(finished: int, cutoff: int)
    ensures Expired(finished, cutoff) ==> finished < cutoff
    ensures finished + MICROS_PER_DAY <= cutoff ==> Expired(finished, cutoff)
  {
    ExpiresByDate(finished, cutoff);
    DaySplits(finished);
    DaySplits(cutoff);
    hide Day, Expired;
  }

  /** All rows expire on time exactly when the cut-off is at midnight. */
  lemma ExpiresOnTimeIff(cutoff: int)
    ensures (forall finished :: finished < cutoff ==> Expired(finished, cutoff)) <==> cutoff % MICROS_PER_DAY == 0
  {
    DaySplits(cutoff);
    if cutoff % MICROS_PER_DAY == 0 {
      forall finished | finished < cutoff ensures Expired(finished, cutoff) { BeforeMidnight(finished, cutoff); }
    } else {
      LateBy(cutoff);
    }
  }

  lemma BeforeMidnight(finished: int, cutoff: int)
    requires finished < cutoff && cutoff % MICROS_PER_DAY == 0
    ensures Expired(finished, cutoff)
  {
    ExpiresByDate(finished, cutoff);
    DaySplits(finished);
    DaySplits(cutoff);
    hide Day, Expired;
  }

  /** Off midnight a job that ended just before the cut-off stays. */
  lemma LateBy(cutoff: int)
    requires cutoff % MICROS_PER_DAY != 0
    ensures !Expired(cutoff - 1, cutoff)
  {
    ExpiresByDate(cutoff - 1, cutoff);
  }

  /** The WHERE clause of `prune_terminal_jobs`. */
  predicate Pruned(jobs: Jobs, b: JobId, cutoff: int)
    requires b in jobs
  {
    && !IsActive(jobs[b])
    && ((jobs[b].finished.Some? && Expired(jobs[b].finished.value, cutoff)) || |NewerThan(jobs, b)| >= MAX_TERMINAL_JOBS)
  }

  function AfterPrune(jobs: Jobs, cutoff: int): Jobs {
    map i | i in jobs && !Pruned(jobs, i, cutoff) :: jobs[i]
  }

  lemma {:induction false} OldestOf(jobs: Jobs, ids: set<JobId>) returns (oldest: JobId)
    requires ids != {} && ids <= jobs.Keys
    ensures oldest in ids && forall i :: i in ids && i != oldest ==> Newer(jobs, i, oldest)
  {
    var x :| x in ids;
    assert forall i :: i in ids ==> i == x || i in ids - {x};
    if ids - {x} == {} {
      oldest := x;
    } else {
      var y := OldestOf(jobs, ids - {x});
      oldest := if Newer(jobs, x, y) then y else x;
      forall i | i in ids && i != oldest ensures Newer(jobs, i, oldest) {
        assert i in ids - {x} || i == x;
      }
    }
  }

  lemma {:induction false} SubsetSize(a: set<JobId>, b: set<JobId>)
    requires a <= b
    ensures |a| <= |b|
  {
    if a != {} {
      var x :| x in a;
      SubsetSize(a - {x}, b - {x});
    }
  }

  /** At most 5000 terminal rows survive a pruning, and no active one goes. */
  lemma PruneBounds(jobs: Jobs, cutoff: int)
    ensures |Terminal(AfterPrune(jobs, cutoff))| <= MAX_TERMINAL_JOBS
    ensures Terminal(AfterPrune(jobs, cutoff)) ==
            set i | i in AfterPrune(jobs, cutoff) && (jobs[i].state.Done? || jobs[i].state.Failed? || jobs[i].state.Cancelled?)
    ensures ActiveJobs(AfterPrune(jobs, cutoff)) == ActiveJobs(jobs) && ActiveMlJobs(AfterPrune(jobs, cutoff)) == ActiveMlJobs(jobs)
    ensures forall i :: i in AfterPrune(jobs, cutoff) ==> i in jobs && AfterPrune(jobs, cutoff)[i] == jobs[i]
  {
    var kept := Terminal(AfterPrune(jobs, cutoff));
    if kept != {} {
      var oldest := OldestOf(jobs, kept);
      assert kept - {oldest} <= NewerThan(jobs, oldest);
      SubsetSize(kept - {oldest}, NewerThan(jobs, oldest));
      assert |kept - {oldest}| == |kept| - 1;
    }
  }

  /** A terminal row goes exactly by its date or by its rank. */
  lemma PrunedIff(jobs: Jobs, cutoff: int, i: JobId)
    requires i in jobs && !IsActive(jobs[i])
    ensures i !in AfterPrune(jobs, cutoff) <==>
      (jobs[i].finished.Some? && Day(jobs[i].finished.value) < Day(cutoff)) || |NewerThan(jobs, i)| >= MAX_TERMINAL_JOBS
  {
    if jobs[i].finished.Some? { ExpiresByDate(jobs[i].finished.value, cutoff); }
  }

  /** The newest 5000 that ended no earlier than the cut-off stay. */
  lemma PruneKeepsNewest(jobs: Jobs, cutoff: int, i: JobId)
    requires i in jobs && !IsActive(jobs[i])
    requires |NewerThan(jobs, i)| < MAX_TERMINAL_JOBS && Ended(jobs[i]) >= cutoff
    ensures i in AfterPrune(jobs, cutoff)
  {
    PrunedIff(jobs, cutoff, i);
    if jobs[i].finished.Some? {
      ExpiresByDate(jobs[i].finished.value, cutoff);
      ExpiresWithinADay(jobs[i].finished.value, cutoff);
    }
  }

  /** By rank a pruning takes the earliest: with a row every row that ended later stays, but for its date. */
  lemma PruneKeepsLater(jobs: Jobs, cutoff: int, i: JobId, j: JobId)
    requires i in jobs && j in jobs && !IsActive(jobs[i]) && !IsActive(jobs[j]) && i in AfterPrune(jobs, cutoff)
    requires jobs[j].finished.Some? && Day(jobs[j].finished.value) >= Day(cutoff)
    requires jobs[i].finished.Some? && (jobs[i].finished.value < jobs[j].finished.value || (jobs[i].finished == jobs[j].finished && i < j))
    ensures j in AfterPrune(jobs, cutoff)
  {
    PrunedIff(jobs, cutoff, i);
    PrunedIff(jobs, cutoff, j);
    assert NewerThan(jobs, j) <= NewerThan(jobs, i);
    SubsetSize(NewerThan(jobs, j), NewerThan(jobs, i));
  }

  /** What the retention promises: a job that ended before the cut-off is gone after a pruning. */
  ghost predicate RetentionMet(cutoff: int) {
    forall jobs: Jobs, i :: i in jobs && Outlived(jobs[i], cutoff) ==> i !in AfterPrune(jobs, cutoff)
  }

  predicate Outlived(j: Job, cutoff: int) {
    !IsActive(j) && j.finished.Some? && j.finished.value < cutoff
  }

  function OneDone(finished: int): Jobs {
    map[0 := Job("thumbnail", None, Done, 0, 0, Some(finished), false)]
  }

  lemma OneDoneStays(finished: int, cutoff: int)
    requires finished < cutoff && !Expired(finished, cutoff)
    ensures var jobs := OneDone(finished); Outlived(jobs[0], cutoff) && 0 in AfterPrune(jobs, cutoff)
  {
    assert NewerThan(OneDone(finished), 0) == {};
  }

  /** It is met for every table exactly when the cut-off is at midnight. */
  lemma RetentionMetIff(cutoff: int)
    ensures RetentionMet(cutoff) <==> cutoff % MICROS_PER_DAY == 0
  {
    if cutoff % MICROS_PER_DAY == 0 {
      ExpiresOnTimeIff(cutoff);
      forall jobs: Jobs, i | i in jobs && Outlived(jobs[i], cutoff) ensures i !in AfterPrune(jobs, cutoff) {
        assert Expired(jobs[i].finished.value, cutoff);
      }
    } else {
      LateBy(cutoff);
      OneDoneStays(cutoff - 1, cutoff);
      assert 0 in OneDone(cutoff - 1);
    }
  }

  /** A job that ended a second into a day is still there when the cut-off is the end of that day. */
  lemma ExpiryCanBeLate() returns (jobs: Jobs, cutoff: int)
    ensures 0 in jobs && Outlived(jobs[0], cutoff) && 0 in AfterPrune(jobs, cutoff)
    ensures jobs[0].finished.Some? && cutoff - jobs[0].finished.value == MICROS_PER_DAY - MICROS_PER_SECOND - 1
  {
    jobs, cutoff := OneDone(MICROS_PER_SECOND), MICROS_PER_DAY - 1;
    ExpiresByDate(MICROS_PER_SECOND, cutoff);
    OneDoneStays(MICROS_PER_SECOND, cutoff);
  }

  // ----- unique indexes -----

  /** Two active rows that one of the unique indexes forbids. */
  predicate SameKey(a: Job, kind: string, asset: Option<AssetId>) {
    && IsActive(a) && a.kind == kind
    && (kind == "ml_recluster" || ((kind == "ml_analyze" || kind == "ml_vault_analyze") && asset.Some? && a.asset == asset))
  }

  ghost predicate UniqueActive(jobs: Jobs) {
    forall a, b :: a in jobs && b in jobs && IsActive(jobs[a]) && SameKey(jobs[b], jobs[a].kind, jobs[a].asset) ==> a == b
  }

  /** A queued job is not claimed, and a job whose cancel succeeded is cancelled or about to be. */
  ghost predicate Traced(jobs: Jobs, claims: set<JobId>, cancelled: set<JobId>) {
    forall i :: i in jobs ==>
      && (jobs[i].cancelRequested ==> jobs[i].state.Running?)
      && (jobs[i].state.Queued? ==> i !in claims && i !in cancelled)
      && (jobs[i].state.Running? ==> i in claims && (i in cancelled ==> jobs[i].cancelRequested))
      && (jobs[i].state.Done? || jobs[i].state.Failed? ==> i !in cancelled)
  }

  /** `enforce_admission`. */
  predicate Admits(jobs: Jobs, kind: string) {
    |ActiveJobs(jobs)| < MAX_ACTIVE_JOBS && (IsMl(kind) ==> |ActiveLikeMl(jobs)| < MAX_ACTIVE_ML_JOBS)
  }

  /** A unique index would refuse the new row. */
  ghost predicate Taken(jobs: Jobs, kind: string, asset: Option<AssetId>) {
    exists i :: i in jobs && SameKey(jobs[i], kind, asset)
  }

  /** What the unique indexes guard: one active reclustering, and one active analysis of each kind for an asset. */
  lemma TakenIff(jobs: Jobs, kind: string, asset: Option<AssetId>)
    ensures kind == "ml_recluster" ==>
      (Taken(jobs, kind, asset) <==> exists i :: i in jobs && jobs[i].kind == kind && (jobs[i].state.Queued? || jobs[i].state.Running?))
    ensures kind == "ml_analyze" || kind == "ml_vault_analyze" ==>
      (Taken(jobs, kind, asset) <==>
        (asset.Some? && exists i :: i in jobs && jobs[i].kind == kind && jobs[i].asset == asset && (jobs[i].state.Queued? || jobs[i].state.Running?)))
    ensures kind != "ml_recluster" && kind != "ml_analyze" && kind != "ml_vault_analyze" ==> !Taken(jobs, kind, asset)
  {
    if i :| i in jobs && jobs[i].kind == kind && (jobs[i].state.Queued? || jobs[i].state.Running?) && (kind == "ml_recluster" || jobs[i].asset == asset) {
      assert kind == "ml_recluster" ==> SameKey(jobs[i], kind, asset);
      assert (kind == "ml_analyze" || kind == "ml_vault_analyze") && asset.Some? ==> SameKey(jobs[i], kind, asset);
    }
  }

  class Queue {
    var jobs: Jobs

    ghost var issued: set<JobId>     // ids ever given out
    ghost var claims: set<JobId>     // claimed and not put back by a recovery since
    ghost var cancelled: set<JobId>  // jobs whose cancel succeeded

    ghost predicate Valid()
      reads this
    {
      && jobs.Keys <= issued && claims <= issued && cancelled <= issued
      && |ActiveJobs(jobs)| <= MAX_ACTIVE_JOBS && |ActiveMlJobs(jobs)| <= MAX_ACTIVE_ML_JOBS && UniqueActive(jobs)
      && Traced(jobs, claims, cancelled)
    }

    constructor ()
      ensures Valid() && jobs == map[]
    {
      jobs, issued, claims, cancelled := map[], {}, {}, {};
      new;
      assert ActiveJobs(map[]) == {} && ActiveMlJobs(map[]) == {};
    }

    method Prune(cutoff: int)
      requires Valid()
      modifies this`jobs
      ensures Valid() && jobs == AfterPrune(old(jobs), cutoff) && |Terminal(jobs)| <= MAX_TERMINAL_JOBS
      ensures ActiveJobs(jobs) == ActiveJobs(old(jobs)) && ActiveMlJobs(jobs) == ActiveMlJobs(old(jobs))
    {
      hide Pruned;
      PruneBounds(jobs, cutoff);
      var gone := set i | i in jobs && Pruned(jobs, i, cutoff);
      jobs := map i | i in jobs && i !in gone :: jobs[i];
      assert jobs == AfterPrune(old(jobs), cutoff);
    }

    /** `insert_job`, with a fresh id; the unique indexes may refuse it. */
    method Insert(id: JobId, kind: string, asset: Option<AssetId>, priority: int, now: int) returns (ok: bool)
      requires Valid() && id !in issued && Admits(jobs, kind)
      modifies this
      ensures Valid() && issued == old(issued) + {id} && claims == old(claims) && cancelled == old(cancelled)
      ensures ok <==> !Taken(old(jobs), kind, asset)
      ensures jobs == if ok then old(jobs)[id := Job(kind, asset, Queued, priority, now, None, false)] else old(jobs)
    {
      hide UniqueActive, ActiveJobs, ActiveMlJobs, ActiveLikeMl, SameKey, Traced, IsMl;
      issued := issued + {id};
      if i :| i in jobs && SameKey(jobs[i], kind, asset) {
        return false;
      }
      var j := Job(kind, asset, Queued, priority, now, None, false);
      LikeCountsMore(jobs);
      OneMore(jobs, id, j);
      QueuedTraced(jobs, id, j, claims, cancelled);
      jobs := jobs[id := j];
      ok := true;
    }

    /** `enqueue`.  A full queue still commits the pruning; a refused insert rolls it back. */
    method Enqueue(id: JobId, kind: string, asset: Option<AssetId>, priority: int, now: int, cutoff: int) returns (r: Result<JobId, Error>)
      requires Valid() && id !in issued
      modifies this
      ensures Valid() && claims == old(claims) && cancelled == old(cancelled)
      ensures var pruned := AfterPrune(old(jobs), cutoff);
        r == if !Admits(pruned, kind) then Err(JobQueueFull) else if Taken(pruned, kind, asset) then Err(UniqueViolation) else Ok(id)
      ensures var pruned := AfterPrune(old(jobs), cutoff);
        r == Err(JobQueueFull) <==>
          |ActiveJobs(pruned)| >= MAX_ACTIVE_JOBS || ("ml_" <= kind && |ActiveLikeMl(pruned)| >= MAX_ACTIVE_ML_JOBS)
      ensures r.Ok? ==>
        jobs == AfterPrune(old(jobs), cutoff)[id := Job(kind, asset, Queued, priority, now, None, false)]
      ensures r == Err(JobQueueFull) ==> jobs == AfterPrune(old(jobs), cutoff)
      ensures r == Err(UniqueViolation) ==> jobs == old(jobs)
      ensures r != Err(UniqueViolation) ==> |Terminal(jobs)| <= MAX_TERMINAL_JOBS
    {
      var before := jobs;
      Prune(cutoff);
      if !Admits(jobs, kind) {
        return Err(JobQueueFull);
      }
      ghost var pruned := jobs;
      var ok := Insert(id, kind, asset, priority, now);
      if !ok {
        jobs := before;
        return Err(UniqueViolation);
      }
      assert Terminal(jobs) == Terminal(pruned);
      r := Ok(id);
    }

    /** `claim_kinds`: an empty list of kinds allows every kind. */
    method Claim(kinds: seq<string>) returns (claimed: Option<JobId>)
      requires Valid()
      modifies this
      ensures Valid() && issued == old(issued) && cancelled == old(cancelled)
      ensures match claimed
              case None =>
                && unchanged(this)
                && forall i :: i in jobs && jobs[i].state.Queued? ==> kinds != [] && jobs[i].kind !in kinds
              case Some(id) =>
                && id in old(jobs) && old(jobs)[id].state.Queued? && (kinds == [] || old(jobs)[id].kind in kinds)
                && (forall i :: i in old(jobs) && i != id && old(jobs)[i].state.Queued? && (kinds == [] || old(jobs)[i].kind in kinds) ==>
                      var first, other := old(jobs)[id], old(jobs)[i];
                      || other.priority < first.priority
                      || (other.priority == first.priority && first.created < other.created)
                      || (other.priority == first.priority && first.created == other.created && id < i))
                && id !in old(claims) && id !in old(cancelled) && claims == old(claims) + {id}
                && jobs == old(jobs)[id := old(jobs)[id].(state := Running, finished := None)]
    {
      claimed := FirstQueued(kinds);
      if claimed.None? {
        return;
      }
      var id := claimed.value;
      SameActive(jobs, id, jobs[id].(state := Running, finished := None));
      jobs := jobs[id := jobs[id].(state := Running, finished := None)];
      claims := claims + {id};
    }

    method FirstQueued(kinds: seq<string>) returns (first: Option<JobId>)
      ensures match first
              case None => forall i :: i in jobs && jobs[i].state.Queued? ==> kinds != [] && jobs[i].kind !in kinds
              case Some(id) =>
                && id in jobs && jobs[id].state.Queued? && (kinds == [] || jobs[id].kind in kinds)
                && forall i :: i in jobs && i != id && jobs[i].state.Queued? && (kinds == [] || jobs[i].kind in kinds) ==> Before(jobs, id, i)
    {
      first := None;
      var todo := set i | i in jobs && jobs[i].state.Queued? && (kinds == [] || jobs[i].kind in kinds);
      var all := todo;
      while todo != {}
        invariant todo <= all && (first.None? ==> todo == all) && (first.Some? ==> first.value in all - todo)
        invariant first.Some? ==> forall i :: i in all - todo && i != first.value ==> Before(jobs, first.value, i)
        decreases todo
      {
        var i :| i in todo;
        if first.None? || Before(jobs, i, first.value) {
          BeforeAll(jobs, all - todo, i, first);
          first := Some(i);
        }
        todo := todo - {i};
      }
      if first.None? {
        forall i | i in jobs && jobs[i].state.Queued? ensures kinds != [] && jobs[i].kind !in kinds { assert i !in all; }
      } else {
        forall i | i in jobs && i != first.value && jobs[i].state.Queued? && (kinds == [] || jobs[i].kind in kinds)
          ensures Before(jobs, first.value, i)
        {
          assert i in all - todo;
        }
      }
    }

    /** `enqueue_unique_active`: the earliest active job of the kind (and asset, when one is given) stands for the new one. */
    method EnqueueUniqueActive(id: JobId, kind: string, asset: Option<AssetId>, key: Option<AssetId>, priority: int, now: int, cutoff: int)
      returns (r: Result<JobId, Error>)
      requires Valid() && id !in issued
      modifies this
      ensures Valid() && claims == old(claims) && cancelled == old(cancelled)
      ensures var pruned := AfterPrune(old(jobs), cutoff);
        if exists i :: Matches(pruned, kind, key, i) then r.Ok? && r.value in pruned
        else r == if !Admits(pruned, kind) then Err(JobQueueFull) else if Taken(pruned, kind, asset) then Err(UniqueViolation) else Ok(id)
      ensures r.Ok? && r.value != id ==>
        && jobs == AfterPrune(old(jobs), cutoff) && Matches(jobs, kind, key, r.value)
        && forall i :: Matches(jobs, kind, key, i) && i != r.value ==>
             i in jobs && r.value in jobs
             && (jobs[r.value].created < jobs[i].created || (jobs[r.value].created == jobs[i].created && r.value < i))
      ensures r == Ok(id) ==>
        && (forall i :: !Matches(AfterPrune(old(jobs), cutoff), kind, key, i))
        && jobs == AfterPrune(old(jobs), cutoff)[id := Job(kind, asset, Queued, priority, now, None, false)]
      ensures r == Err(JobQueueFull) ==> jobs == AfterPrune(old(jobs), cutoff)
      ensures r == Err(UniqueViolation) ==> jobs == old(jobs)
      ensures r != Err(UniqueViolation) ==> |Terminal(jobs)| <= MAX_TERMINAL_JOBS
    {
      var before := jobs;
      Prune(cutoff);
      var existing := FirstActive(kind, key);
      if existing.Some? {
        return Ok(existing.value);
      }
      if !Admits(jobs, kind) {
        return Err(JobQueueFull);
      }
      ghost var pruned := jobs;
      var ok := Insert(id, kind, asset, priority, now);
      if !ok {
        jobs := before;
        return Err(UniqueViolation);
      }
      assert Terminal(jobs) == Terminal(pruned);
      r := Ok(id);
    }

    /** `active_job`. */
    method FirstActive(kind: string, key: Option<AssetId>) returns (first: Option<JobId>)
      ensures match first
              case None => forall i :: !Matches(jobs, kind, key, i)
              case Some(f) => Matches(jobs, kind, key, f) && forall i :: Matches(jobs, kind, key, i) && i != f ==> Earlier(jobs, f, i)
      ensures first.None? ==>
        forall i :: i in jobs && jobs[i].kind == kind && (key.None? || jobs[i].asset == key) ==> !jobs[i].state.Queued? && !jobs[i].state.Running?
      ensures first.Some? ==>
        && first.value in jobs && jobs[first.value].kind == kind && (key.None? || jobs[first.value].asset == key)
        && (jobs[first.value].state.Queued? || jobs[first.value].state.Running?)
    {
      first := None;
      var all := set i | i in jobs && Matches(jobs, kind, key, i);
      var todo := all;
      while todo != {}
        invariant todo <= all && (first.None? ==> todo == all) && (first.Some? ==> first.value in all - todo)
        invariant first.Some? ==> forall i :: i in all - todo && i != first.value ==> Earlier(jobs, first.value, i)
        decreases todo
      {
        var i :| i in todo;
        if first.None? || Earlier(jobs, i, first.value) {
          EarlierAll(jobs, all - todo, i, first);
          first := Some(i);
        }
        todo := todo - {i};
      }
      if first.None? {
        forall i ensures !Matches(jobs, kind, key, i) { assert i !in all; }
        forall i | i in jobs && jobs[i].kind == kind && (key.None? || jobs[i].asset == key)
          ensures !jobs[i].state.Queued? && !jobs[i].state.Running?
        {
          assert !Matches(jobs, kind, key, i);
        }
      }
    }

    /** The two UPDATEs of `cancel`. */
    method RequestCancel(id: JobId, now: int) returns (ok: bool)
      requires Valid()
      modifies this
      ensures Valid() && issued == old(issued) && claims == old(claims)
      ensures ok <==> id in old(jobs) && (old(jobs)[id].state.Queued? || (old(jobs)[id].state.Running? && !old(jobs)[id].cancelRequested))
      ensures cancelled == if ok then old(cancelled) + {id} else old(cancelled)
      ensures jobs ==
        if !ok then old(jobs)
        else if old(jobs)[id].state.Queued? then old(jobs)[id := old(jobs)[id].(state := Cancelled, finished := Some(now))]
        else old(jobs)[id := old(jobs)[id].(cancelRequested := true)]
    {
      hide UniqueActive, ActiveJobs, ActiveMlJobs;
      ok := Cancellable(jobs, id);
      if ok {
        CancelTraced(jobs, id, now, claims, cancelled);
        Fewer(jobs, AfterCancel(jobs, id, now));
        hide Traced;
        jobs := AfterCancel(jobs, id, now);
        cancelled := cancelled + {id};
      }
    }

    method Cancel(id: JobId, now: int, cutoff: int) returns (ok: bool)
      requires Valid()
      modifies this
      ensures Valid() && issued == old(issued) && claims == old(claims)
      ensures ok <==> id in old(jobs) && (old(jobs)[id].state.Queued? || (old(jobs)[id].state.Running? && !old(jobs)[id].cancelRequested))
      ensures cancelled == if ok then old(cancelled) + {id} else old(cancelled)
      ensures jobs == AfterPrune(
        if !ok then old(jobs)
        else if old(jobs)[id].state.Queued? then old(jobs)[id := old(jobs)[id].(state := Cancelled, finished := Some(now))]
        else old(jobs)[id := old(jobs)[id].(cancelRequested := true)], cutoff)
      ensures |Terminal(jobs)| <= MAX_TERMINAL_JOBS
    {
      ok := RequestCancel(id, now);
      Prune(cutoff);
    }

    /** The UPDATE of `finish`. */
    method EndRunning(id: JobId, state: JobState, now: int) returns (ok: bool)
      requires Valid() && (state.Done? || state.Failed?)
      modifies this`jobs
      ensures Valid()
      ensures ok <==> id in old(jobs) && old(jobs)[id].state.Running?
      ensures jobs ==
        if !ok then old(jobs)
        else if old(jobs)[id].cancelRequested
        then old(jobs)[id := old(jobs)[id].(state := Cancelled, finished := Some(now), cancelRequested := false)]
        else old(jobs)[id := old(jobs)[id].(state := state, finished := Some(now))]
    {
      hide UniqueActive, ActiveJobs, ActiveMlJobs;
      ok := id in jobs && jobs[id].state.Running?;
      if ok {
        FinishTraced(jobs, id, state, now, claims, cancelled);
        Fewer(jobs, AfterFinish(jobs, id, state, now));
        hide Traced;
        jobs := AfterFinish(jobs, id, state, now);
      }
    }

    /** `complete` and `fail`. */
    method Finish(id: JobId, state: JobState, now: int, cutoff: int) returns (ok: bool)
      requires Valid() && (state.Done? || state.Failed?)
      modifies this`jobs
      ensures Valid()
      ensures ok <==> id in old(jobs) && old(jobs)[id].state.Running?
      ensures jobs == AfterPrune(
        if !ok then old(jobs)
        else if old(jobs)[id].cancelRequested
        then old(jobs)[id := old(jobs)[id].(state := Cancelled, finished := Some(now), cancelRequested := false)]
        else old(jobs)[id := old(jobs)[id].(state := state, finished := Some(now))], cutoff)
      ensures |Terminal(jobs)| <= MAX_TERMINAL_JOBS
    {
      ok := EndRunning(id, state, now);
      Prune(cutoff);
    }

    /** `recover`, at start-up: only here may a claimed job be claimed again. */
    method Recover(now: int)
      requires Valid()
      modifies this
      ensures Valid() && issued == old(issued) && cancelled == old(cancelled)
      ensures jobs.Keys == old(jobs).Keys
      ensures forall i :: i in jobs && old(jobs)[i].state.Running? && !old(jobs)[i].cancelRequested ==>
        jobs[i] == old(jobs)[i].(state := Queued, finished := None)
      ensures forall i :: i in jobs && old(jobs)[i].state.Running? && old(jobs)[i].cancelRequested ==>
        jobs[i] == old(jobs)[i].(state := Cancelled, finished := Some(now), cancelRequested := false)
      ensures forall i :: i in jobs && !old(jobs)[i].state.Running? ==> jobs[i] == old(jobs)[i]
      ensures claims == old(claims) - set i | i in old(jobs) && old(jobs)[i].state.Running? && !old(jobs)[i].cancelRequested
    {
      ghost var back := set i | i in jobs && jobs[i].state.Running? && !jobs[i].cancelRequested;
      RecoveredTraced(jobs, claims, cancelled, now, back);
      TwoUpdates(jobs, now);
      RecoveredRows(jobs, now);
      hide Traced, UniqueActive, ActiveJobs, ActiveMlJobs, CancelRunning, RequeueRunning, RecoveredAll;
      claims := claims - back;
      jobs := CancelRunning(jobs, now);
      jobs := RequeueRunning(jobs);
    }

    /** What the ghost sets mean: a job whose cancel succeeded is cancelled, or will be when its worker stops. */
    lemma CancelledStays(id: JobId)
      requires Valid() && id in cancelled && id in jobs
      ensures jobs[id].state.Cancelled? || (jobs[id].state.Running? && jobs[id].cancelRequested)
    {
    }
  }

  predicate Cancellable(jobs: Jobs, id: JobId) {
    id in jobs && (jobs[id].state.Queued? || (jobs[id].state.Running? && !jobs[id].cancelRequested))
  }

  /** A queued job is cancelled at once, a running one is asked to stop. */
  function AfterCancel(jobs: Jobs, id: JobId, now: int): Jobs {
    if !Cancellable(jobs, id) then jobs
    else if jobs[id].state.Queued? then jobs[id := jobs[id].(state := Cancelled, finished := Some(now))]
    else jobs[id := jobs[id].(cancelRequested := true)]
  }

  /** A running job ends in the given state, or cancelled when it was asked to stop. */
  function AfterFinish(jobs: Jobs, id: JobId, state: JobState, now: int): Jobs {
    if id !in jobs || !jobs[id].state.Running? then jobs
    else jobs[id := jobs[id].(state := if jobs[id].cancelRequested then Cancelled else state, finished := Some(now), cancelRequested := false)]
  }

  lemma CancelTraced(jobs: Jobs, id: JobId, now: int, claims: set<JobId>, cancelled: set<JobId>)
    requires Traced(jobs, claims, cancelled) && Cancellable(jobs, id)
    ensures Traced(AfterCancel(jobs, id, now), claims, cancelled + {id})
  {
  }

  lemma FinishTraced(jobs: Jobs, id: JobId, state: JobState, now: int, claims: set<JobId>, cancelled: set<JobId>)
    requires Traced(jobs, claims, cancelled) && (state.Done? || state.Failed?)
    ensures Traced(AfterFinish(jobs, id, state, now), claims, cancelled)
  {
  }

  /** A row after a recovery. */
  function Recovered(j: Job, now: int): Job {
    if !j.state.Running? then j
    else if j.cancelRequested then j.(state := Cancelled, finished := Some(now), cancelRequested := false)
    else j.(state := Queued, finished := None)
  }

  /** The first UPDATE of `recover`. */
  function CancelRunning(jobs: Jobs, now: int): Jobs {
    map i | i in jobs ::
      if jobs[i].state.Running? && jobs[i].cancelRequested then jobs[i].(state := Cancelled, finished := Some(now), cancelRequested := false)
      else jobs[i]
  }

  /** The second one. */
  function RequeueRunning(jobs: Jobs): Jobs {
    map i | i in jobs ::
      if jobs[i].state.Running? && !jobs[i].cancelRequested then jobs[i].(state := Queued, finished := None) else jobs[i]
  }

  lemma TwoUpdates(jobs: Jobs, now: int)
    ensures RequeueRunning(CancelRunning(jobs, now)) == RecoveredAll(jobs, now)
  {
  }

  function RecoveredAll(jobs: Jobs, now: int): Jobs {
    map i | i in jobs :: Recovered(jobs[i], now)
  }

  /** Nothing is left running: what was asked to stop is cancelled, the rest waits again as it did before its claim. */
  lemma RecoveredRows(jobs: Jobs, now: int)
    ensures var after := RecoveredAll(jobs, now);
      && after.Keys == jobs.Keys && (forall i :: i in jobs && !jobs[i].state.Running? ==> after[i] == jobs[i])
      && (forall i :: i in jobs && jobs[i].state.Running? && !jobs[i].cancelRequested ==>
            after[i] == jobs[i].(state := Queued, finished := None))
      && (forall i :: i in jobs && jobs[i].state.Running? && jobs[i].cancelRequested ==>
            after[i] == jobs[i].(state := Cancelled, finished := Some(now), cancelRequested := false))
  {
  }

  /** The WHERE clause of `active_job`. */
  predicate Matches(jobs: Jobs, kind: string, key: Option<AssetId>, i: JobId) {
    i in jobs && IsActive(jobs[i]) && jobs[i].kind == kind && (key.Some? ==> jobs[i].asset == key)
  }

  /** ORDER BY created_at, id. */
  predicate Earlier(jobs: Jobs, a: JobId, b: JobId) {
    a in jobs && b in jobs && (jobs[a].created < jobs[b].created || (jobs[a].created == jobs[b].created && a < b))
  }

  /** Rows that leave the active states lower the counts and keep the unique indexes. */
  lemma Fewer(jobs: Jobs, after: Jobs)
    requires UniqueActive(jobs)
    requires forall i :: i in after && IsActive(after[i]) ==>
      i in jobs && IsActive(jobs[i]) && after[i].kind == jobs[i].kind && after[i].asset == jobs[i].asset
    ensures |ActiveJobs(after)| <= |ActiveJobs(jobs)| && |ActiveMlJobs(after)| <= |ActiveMlJobs(jobs)| && UniqueActive(after)
  {
    SubsetSize(ActiveJobs(after), ActiveJobs(jobs));
    SubsetSize(ActiveMlJobs(after), ActiveMlJobs(jobs));
    forall a, b | a in after && b in after && IsActive(after[a]) && SameKey(after[b], after[a].kind, after[a].asset) ensures a == b {
      assert SameKey(jobs[b], jobs[a].kind, jobs[a].asset);
    }
  }

  lemma OneMore(jobs: Jobs, id: JobId, j: Job)
    requires id !in jobs && IsActive(j) && UniqueActive(jobs) && forall i :: i in jobs ==> !SameKey(jobs[i], j.kind, j.asset)
    ensures |ActiveJobs(jobs[id := j])| == |ActiveJobs(jobs)| + 1 && UniqueActive(jobs[id := j])
    ensures |ActiveMlJobs(jobs[id := j])| == |ActiveMlJobs(jobs)| + if IsMl(j.kind) then 1 else 0
  {
    OneMoreUnique(jobs, id, j);
    hide UniqueActive, SameKey, IsMl;
    CountOne(jobs, id, j);
  }

  lemma QueuedTraced(jobs: Jobs, id: JobId, j: Job, claims: set<JobId>, cancelled: set<JobId>)
    requires Traced(jobs, claims, cancelled) && j.state.Queued? && !j.cancelRequested && id !in claims && id !in cancelled
    ensures Traced(jobs[id := j], claims, cancelled)
  {
  }

  lemma CountOne(jobs: Jobs, id: JobId, j: Job)
    requires id !in jobs && IsActive(j)
    ensures |ActiveJobs(jobs[id := j])| == |ActiveJobs(jobs)| + 1
    ensures |ActiveMlJobs(jobs[id := j])| == |ActiveMlJobs(jobs)| + if IsMl(j.kind) then 1 else 0
  {
    hide IsMl, ActiveJobs, ActiveMlJobs;
    OneMoreActive(jobs, id, j);
    OneMoreMl(jobs, id, j);
  }

  lemma OneMoreActive(jobs: Jobs, id: JobId, j: Job)
    requires id !in jobs && IsActive(j)
    ensures id !in ActiveJobs(jobs) && ActiveJobs(jobs[id := j]) == ActiveJobs(jobs) + {id}
  {
  }

  lemma OneMoreMl(jobs: Jobs, id: JobId, j: Job)
    requires id !in jobs && IsActive(j)
    ensures id !in ActiveMlJobs(jobs)
    ensures ActiveMlJobs(jobs[id := j]) == if IsMl(j.kind) then ActiveMlJobs(jobs) + {id} else ActiveMlJobs(jobs)
  {
    hide IsMl;
  }

  lemma OneMoreUnique(jobs: Jobs, id: JobId, j: Job)
    requires id !in jobs && UniqueActive(jobs) && IsActive(j) && forall i :: i in jobs ==> !SameKey(jobs[i], j.kind, j.asset)
    ensures UniqueActive(jobs[id := j])
  {
    var more := jobs[id := j];
    forall a, b | a in more && b in more && IsActive(more[a]) && SameKey(more[b], more[a].kind, more[a].asset) ensures a == b {
      if a != id && b == id {
        assert SameKey(jobs[a], j.kind, j.asset);
      }
    }
  }

  /** The order of claims is total and transitive. */
  lemma BeforeAll(jobs: Jobs, seen: set<JobId>, i: JobId, first: Option<JobId>)
    requires i in jobs && i !in seen && seen <= jobs.Keys && (first.None? ==> seen == {})
    requires first.Some? ==>
      first.value in seen && Before(jobs, i, first.value) && forall k :: k in seen && k != first.value ==> Before(jobs, first.value, k)
    ensures forall k :: k in seen ==> Before(jobs, i, k)
  {
  }

  lemma EarlierAll(jobs: Jobs, seen: set<JobId>, i: JobId, first: Option<JobId>)
    requires i in jobs && i !in seen && seen <= jobs.Keys && (first.None? ==> seen == {})
    requires first.Some? ==>
      first.value in seen && Earlier(jobs, i, first.value) && forall k :: k in seen && k != first.value ==> Earlier(jobs, first.value, k)
    ensures forall k :: k in seen ==> Earlier(jobs, i, k)
  {
  }

  lemma RecoveredTraced(jobs: Jobs, claims: set<JobId>, cancelled: set<JobId>, now: int, back: set<JobId>)
    requires Traced(jobs, claims, cancelled) && UniqueActive(jobs)
    requires back == set i | i in jobs && jobs[i].state.Running? && !jobs[i].cancelRequested
    ensures var after := RecoveredAll(jobs, now);
      && Traced(after, claims - back, cancelled) && UniqueActive(after)
      && |ActiveJobs(after)| <= |ActiveJobs(jobs)| && |ActiveMlJobs(after)| <= |ActiveMlJobs(jobs)|
  {
    Fewer(jobs, RecoveredAll(jobs, now));
  }

  lemma LikeCountsMore(jobs: Jobs)
    ensures |ActiveMlJobs(jobs)| <= |ActiveLikeMl(jobs)|
  {
    SubsetSize(ActiveMlJobs(jobs), ActiveLikeMl(jobs));
  }

  /** A row that stays active, with its kind and key, changes no count and breaks no unique index. */
  lemma SameActive(jobs: Jobs, id: JobId, j: Job)
    requires id in jobs && IsActive(jobs[id]) && IsActive(j) && j.kind == jobs[id].kind && j.asset == jobs[id].asset && UniqueActive(jobs)
    ensures ActiveJobs(jobs[id := j]) == ActiveJobs(jobs) && ActiveMlJobs(jobs[id := j]) == ActiveMlJobs(jobs)
    ensures UniqueActive(jobs[id := j])
  {
  }
}
