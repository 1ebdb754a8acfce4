/** `cluster_full` and `cluster_assign` as the sidecar answers them, and the client's acceptance of every answer. */
module ClusterService {
  import opened Basics
  import opened Clustering
  import opened ClusterContract
  import opened FullClustering
  import opened Centroids

  function MemberIds(ids: seq<string>, members: seq<nat>): (names: seq<string>)
    requires Indices(members, |ids|)
    ensures |names| == |members| && forall i :: 0 <= i < |names| ==> names[i] == ids[members[i]]
  {
    seq(|members|, i requires 0 <= i < |members| => ids[members[i]])
  }

  function IdsAt(ids: seq<string>, items: set<nat>): set<string> {
    set i | i in items && i < |ids| :: ids[i]
  }

  predicate Retained(c: Cluster, p: Params) { |c.members| >= p.minClusterSize }

  // ----- facts about the clusters -----

  lemma {:induction false} MembersInAll(clusters: seq<Cluster>, j: nat, k: nat)
    requires j < k <= |clusters|
    ensures Set(clusters[j].members) <= All(clusters[..k])
    decreases k
  {
    assert clusters[..k][..k - 1] == clusters[..k - 1];
    if j < k - 1 {
      MembersInAll(clusters, j, k - 1);
    }
  }

  lemma MembersInside(g: Space, p: Params, c: Cluster, k: nat, rest: set<nat>)
    requires g.Valid() && g.Within(rest) && ClusterOk(g, p, c, k, rest)
    ensures Set(c.members) <= rest
  {
    hide Grown, Complete, IsMedoid, TmpId;
  }

  lemma {:induction false} AllWithin(g: Space, p: Params, clusters: seq<Cluster>, whole: set<nat>, k: nat)
    requires g.Valid() && g.Within(whole) && ClustersOk(g, p, clusters, whole) && k <= |clusters|
    ensures All(clusters[..k]) <= whole
  {
    hide ClusterOk;
    if k > 0 {
      AllWithin(g, p, clusters, whole, k - 1);
      assert clusters[..k][..k - 1] == clusters[..k - 1];
      MembersInside(g, p, clusters[k - 1], k - 1, whole - All(clusters[..k - 1]));
    }
  }

  /** Two clusters share no item. */
  lemma ClustersDisjoint(g: Space, p: Params, clusters: seq<Cluster>, whole: set<nat>, j: nat, k: nat)
    requires g.Valid() && g.Within(whole) && ClustersOk(g, p, clusters, whole) && j < k < |clusters|
    ensures Set(clusters[j].members) !! Set(clusters[k].members)
    ensures Set(clusters[k].members) !! All(clusters[..k])
  {
    MembersInAll(clusters, j, k);
    assert ClusterOk(g, p, clusters[k], k, whole - All(clusters[..k]));
  }

  lemma {:induction false} SizeAtLeast(clusters: seq<Cluster>)
    requires forall k :: 0 <= k < |clusters| ==> |clusters[k].members| >= 2
    ensures Size(clusters) >= 2 * |clusters| && Size(clusters) != 1
  {
    if clusters != [] {
      SizeAtLeast(clusters[..|clusters| - 1]);
    }
  }

  lemma {:induction false} SquaresBound(clusters: seq<Cluster>)
    ensures Squares(clusters) <= Size(clusters) * Size(clusters)
  {
    if clusters != [] {
      var n := |clusters| - 1;
      SquaresBound(clusters[..n]);
      SquareOfSum(Size(clusters[..n]), |clusters[n].members|);
    }
  }

  lemma SquareOfSum(a: nat, b: nat)
    ensures a * a + b * b <= (a + b) * (a + b)
  {
    assert (a + b) * (a + b) == a * a + b * b + 2 * (a * b);
  }

  // ----- the retained clusters -----

  /** The items of a retained cluster are assigned by their similarity to its medoid. */
  ghost predicate AssignedTo(g: Space, p: Params, byIndex: map<nat, Assignment>, c: Cluster, k: nat)
    requires g.Valid()
  {
    forall i :: i in c.members && i < |g.ids| && c.medoid < |g.ids| ==>
      i in byIndex && Placed(byIndex[i], g.ids[i], Some(TmpId(k)), Similarity(g.vectors[i], g.vectors[c.medoid]), p)
  }

  method AssignMembers(g: Space, p: Params, c: Cluster, k: nat, before: map<nat, Assignment>)
    returns (byIndex: map<nat, Assignment>, ghost cost: nat)
    requires g.Valid() && Indices(c.members, |g.ids|) && c.medoid < |g.ids|
    ensures byIndex.Keys == before.Keys + Set(c.members) && AssignedTo(g, p, byIndex, c, k) && cost == |c.members|
    ensures forall i :: i in before && i !in Set(c.members) ==> byIndex[i] == before[i]
  {
    hide MakeAssignment, Placed;
    byIndex, cost := before, 0;
    for j := 0 to |c.members|
      invariant byIndex.Keys == before.Keys + Set(c.members[..j]) && cost == j
      invariant forall i :: i in c.members[..j] ==>
        Placed(byIndex[i], g.ids[i], Some(TmpId(k)), Similarity(g.vectors[i], g.vectors[c.medoid]), p)
      invariant forall i :: i in before && i !in Set(c.members[..j]) ==> byIndex[i] == before[i]
    {
      var i := c.members[j];
      assert c.members[..j + 1] == c.members[..j] + [i];
      cost := cost + 1;
      MakesPlaced(g.ids[i], Some(TmpId(k)), Similarity(g.vectors[i], g.vectors[c.medoid]), p);
      byIndex := byIndex[i := MakeAssignment(g.ids[i], Some(TmpId(k)), Similarity(g.vectors[i], g.vectors[c.medoid]), p)];
    }
    assert c.members[..|c.members|] == c.members;
  }

  function NewClusterFor(g: Space, c: Cluster, k: nat): NewCluster
    requires Indices(c.members, |g.ids|) && c.medoid < |g.ids|
  {
    NewCluster(TmpId(k), MemberIds(g.ids, c.members), [g.ids[c.medoid]])
  }

  /** What the response says of the first `k` clusters: those retained are listed, in order. */
  ghost predicate Listed(g: Space, p: Params, clusters: seq<Cluster>, k: nat, kept: seq<nat>, news: seq<NewCluster>)
    requires g.Valid() && k <= |clusters|
    requires forall j :: 0 <= j < |clusters| ==> Indices(clusters[j].members, |g.ids|) && clusters[j].medoid < |g.ids|
  {
    && |kept| == |news| <= k
    && (forall i, j :: 0 <= i < j < |kept| ==> kept[i] < kept[j])
    && (forall j :: 0 <= j < |kept| ==> kept[j] < k && Retained(clusters[kept[j]], p) && news[j] == NewClusterFor(g, clusters[kept[j]], kept[j]))
    && (forall j :: 0 <= j < k && Retained(clusters[j], p) ==> j in kept)
  }

  lemma ListedStep(g: Space, p: Params, clusters: seq<Cluster>, k: nat, kept: seq<nat>, news: seq<NewCluster>)
    requires g.Valid() && k < |clusters|
    requires forall j :: 0 <= j < |clusters| ==> Indices(clusters[j].members, |g.ids|) && clusters[j].medoid < |g.ids|
    requires Listed(g, p, clusters, k, kept, news)
    ensures if Retained(clusters[k], p) then Listed(g, p, clusters, k + 1, kept + [k], news + [NewClusterFor(g, clusters[k], k)])
            else Listed(g, p, clusters, k + 1, kept, news)
  {
    hide NewClusterFor;
    if Retained(clusters[k], p) {
      assert forall j :: j in kept ==> j in kept + [k];
      assert k in kept + [k];
    }
  }

  /** Members of clusters are rows. */
  ghost predicate RowsOnly(g: Space, clusters: seq<Cluster>) {
    forall j :: 0 <= j < |clusters| ==>
      Indices(clusters[j].members, |g.ids|) && clusters[j].medoid < |g.ids| && |clusters[j].members| >= 2
      && clusters[j].medoid in clusters[j].members && NoRepeats(clusters[j].members)
  }

  lemma ClustersAreRows(g: Space, p: Params, clusters: seq<Cluster>, whole: set<nat>)
    requires g.Valid() && g.Within(whole) && ClustersOk(g, p, clusters, whole)
    ensures RowsOnly(g, clusters)
  {
    hide Grown, Complete, IsMedoid;
    forall j | 0 <= j < |clusters|
      ensures Indices(clusters[j].members, |g.ids|) && clusters[j].medoid < |g.ids| && |clusters[j].members| >= 2
      ensures clusters[j].medoid in clusters[j].members && NoRepeats(clusters[j].members)
    {
      var rest := whole - All(clusters[..j]);
      assert ClusterOk(g, p, clusters[j], j, rest);
      MedoidIsMember(g, clusters[j].members, clusters[j].medoid);
    }
  }

  lemma MedoidIsMember(g: Space, members: seq<nat>, m: nat)
    requires g.Valid() && Indices(members, |g.vectors|) && IsMedoid(g, members, members, m)
    ensures m in members && m < |g.ids|
  {
  }

  /** The indices assigned so far: the members of the retained clusters among the first `k`. */
  function Taken(clusters: seq<Cluster>, p: Params, k: nat): set<nat>
    requires k <= |clusters|
  {
    if k == 0 then {}
    else if Retained(clusters[k - 1], p) then Taken(clusters, p, k - 1) + Set(clusters[k - 1].members)
    else Taken(clusters, p, k - 1)
  }

  lemma {:induction false} TakenInAll(clusters: seq<Cluster>, p: Params, k: nat)
    requires k <= |clusters|
    ensures Taken(clusters, p, k) <= All(clusters[..k])
  {
    if k > 0 {
      TakenInAll(clusters, p, k - 1);
      assert clusters[..k][..k - 1] == clusters[..k - 1];
    }
  }

  /** The loop over `retained`. */
  method Retain(g: Space, p: Params, clusters: seq<Cluster>, whole: set<nat>)
    returns (byIndex: map<nat, Assignment>, news: seq<NewCluster>, ghost kept: seq<nat>, medoids: seq<nat>, ghost cost: nat)
    requires g.Valid() && g.Within(whole) && ClustersOk(g, p, clusters, whole) && RowsOnly(g, clusters)
    ensures byIndex.Keys == Taken(clusters, p, |clusters|)
    ensures Listed(g, p, clusters, |clusters|, kept, news)
    ensures forall j :: 0 <= j < |kept| ==> kept[j] < |clusters| && AssignedTo(g, p, byIndex, clusters[kept[j]], kept[j])
    ensures |medoids| == |kept| && forall j :: 0 <= j < |kept| ==> medoids[j] == clusters[kept[j]].medoid
    ensures cost <= Size(clusters)
  {
    hide ClustersOk, ClusterOk, NewClusterFor, AssignedTo;
    byIndex, news, kept, medoids, cost := map[], [], [], [], 0;
    for k := 0 to |clusters|
      invariant byIndex.Keys == Taken(clusters, p, k)
      invariant Listed(g, p, clusters, k, kept, news)
      invariant forall j :: 0 <= j < |kept| ==> kept[j] < |clusters| && AssignedTo(g, p, byIndex, clusters[kept[j]], kept[j])
      invariant |medoids| == |kept| && forall j :: 0 <= j < |kept| ==> medoids[j] == clusters[kept[j]].medoid
      invariant cost <= Size(clusters[..k])
    {
      assert clusters[..k + 1][..k] == clusters[..k];
      ListedStep(g, p, clusters, k, kept, news);
      if Retained(clusters[k], p) {
        ghost var before := byIndex;
        ghost var more: nat;
        byIndex, more := AssignMembers(g, p, clusters[k], k, byIndex);
        forall j | 0 <= j < |kept| ensures AssignedTo(g, p, byIndex, clusters[kept[j]], kept[j]) {
          ClustersDisjoint(g, p, clusters, whole, kept[j], k);
          StillAssigned(g, p, before, byIndex, clusters[kept[j]], kept[j], clusters[k]);
        }
        cost := cost + more;
        news := news + [NewClusterFor(g, clusters[k], k)];
        kept, medoids := kept + [k], medoids + [clusters[k].medoid];
      }
    }
    assert clusters[..|clusters|] == clusters;
  }

  lemma StillAssigned(g: Space, p: Params, before: map<nat, Assignment>, after: map<nat, Assignment>, c: Cluster, k: nat, d: Cluster)
    requires g.Valid() && AssignedTo(g, p, before, c, k) && Set(c.members) !! Set(d.members)
    requires before.Keys <= after.Keys && forall i :: i in before && i !in Set(d.members) ==> after[i] == before[i]
    ensures AssignedTo(g, p, after, c, k)
  {
    forall i | i in c.members ensures i !in Set(d.members) { assert i in Set(c.members); }
  }

  // ----- the items no retained cluster took -----

  /** `max(similarities to the medoids, default=0.0)`. */
  ghost predicate IsBestSimilarity(g: Space, i: nat, medoids: seq<nat>, similarity: real)
    requires g.Valid() && i < |g.ids| && Indices(medoids, |g.ids|)
  {
    && (medoids == [] ==> similarity == 0.0)
    && (forall j :: 0 <= j < |medoids| ==> Similarity(g.vectors[i], g.vectors[medoids[j]]) <= similarity)
    && (medoids != [] ==> exists j :: 0 <= j < |medoids| && similarity == Similarity(g.vectors[i], g.vectors[medoids[j]]))
  }

  method BestMedoid(g: Space, i: nat, medoids: seq<nat>) returns (similarity: real, ghost cost: nat)
    requires g.Valid() && i < |g.ids| && Indices(medoids, |g.ids|)
    ensures IsBestSimilarity(g, i, medoids, similarity) && cost == |medoids|
  {
    hide Similarity;
    similarity, cost := 0.0, 0;
    for j := 0 to |medoids|
      invariant cost == j
      invariant j == 0 ==> similarity == 0.0
      invariant forall l :: 0 <= l < j ==> Similarity(g.vectors[i], g.vectors[medoids[l]]) <= similarity
      invariant j > 0 ==> exists l :: 0 <= l < j && similarity == Similarity(g.vectors[i], g.vectors[medoids[l]])
    {
      var s := Similarity(g.vectors[i], g.vectors[medoids[j]]);
      cost := cost + 1;
      if j == 0 || s > similarity {
        similarity := s;
      }
    }
  }

  /** The answer for an item of no retained cluster: unassigned, with its similarity to the best medoid. */
  ghost predicate Leftover(g: Space, p: Params, i: nat, medoids: seq<nat>, a: Assignment) {
    && g.Valid() && i < |g.ids| && Indices(medoids, |g.ids|)
    && exists similarity :: IsBestSimilarity(g, i, medoids, similarity) && Placed(a, g.ids[i], None, similarity, p)
  }

  method AssignLeftover(g: Space, p: Params, i: nat, medoids: seq<nat>) returns (a: Assignment, ghost cost: nat)
    requires g.Valid() && i < |g.ids| && Indices(medoids, |g.ids|)
    ensures Leftover(g, p, i, medoids, a) && cost == |medoids|
  {
    var similarity: real;
    similarity, cost := BestMedoid(g, i, medoids);
    a := MakeAssignment(g.ids[i], None, similarity, p);
    MakesPlaced(g.ids[i], None, similarity, p);
  }

  lemma LeftoverIs(g: Space, p: Params, i: nat, medoids: seq<nat>, a: Assignment)
    requires Leftover(g, p, i, medoids, a)
    ensures a.id == g.ids[i] && a.cluster.None? && Sound(a, p)
  {
    var similarity: real :| IsBestSimilarity(g, i, medoids, similarity) && Placed(a, g.ids[i], None, similarity, p);
    AssignmentSound(a, g.ids[i], None, similarity, p);
  }

  method AssignOne(g: Space, p: Params, whole: set<nat>, medoids: seq<nat>, ghost before: map<nat, Assignment>,
                   byIndex: map<nat, Assignment>, ghost todo: set<nat>, i: nat)
    returns (more: map<nat, Assignment>, ghost cost: nat)
    requires g.Valid() && g.Within(whole) && Indices(medoids, |g.ids|) && i in todo && i in whole && i !in before
    requires Leftovers(g, p, whole, medoids, before, byIndex, todo)
    ensures Leftovers(g, p, whole, medoids, before, more, todo - {i}) && cost == |medoids|
  {
    hide Leftovers, Leftover;
    var a: Assignment;
    a, cost := AssignLeftover(g, p, i, medoids);
    LeftoverStep(g, p, whole, medoids, before, byIndex, todo, i, a);
    more := byIndex[i := a];
  }

  method AssignLeftovers(g: Space, p: Params, whole: set<nat>, medoids: seq<nat>, before: map<nat, Assignment>)
    returns (byIndex: map<nat, Assignment>, ghost cost: nat)
    requires g.Valid() && g.Within(whole) && Indices(medoids, |g.ids|) && before.Keys <= whole
    ensures byIndex.Keys == whole && forall i :: i in before ==> byIndex[i] == before[i]
    ensures forall i :: i in whole && i !in before ==> Leftover(g, p, i, medoids, byIndex[i])
    ensures cost == Times(|whole - before.Keys|, |medoids|)
  {
    hide Leftovers, Times, Leftover, Indices, SameDimension;
    byIndex, cost := before, 0;
    TimesZero(|medoids|);
    var todo := whole - before.Keys;
    ghost var left, total := |todo|, Times(|todo|, |medoids|);
    NoLeftoverYet(g, p, whole, medoids, before);
    while todo != {}
      invariant todo <= whole - before.Keys && left == |todo|
      invariant Leftovers(g, p, whole, medoids, before, byIndex, todo)
      invariant cost + Times(left, |medoids|) == total
      decreases left
    {
      var i :| i in todo;
      ghost var more: nat;
      byIndex, more := AssignOne(g, p, whole, medoids, before, byIndex, todo, i);
      OneLess(left, |medoids|);
      OneFewer(todo, i);
      todo, left, cost := todo - {i}, left - 1, cost + more;
    }
    LeftoversDone(g, p, whole, medoids, before, byIndex);
  }

  lemma OneFewer(items: set<nat>, i: nat)
    requires i in items
    ensures |items| >= 1 && |items - {i}| == |items| - 1
  {
  }

  /** All of `whole` but `todo` is assigned: what was there stays, the rest belongs to no cluster. */
  ghost predicate Leftovers(g: Space, p: Params, whole: set<nat>, medoids: seq<nat>, before: map<nat, Assignment>,
                            byIndex: map<nat, Assignment>, todo: set<nat>) {
    && g.Within(whole) && byIndex.Keys == whole - todo && (forall i :: i in before && i in byIndex ==> byIndex[i] == before[i])
    && (forall i :: i in byIndex && i !in before ==> Leftover(g, p, i, medoids, byIndex[i]))
  }

  lemma NoLeftoverYet(g: Space, p: Params, whole: set<nat>, medoids: seq<nat>, before: map<nat, Assignment>)
    requires g.Within(whole) && before.Keys <= whole
    ensures Leftovers(g, p, whole, medoids, before, before, whole - before.Keys)
  {
  }

  lemma LeftoverStep(g: Space, p: Params, whole: set<nat>, medoids: seq<nat>, before: map<nat, Assignment>,
                     byIndex: map<nat, Assignment>, todo: set<nat>, i: nat, a: Assignment)
    requires Leftovers(g, p, whole, medoids, before, byIndex, todo) && i in todo && i in whole && i !in before
    requires Leftover(g, p, i, medoids, a)
    ensures Leftovers(g, p, whole, medoids, before, byIndex[i := a], todo - {i})
  {
    hide Leftover;
  }

  lemma LeftoversDone(g: Space, p: Params, whole: set<nat>, medoids: seq<nat>, before: map<nat, Assignment>,
                      byIndex: map<nat, Assignment>)
    requires Leftovers(g, p, whole, medoids, before, byIndex, {}) && before.Keys <= whole
    ensures byIndex.Keys == whole && forall i :: i in before ==> byIndex[i] == before[i]
    ensures forall i :: i in whole && i !in before ==> Leftover(g, p, i, medoids, byIndex[i])
  {
    hide Leftover;
  }

  function Times(a: nat, b: nat): nat { a * b }

  lemma OneLess(a: nat, b: nat)
    requires a >= 1
    ensures Times(a, b) == Times(a - 1, b) + b
  {
  }

  lemma TimesZero(b: nat)
    ensures Times(0, b) == 0
  {
  }

  // ----- the list of assignments, by index -----

  ghost predicate InOrder(assignments: seq<Assignment>, order: seq<nat>, byIndex: map<nat, Assignment>, upTo: nat) {
    && |order| == |assignments| && (forall i, j :: 0 <= i < j < |order| ==> order[i] < order[j])
    && (forall j :: 0 <= j < |order| ==> order[j] in byIndex && order[j] < upTo && assignments[j] == byIndex[order[j]])
    && (forall i :: i in byIndex && i < upTo ==> i in order)
  }

  method ByIndex(byIndex: map<nat, Assignment>, n: nat) returns (assignments: seq<Assignment>, ghost order: seq<nat>)
    ensures InOrder(assignments, order, byIndex, n) && |assignments| <= n
  {
    assignments, order := [], [];
    for i := 0 to n
      invariant InOrder(assignments, order, byIndex, i) && |assignments| <= i
    {
      if i in byIndex {
        OrderStep(assignments, order, byIndex, i);
        assignments, order := assignments + [byIndex[i]], order + [i];
      }
    }
  }

  lemma OrderStep(assignments: seq<Assignment>, order: seq<nat>, byIndex: map<nat, Assignment>, i: nat)
    requires InOrder(assignments, order, byIndex, i) && i in byIndex
    ensures InOrder(assignments + [byIndex[i]], order + [i], byIndex, i + 1)
  {
    forall k | k in byIndex && k < i + 1 ensures k in order + [i] {}
  }

  // ----- the answer of cluster_full is acceptable -----

  lemma {:induction false} RangeSize(items: set<nat>, n: nat)
    requires forall i :: i in items ==> i < n
    ensures |items| <= n
  {
    if n == 0 {
      assert items == {};
    } else {
      RangeSize(items - {n - 1}, n - 1);
      assert items <= (items - {n - 1}) + {n - 1};
      assert |items| <= |(items - {n - 1}) + {n - 1}| by { SubsetSize(items, (items - {n - 1}) + {n - 1}); }
    }
  }

  lemma {:induction false} SubsetSize<T>(a: set<T>, b: set<T>)
    requires a <= b
    ensures |a| <= |b|
  {
    if a != {} {
      var x :| x in a;
      SubsetSize(a - {x}, b - {x});
    }
  }

  lemma {:induction false} StringSetSize(xs: seq<string>)
    ensures |StringSet(xs)| <= |xs|
  {
    if xs != [] {
      var n := |xs| - 1;
      StringSetSize(xs[..n]);
      assert StringSet(xs) == StringSet(xs[..n]) + {xs[n]};
    }
  }

  lemma {:induction false} MemberSize(clusters: seq<Cluster>, k: nat)
    requires k < |clusters|
    ensures |clusters[k].members| <= Size(clusters)
  {
    if k < |clusters| - 1 {
      MemberSize(clusters[..|clusters| - 1], k);
    }
  }

  lemma {:induction false} AllMonotone(clusters: seq<Cluster>, j: nat, k: nat)
    requires j <= k <= |clusters|
    ensures All(clusters[..j]) <= All(clusters[..k])
    decreases k
  {
    if j < k {
      AllMonotone(clusters, j, k - 1);
      assert clusters[..k][..k - 1] == clusters[..k - 1];
    }
  }

  lemma TmpIdValid(k: nat)
    requires k < 1000
    ensures ValidText(TmpId(k), MAX_IDENTIFIER)
  {
    DecimalLength(k);
    var t := TmpId(k);
    assert t[0] == 'c' && forall i :: 1 <= i < |t| ==> t[i] == Decimal(k)[i - 1];
    AsciiLength(t);
  }

  lemma MemberIdsDistinct(ids: seq<string>, members: seq<nat>)
    requires Distinct(ids) && Indices(members, |ids|) && NoRepeats(members)
    ensures Distinct(MemberIds(ids, members))
  {
    var names := MemberIds(ids, members);
    forall i, j | 0 <= i < j < |names| ensures names[i] != names[j] {
      SameIndex(ids, members[i], members[j]);
    }
  }

  lemma SameIndex(ids: seq<string>, i: nat, j: nat)
    requires Distinct(ids) && i < |ids| && j < |ids|
    ensures ids[i] == ids[j] <==> i == j
  {
    if i < j { assert ids[i] != ids[j]; }
    if j < i { assert ids[j] != ids[i]; }
  }

  function UpTo(clusters: seq<Cluster>, kept: seq<nat>, j: nat): set<nat>
    requires j <= |kept| && forall l :: 0 <= l < |kept| ==> kept[l] < |clusters|
  {
    if j == 0 then {} else All(clusters[..kept[j - 1] + 1])
  }

  /** The j-th listed cluster. */
  lemma ListedAt(g: Space, p: Params, clusters: seq<Cluster>, kept: seq<nat>, news: seq<NewCluster>, j: nat)
    requires g.Valid() && RowsOnly(g, clusters) && Listed(g, p, clusters, |clusters|, kept, news) && j < |news|
    ensures |kept| == |news| && kept[j] < |clusters|
    ensures var c := clusters[kept[j]];
      && Indices(c.members, |g.ids|) && NoRepeats(c.members) && c.medoid < |g.ids| && c.medoid in c.members && |c.members| >= 2
      && news[j] == NewClusterFor(g, c, kept[j])
      && news[j].memberIds == MemberIds(g.ids, c.members) && |news[j].medoidIds| == 1
  {
  }

  lemma KeptInOrder(g: Space, p: Params, clusters: seq<Cluster>, kept: seq<nat>, news: seq<NewCluster>)
    requires g.Valid() && RowsOnly(g, clusters) && Listed(g, p, clusters, |clusters|, kept, news)
    ensures |kept| == |news| <= |clusters|
    ensures (forall l :: 0 <= l < |kept| ==> kept[l] < |clusters|) && (forall i, l :: 0 <= i < l < |kept| ==> kept[i] < kept[l])
  {
  }

  lemma {:induction false} MembersDistinct(g: Space, p: Params, clusters: seq<Cluster>, whole: set<nat>, kept: seq<nat>,
                                           news: seq<NewCluster>, j: nat)
    requires g.Valid() && g.Within(whole) && Distinct(g.ids) && ClustersOk(g, p, clusters, whole) && RowsOnly(g, clusters)
    requires Listed(g, p, clusters, |clusters|, kept, news) && j <= |news|
    ensures |kept| == |news| && forall l :: 0 <= l < |kept| ==> kept[l] < |clusters|
    ensures Distinct(AllMembers(news[..j]))
    ensures StringSet(AllMembers(news[..j])) <= IdsAt(g.ids, UpTo(clusters, kept, j))
    ensures MedoidCount(news[..j]) == j
  {
    hide ClustersOk, Distinct, Listed, RowsOnly, NoRepeats, NewClusterFor, AllMembers, MedoidCount, StringSet, IdsAt, All;
    KeptInOrder(g, p, clusters, kept, news);
    if j == 0 {
      assert news[..0] == [];
      DistinctNone();
      NoNames(g.ids);
    } else {
      MembersDistinct(g, p, clusters, whole, kept, news, j - 1);
      ListedAt(g, p, clusters, kept, news, j - 1);
      ClustersSnoc(news, j - 1);
      var k := kept[j - 1];
      var names := MemberIds(g.ids, clusters[k].members);
      MemberIdsDistinct(g.ids, clusters[k].members);
      KeptBefore(clusters, kept, j - 1);
      NewNames(g, p, clusters, whole, kept, k, j - 1, AllMembers(news[..j - 1]));
      DistinctConcat(AllMembers(news[..j - 1]), names);
    }
  }

  lemma NoNames(ids: seq<string>)
    ensures StringSet([]) <= IdsAt(ids, {})
  {
  }

  lemma KeptBefore(clusters: seq<Cluster>, kept: seq<nat>, j: nat)
    requires (forall l :: 0 <= l < |kept| ==> kept[l] < |clusters|) && (forall i, l :: 0 <= i < l < |kept| ==> kept[i] < kept[l])
    requires j < |kept|
    ensures UpTo(clusters, kept, j) <= All(clusters[..kept[j]])
  {
    if j > 0 { AllMonotone(clusters, kept[j - 1] + 1, kept[j]); }
  }

  /** The members of cluster `k` are new names, and extend the names up to it. */
  lemma NewNames(g: Space, p: Params, clusters: seq<Cluster>, whole: set<nat>, kept: seq<nat>, k: nat, j: nat, before: seq<string>)
    requires g.Valid() && g.Within(whole) && Distinct(g.ids) && ClustersOk(g, p, clusters, whole)
    requires k < |clusters| && Indices(clusters[k].members, |g.ids|)
    requires forall l :: 0 <= l < |kept| ==> kept[l] < |clusters|
    requires j <= |kept| && UpTo(clusters, kept, j) <= All(clusters[..k])
    requires StringSet(before) <= IdsAt(g.ids, UpTo(clusters, kept, j))
    ensures var names := MemberIds(g.ids, clusters[k].members);
      && (forall i :: 0 <= i < |names| ==> names[i] !in before)
      && StringSet(before) + StringSet(names) <= IdsAt(g.ids, All(clusters[..k + 1]))
  {
    hide ClustersOk, Distinct;
    var c := clusters[k];
    var names := MemberIds(g.ids, c.members);
    assert clusters[..k + 1][..k] == clusters[..k];
    assert forall x :: x in before ==> x in StringSet(before);
    forall i | 0 <= i < |names| ensures names[i] !in before {
      NotBefore(g, p, clusters, whole, kept, k, j, c.members[i]);
    }
    forall x | x in StringSet(names) ensures x in IdsAt(g.ids, All(clusters[..k + 1])) {
      var i :| 0 <= i < |names| && names[i] == x;
      assert c.members[i] in Set(c.members);
    }
  }

  lemma NotBefore(g: Space, p: Params, clusters: seq<Cluster>, whole: set<nat>, kept: seq<nat>, k: nat, j: nat, m: nat)
    requires g.Valid() && g.Within(whole) && Distinct(g.ids) && ClustersOk(g, p, clusters, whole)
    requires k < |clusters| && m in clusters[k].members && m < |g.ids|
    requires forall l :: 0 <= l < |kept| ==> kept[l] < |clusters|
    requires j <= |kept| && UpTo(clusters, kept, j) <= All(clusters[..k])
    ensures g.ids[m] !in IdsAt(g.ids, UpTo(clusters, kept, j))
  {
    assert ClusterOk(g, p, clusters[k], k, whole - All(clusters[..k]));
    assert m in Set(clusters[k].members);
    assert m !in All(clusters[..k]);
    forall i | i in UpTo(clusters, kept, j) && i < |g.ids| ensures g.ids[i] != g.ids[m] {
      SameIndex(g.ids, i, m);
    }
  }

  /** A cluster of rows is listed in a form the client accepts. */
  lemma ListedOk(q: Request, g: Space, c: Cluster, k: nat)
    requires WellFormed(q) && g.ids == q.ids && k < 1000 && |c.members| <= |q.ids|
    requires Indices(c.members, |g.ids|) && c.medoid < |g.ids| && c.medoid in c.members
    ensures ClusterContract.NewClusterOk(NewClusterFor(g, c, k), q)
  {
    hide ValidText, Distinct;
    TmpIdValid(k);
    var m :| 0 <= m < |c.members| && c.members[m] == c.medoid;
    var listed := NewClusterFor(g, c, k);
    assert listed.memberIds[m] == listed.medoidIds[0];
  }

  lemma TmpIdsDistinct(g: Space, p: Params, clusters: seq<Cluster>, kept: seq<nat>, news: seq<NewCluster>)
    requires g.Valid() && RowsOnly(g, clusters) && Listed(g, p, clusters, |clusters|, kept, news)
    ensures Distinct(TmpIds(news))
  {
    hide Listed, RowsOnly, TmpId;
    KeptInOrder(g, p, clusters, kept, news);
    forall i, j | 0 <= i < j < |news| ensures TmpIds(news)[i] != TmpIds(news)[j] {
      ListedAt(g, p, clusters, kept, news, i);
      ListedAt(g, p, clusters, kept, news, j);
      TmpIdInjective(kept[i], kept[j]);
    }
  }

  lemma NewsAcceptable(q: Request, g: Space, p: Params, clusters: seq<Cluster>, whole: set<nat>, kept: seq<nat>, news: seq<NewCluster>)
    requires WellFormed(q) && g.Valid() && g.Within(whole) && g.ids == q.ids
    requires ClustersOk(g, p, clusters, whole) && RowsOnly(g, clusters) && Size(clusters) <= |q.ids|
    requires Listed(g, p, clusters, |clusters|, kept, news)
    ensures forall k :: 0 <= k < |news| ==> ClusterContract.NewClusterOk(news[k], q)
    ensures Distinct(TmpIds(news)) && Distinct(AllMembers(news))
    ensures |StringSet(AllMembers(news))| <= |q.ids| && MedoidCount(news) == |news| <= |q.ids|
  {
    FewRows(q);
    LargeClusters(g, clusters);
    hide WellFormed, ClustersOk, RowsOnly, Listed, NewClusterFor, ClusterContract.NewClusterOk, ValidText, Distinct, AllMembers, Size;
    SizeAtLeast(clusters);
    KeptInOrder(g, p, clusters, kept, news);
    forall k | 0 <= k < |news| ensures ClusterContract.NewClusterOk(news[k], q) {
      ListedAt(g, p, clusters, kept, news, k);
      MemberSize(clusters, kept[k]);
      ListedOk(q, g, clusters[kept[k]], kept[k]);
    }
    TmpIdsDistinct(g, p, clusters, kept, news);
    MembersDistinct(g, p, clusters, whole, kept, news, |news|);
    assert news[..|news|] == news;
    NamesAreIds(g.ids, UpTo(clusters, kept, |news|));
    SubsetSize(StringSet(AllMembers(news)), StringSet(q.ids));
    StringSetSize(q.ids);
  }

  lemma FewRows(q: Request)
    requires WellFormed(q)
    ensures |q.ids| <= ClusterContract.MAX_CLUSTER_ROWS && Distinct(q.ids)
  {
  }

  lemma LargeClusters(g: Space, clusters: seq<Cluster>)
    requires RowsOnly(g, clusters)
    ensures forall k :: 0 <= k < |clusters| ==> |clusters[k].members| >= 2
  {
  }

  lemma NamesAreIds(ids: seq<string>, items: set<nat>)
    ensures IdsAt(ids, items) <= StringSet(ids)
  {
  }

  lemma {:induction false} TakenBy(clusters: seq<Cluster>, p: Params, k: nat, i: nat) returns (j: nat)
    requires k <= |clusters| && i in Taken(clusters, p, k)
    ensures j < k && Retained(clusters[j], p) && i in clusters[j].members
  {
    if Retained(clusters[k - 1], p) && i in Set(clusters[k - 1].members) {
      j := k - 1;
    } else {
      j := TakenBy(clusters, p, k - 1, i);
    }
  }

  /** What the response says of one row. */
  ghost predicate RowOk(a: Assignment, id: string, p: Params, news: seq<NewCluster>) {
    && a.id == id && Sound(a, p)
    && (a.cluster.Some? ==> exists k :: 0 <= k < |news| && news[k].tmpId == a.cluster.value && id in news[k].memberIds)
  }

  lemma TakenRowOk(g: Space, p: Params, clusters: seq<Cluster>, kept: seq<nat>, news: seq<NewCluster>,
                   byIndex: map<nat, Assignment>, i: nat)
    requires g.Valid() && RowsOnly(g, clusters) && Listed(g, p, clusters, |clusters|, kept, news)
    requires forall j :: 0 <= j < |kept| ==> kept[j] < |clusters| && AssignedTo(g, p, byIndex, clusters[kept[j]], kept[j])
    requires i in byIndex && i < |g.ids| && i in Taken(clusters, p, |clusters|)
    ensures RowOk(byIndex[i], g.ids[i], p, news)
  {
    var k := TakenBy(clusters, p, |clusters|, i);
    var j :| 0 <= j < |kept| && kept[j] == k;
    ListsMember(g, clusters[k], k, i, news[j]);
    hide Sound, Placed;
    AssignmentSound(byIndex[i], g.ids[i], Some(TmpId(k)), Similarity(g.vectors[i], g.vectors[clusters[k].medoid]), p);
    AssignmentNames(byIndex[i], g.ids[i], TmpId(k), Similarity(g.vectors[i], g.vectors[clusters[k].medoid]), p);
  }

  lemma ListsMember(g: Space, c: Cluster, k: nat, i: nat, news: NewCluster)
    requires Indices(c.members, |g.ids|) && c.medoid < |g.ids| && i in c.members && news == NewClusterFor(g, c, k)
    ensures news.tmpId == TmpId(k) && i < |g.ids| && g.ids[i] in news.memberIds
  {
    var m :| 0 <= m < |c.members| && c.members[m] == i;
    assert news.memberIds[m] == g.ids[i];
  }

  lemma AssignmentNames(a: Assignment, id: string, cluster: string, similarity: real, p: Params)
    requires Placed(a, id, Some(cluster), similarity, p)
    ensures a.id == id && (a.cluster.Some? ==> a.cluster.value == cluster)
  {
  }

  ghost predicate IsRowOf(ids: seq<string>, whole: set<nat>, p: Params, a: Assignment, news: seq<NewCluster>) {
    exists i :: i in whole && i < |ids| && RowOk(a, ids[i], p, news)
  }

  /** Every row of `whole` once, in index order. */
  ghost predicate RowsAssigned(ids: seq<string>, whole: set<nat>, p: Params, assignments: seq<Assignment>, news: seq<NewCluster>) {
    && (forall j :: 0 <= j < |assignments| ==> IsRowOf(ids, whole, p, assignments[j], news))
    && (forall i :: i in whole && i < |ids| ==> ids[i] in AssignedIds(assignments))
    && Distinct(AssignedIds(assignments))
  }

  lemma OrderedRows(g: Space, p: Params, whole: set<nat>, byIndex: map<nat, Assignment>, assignments: seq<Assignment>,
                    order: seq<nat>, news: seq<NewCluster>)
    requires g.Valid() && g.Within(whole) && Distinct(g.ids) && byIndex.Keys == whole
    requires InOrder(assignments, order, byIndex, |g.ids|)
    requires forall i :: i in whole ==> RowOk(byIndex[i], g.ids[i], p, news)
    ensures RowsAssigned(g.ids, whole, p, assignments, news)
  {
    hide RowOk;
    RowIds(g, p, whole, byIndex, news);
    var names := AssignedIds(assignments);
    forall i, j | 0 <= i < j < |names| ensures names[i] != names[j] {
      SameIndex(g.ids, order[i], order[j]);
    }
    forall i | i in whole ensures g.ids[i] in names {
      var j :| 0 <= j < |order| && order[j] == i;
      assert names[j] == g.ids[i];
    }
    forall j | 0 <= j < |assignments| ensures IsRowOf(g.ids, whole, p, assignments[j], news) {
      assert RowOk(assignments[j], g.ids[order[j]], p, news);
    }
  }

  lemma RowIds(g: Space, p: Params, whole: set<nat>, byIndex: map<nat, Assignment>, news: seq<NewCluster>)
    requires g.Within(whole) && byIndex.Keys == whole && forall i :: i in whole ==> RowOk(byIndex[i], g.ids[i], p, news)
    ensures forall i :: i in whole ==> byIndex[i].id == g.ids[i]
  {
  }

  // ----- cluster_full -----

  method NormalizeAll(vectors: seq<Vector>, dim: nat, unit: Normaliser) returns (rows: Option<seq<Vector>>)
    requires SameDimension(vectors, dim)
    ensures rows.None? <==> exists i :: 0 <= i < |vectors| && unit(vectors[i]).None?
    ensures rows.Some? ==> |rows.value| == |vectors| && SameDimension(rows.value, dim)
    ensures rows.Some? ==> forall i :: 0 <= i < |vectors| ==> unit(vectors[i]) == Some(rows.value[i])
  {
    var out: seq<Vector> := [];
    for i := 0 to |vectors|
      invariant |out| == i && SameDimension(out, dim)
      invariant forall j :: 0 <= j < i ==> unit(vectors[j]) == Some(out[j])
    {
      var row := unit(vectors[i]);
      if row.None? {
        return None;
      }
      out := out + [row.value];
    }
    rows := Some(out);
  }

  function Unconfirmed(ids: seq<string>, confirmed: set<string>): (whole: set<nat>)
    ensures forall i :: i in whole <==> 0 <= i < |ids| && ids[i] !in confirmed
  {
    set i: nat | i < |ids| && ids[i] !in confirmed
  }

  /** Half the pairs, the growth passes, the medoids and the final assignment together. */
  lemma CostBound(n: nat, w: nat, a: nat, size: nat, squares: nat, medoids: nat, left: nat, c1: nat, c2: nat)
    requires 2 * c1 <= n * n + Twice(w) - Twice(a) + 2 * squares && squares <= size * size
    requires size + a <= w <= n && c2 <= size && 2 * medoids <= size && size != 1
    requires left <= w && (medoids >= 1 ==> left <= w - 1)
    ensures c1 + c2 + Times(left, medoids) <= 3 * (n * n)
  {
    Monotone(size, n);
    Monotone(w, n);
    Square(n);
    if medoids == 0 {
      assert Times(left, medoids) == 0;
    } else {
      LeftBound(n, left, medoids);
    }
    if n <= 1 {
      assert size == 0;
    }
    hide Twice, Times;
    Adding(n, n * n, Twice(w), Twice(a), squares, Times(left, medoids), c1, c2);
  }

  lemma Adding(n: nat, square: nat, w: nat, a: nat, squares: nat, last: nat, c1: nat, c2: nat)
    requires 2 * c1 <= square + w - a + 2 * squares && w <= square + n && squares <= square && c2 <= n
    requires 2 * last + n <= square || last == 0
    requires (n >= 2 && square >= 2 * n) || (n == square && squares == 0 && c2 == 0 && last == 0)
    ensures c1 + c2 + last <= 3 * square
  {
  }

  lemma Square(n: nat)
    ensures n >= 2 ==> n * n >= 2 * n
    ensures n <= 1 ==> n * n == n
  {
  }

  lemma Monotone(a: nat, b: nat)
    requires a <= b
    ensures a * a <= b * b && Twice(a) <= b * b + b
  {
    assert b * b == a * a + (b - a) * (b + a);
  }

  lemma LeftBound(n: nat, left: nat, medoids: nat)
    requires left + 1 <= n && 2 * medoids <= n
    ensures 2 * Times(left, medoids) + n <= n * n
  {
    assert left * (2 * medoids) <= (n - 1) * (2 * medoids) <= (n - 1) * n;
  }

  /** How an answer came about: the clusters, the indices of the retained ones with their medoids, and the assignments. */
  datatype Work = Work(clusters: seq<Cluster>, kept: seq<nat>, medoids: seq<nat>, byIndex: map<nat, Assignment>, order: seq<nat>)

  /** The answer the source computes: greedy clusters, of which the large ones are listed and assigned by
      similarity to their medoid, and everybody else unassigned. */
  ghost predicate Answer(g: Space, p: Params, whole: set<nat>, w: Work, r: Response)
    requires g.Valid() && g.Within(whole)
  {
    && ClustersOk(g, p, w.clusters, whole) && RowsOnly(g, w.clusters)
    && Listed(g, p, w.clusters, |w.clusters|, w.kept, r.newClusters)
    && |w.medoids| == |w.kept|
    && (forall j :: 0 <= j < |w.kept| ==>
          && w.kept[j] < |w.clusters| && w.medoids[j] == w.clusters[w.kept[j]].medoid
          && AssignedTo(g, p, w.byIndex, w.clusters[w.kept[j]], w.kept[j]))
    && w.byIndex.Keys == whole && InOrder(r.assignments, w.order, w.byIndex, |g.ids|)
    && (forall i :: i in whole && i !in Taken(w.clusters, p, |w.clusters|) ==> Leftover(g, p, i, w.medoids, w.byIndex[i]))
  }

  /** Row `i` of the request: a member of a listed cluster joins it by its similarity to the medoid, everybody else is of none. */
  ghost predicate RowPlaced(g: Space, p: Params, w: Work, news: seq<NewCluster>, i: nat, a: Assignment) {
    && g.Valid() && i < |g.ids| && a.id == g.ids[i] && |w.kept| == |w.medoids| == |news|
    && (forall l :: 0 <= l < |w.kept| ==> w.kept[l] < |w.clusters| && w.medoids[l] < |g.ids|)
    && (forall l :: 0 <= l < |w.kept| && i in w.clusters[w.kept[l]].members ==>
          var s := Similarity(g.vectors[i], g.vectors[w.medoids[l]]);
          && a.similarity == Rounded(s)
          && (a.cluster == Some(news[l].tmpId) <==> s >= p.tauLow) && (a.cluster.None? <==> s < p.tauLow)
          && (a.state.Auto? <==> s >= p.tauHigh))
    && ((forall l :: 0 <= l < |w.kept| ==> i !in w.clusters[w.kept[l]].members) ==>
          && a.cluster.None? && a.state.Unassigned?
          && exists s :: IsBestSimilarity(g, i, w.medoids, s) && a.similarity == Rounded(s))
  }

  ghost predicate PlacedByMedoid(g: Space, p: Params, w: Work, r: Response) {
    && |w.order| == |r.assignments|
    && forall j :: 0 <= j < |w.order| ==> RowPlaced(g, p, w, r.newClusters, w.order[j], r.assignments[j])
  }

  /** The clusters of at least the minimum size, in order, each with its members, its medoid and its number. */
  ghost predicate ListsLarge(g: Space, p: Params, w: Work, r: Response) {
    && |w.kept| == |r.newClusters| && (forall i, j :: 0 <= i < j < |w.kept| ==> w.kept[i] < w.kept[j])
    && (forall k :: k in w.kept ==> k < |w.clusters|)
    && (forall k :: 0 <= k < |w.clusters| ==> (k in w.kept <==> |w.clusters[k].members| >= p.minClusterSize))
    && (forall l :: 0 <= l < |w.kept| ==>
          && w.kept[l] < |w.clusters|
          && var c, n := w.clusters[w.kept[l]], r.newClusters[l];
          && n.tmpId == TmpId(w.kept[l]) && |n.memberIds| == |c.members| && |n.medoidIds| == 1
          && (c.medoid < |g.ids| && n.medoidIds[0] == g.ids[c.medoid])
          && (forall m :: 0 <= m < |c.members| ==> c.members[m] < |g.ids| && n.memberIds[m] == g.ids[c.members[m]]))
  }

  lemma AnswerListsLarge(g: Space, p: Params, whole: set<nat>, w: Work, r: Response)
    requires g.Valid() && g.Within(whole) && Answer(g, p, whole, w, r)
    ensures ListsLarge(g, p, w, r)
  {
    hide ClustersOk, AssignedTo, Leftover, InOrder, TmpId;
    ListedLarge(g, p, w.clusters, w.kept, r.newClusters);
    hide Listed;
  }

  lemma ListedLarge(g: Space, p: Params, clusters: seq<Cluster>, kept: seq<nat>, news: seq<NewCluster>)
    requires g.Valid() && RowsOnly(g, clusters) && Listed(g, p, clusters, |clusters|, kept, news)
    ensures |kept| == |news| && (forall i, j :: 0 <= i < j < |kept| ==> kept[i] < kept[j])
    ensures forall k :: k in kept ==> k < |clusters| && |clusters[k].members| >= p.minClusterSize
    ensures forall k :: 0 <= k < |clusters| && |clusters[k].members| >= p.minClusterSize ==> k in kept
    ensures forall l :: 0 <= l < |kept| ==> news[l] == NewClusterFor(g, clusters[kept[l]], kept[l])
  {
  }

  lemma AnswerPlaces(g: Space, p: Params, whole: set<nat>, w: Work, r: Response)
    requires g.Valid() && g.Within(whole) && ValidParams(p) && Answer(g, p, whole, w, r)
    ensures PlacedByMedoid(g, p, w, r)
  {
    hide ClustersOk, RowOk, Leftover, AssignedTo, RowPlaced, Listed, RowsOnly;
    AnswerRows(g, p, whole, w, r);
    forall j | 0 <= j < |w.order| ensures RowPlaced(g, p, w, r.newClusters, w.order[j], r.assignments[j]) {
      RowIsPlaced(g, p, whole, w, r, w.order[j]);
    }
  }

  lemma RowIsPlaced(g: Space, p: Params, whole: set<nat>, w: Work, r: Response, i: nat)
    requires g.Valid() && g.Within(whole) && ValidParams(p) && Answer(g, p, whole, w, r) && i in whole
    requires i in w.byIndex && i < |g.ids| && RowOk(w.byIndex[i], g.ids[i], p, r.newClusters)
    ensures RowPlaced(g, p, w, r.newClusters, i, w.byIndex[i])
  {
    hide ClustersOk, Sound, Leftover, AssignedTo, Similarity, Rounded, TmpId, InOrder, NewClusterFor, IsBestSimilarity;
    ListedLarge(g, p, w.clusters, w.kept, r.newClusters);
    KeptNumbers(g, p, w.clusters, w.kept, r.newClusters);
    hide Listed;
    forall l | 0 <= l < |w.kept| && i in w.clusters[w.kept[l]].members
      ensures var a, s := w.byIndex[i], Similarity(g.vectors[i], g.vectors[w.medoids[l]]);
        && a.similarity == Rounded(s)
        && (a.cluster == Some(r.newClusters[l].tmpId) <==> s >= p.tauLow) && (a.cluster.None? <==> s < p.tauLow)
        && (a.state.Auto? <==> s >= p.tauHigh)
    {
      MemberPlaced(g, p, w.byIndex, w.clusters[w.kept[l]], w.kept[l], i);
    }
    if forall l :: 0 <= l < |w.kept| ==> i !in w.clusters[w.kept[l]].members {
      NotTaken(w.clusters, p, |w.clusters|, w.kept, i);
      LeftoverPlaced(g, p, i, w.medoids, w.byIndex[i]);
    }
  }

  lemma KeptNumbers(g: Space, p: Params, clusters: seq<Cluster>, kept: seq<nat>, news: seq<NewCluster>)
    requires g.Valid() && RowsOnly(g, clusters) && Listed(g, p, clusters, |clusters|, kept, news)
    ensures |kept| == |news|
    ensures forall l :: 0 <= l < |kept| ==> kept[l] < |clusters| && clusters[kept[l]].medoid < |g.ids| && news[l].tmpId == TmpId(kept[l])
  {
  }

  lemma MemberPlaced(g: Space, p: Params, byIndex: map<nat, Assignment>, c: Cluster, k: nat, i: nat)
    requires g.Valid() && ValidParams(p) && AssignedTo(g, p, byIndex, c, k) && i in c.members && i < |g.ids| && c.medoid < |g.ids|
    ensures i in byIndex
    ensures var a, s := byIndex[i], Similarity(g.vectors[i], g.vectors[c.medoid]);
      && a.similarity == Rounded(s) && (a.cluster == Some(TmpId(k)) <==> s >= p.tauLow) && (a.cluster.None? <==> s < p.tauLow)
      && (a.state.Auto? <==> s >= p.tauHigh)
  {
    hide Similarity, Rounded, TmpId;
    PlacedIff(byIndex[i], g.ids[i], TmpId(k), Similarity(g.vectors[i], g.vectors[c.medoid]), p);
  }

  lemma NotTaken(clusters: seq<Cluster>, p: Params, k: nat, kept: seq<nat>, i: nat)
    requires k <= |clusters| && forall l :: 0 <= l < |kept| ==> kept[l] < |clusters| && i !in clusters[kept[l]].members
    requires forall j :: 0 <= j < |clusters| && |clusters[j].members| >= p.minClusterSize ==> j in kept
    ensures i !in Taken(clusters, p, k)
  {
    if i in Taken(clusters, p, k) {
      var j := TakenBy(clusters, p, k, i);
    }
  }

  lemma LeftoverPlaced(g: Space, p: Params, i: nat, medoids: seq<nat>, a: Assignment)
    requires Leftover(g, p, i, medoids, a)
    ensures a.cluster.None? && a.state.Unassigned?
    ensures exists s :: IsBestSimilarity(g, i, medoids, s) && a.similarity == Rounded(s)
  {
    hide Rounded, IsBestSimilarity;
  }

  /** In exact arithmetic a medoid is always automatically in its own cluster. */
  lemma MedoidIsAuto(g: Space, p: Params, w: Work, r: Response, j: nat, l: nat)
    requires g.Valid() && UnitRows(g) && ValidParams(p) && PlacedByMedoid(g, p, w, r) && ListsLarge(g, p, w, r)
    requires j < |w.order| && l < |w.kept| == |w.medoids| && w.order[j] == w.medoids[l] && w.medoids[l] in w.clusters[w.kept[l]].members
    ensures r.assignments[j].state.Auto? && r.assignments[j].cluster == Some(r.newClusters[l].tmpId)
  {
    assert RowPlaced(g, p, w, r.newClusters, w.order[j], r.assignments[j]);
    assert Dot(g.vectors[w.medoids[l]], g.vectors[w.medoids[l]]) == 1.0;
    hide ListsLarge, Dot;
  }

  lemma StaysAssigned(g: Space, p: Params, before: map<nat, Assignment>, after: map<nat, Assignment>, c: Cluster, k: nat)
    requires g.Valid() && AssignedTo(g, p, before, c, k)
    requires before.Keys <= after.Keys && forall i :: i in before ==> after[i] == before[i]
    ensures AssignedTo(g, p, after, c, k)
  {
    hide Placed, Similarity, TmpId;
  }

  /** The rows of a request, normalised. */
  ghost predicate SpaceOf(g: Space, q: Request, unit: Normaliser) {
    && g.ids == q.ids && g.dim == q.dim && g.unit == unit && g.Valid()
    && |q.embeddings| == |g.vectors| && (forall i :: 0 <= i < |g.vectors| ==> unit(q.embeddings[i]) == Some(g.vectors[i]))
    && g.rejected == set i | 0 <= i < |q.rejections| :: q.rejections[i]
  }

  /** `cluster_full`.  With exact arithmetic only an embedding that cannot be normalised makes it raise. */
  method ClusterFull(q: Request, p: Params, unit: Normaliser)
    returns (r: Result<Response, Error>, ghost g: Space, ghost w: Work, ghost cost: nat)
    requires WellFormed(q) && q.mode.Full? && ValidParams(p)
    ensures cost <= 3 * (|q.ids| * |q.ids|)
    ensures (exists i :: 0 <= i < |q.embeddings| && unit(q.embeddings[i]).None?) ==> r.Err?
    ensures Exact(unit) && r.Err? ==> exists i :: 0 <= i < |q.embeddings| && unit(q.embeddings[i]).None?
    ensures r.Ok? ==>
      var whole := Unconfirmed(q.ids, StringSet(q.confirmed));
      && Acceptable(r.value, q) && SpaceOf(g, q, unit) && Answer(g, p, whole, w, r.value)
      && PlacedByMedoid(g, p, w, r.value) && ListsLarge(g, p, w, r.value) && RejectionsKept(q.rejections, q.ids, w.clusters)
      && (forall i :: 0 <= i < |q.ids| ==> (q.ids[i] in AssignedIds(r.value.assignments) <==> q.ids[i] !in q.confirmed))
      && (NoTemporary(g) ==> NothingLeft(g, p, whole - All(w.clusters)))
      && RowsAssigned(q.ids, whole, p, r.value.assignments, r.value.newClusters)
      && (forall j :: 0 <= j < |r.value.assignments| ==> AboveThresholds(r.value.assignments[j], p))
      && forall k :: 0 <= k < |r.value.newClusters| ==>
           |r.value.newClusters[k].memberIds| >= 2 && |r.value.newClusters[k].memberIds| >= p.minClusterSize
           && |r.value.newClusters[k].medoidIds| == 1
  {
    hide ClustersOk, RowsAssigned, Acceptable, ValidText, Twice, NothingLeft, NoTemporary, Squares, Size, Times, Answer, CenterFails, Exact, AboveThresholds, PlacedByMedoid, ListsLarge, RejectionsKept;
    cost, w, g := 0, Work([], [], [], map[], []), Space([], [], 0, unit, {});
    var normalized := NormalizeAll(q.embeddings, q.dim, unit);
    if normalized.None? {
      return Err(ValueError), g, w, cost;
    }
    var rejected := set i | 0 <= i < |q.rejections| :: q.rejections[i];
    var space := Space(q.ids, normalized.value, q.dim, unit, rejected);
    g := space;
    var whole := Unconfirmed(q.ids, StringSet(q.confirmed));
    RangeSize(whole, |q.ids|);
    var ok, clusters, available;
    ok, clusters, available, cost := Clusters(space, p, whole);
    if !ok {
      SizeAtLeast(clusters);
      SquaresBound(clusters);
      CostBound(|q.ids|, |whole|, |available|, Size(clusters), Squares(clusters), 0, 0, cost, 0);
      if Exact(unit) {
        ExactSucceeds(q, g, p, unit);
      }
      return Err(ValueError), g, w, cost;
    }
    var response: Response;
    ghost var more: nat;
    response, w, more := Respond(q, space, p, clusters, whole, available, cost);
    cost := cost + more;
    AnswerPlaces(space, p, whole, w, response);
    AnswerListsLarge(space, p, whole, w, response);
    KeepsRejections(q, space, p, unit, clusters, whole);
    AnswersUnconfirmed(q, whole, p, response);
    RowsAbove(q.ids, whole, p, response);
    r := Ok(response);
  }

  /** Every unconfirmed id is answered, and no other. */
  lemma AnswersUnconfirmed(q: Request, whole: set<nat>, p: Params, r: Response)
    requires Distinct(q.ids) && whole == Unconfirmed(q.ids, StringSet(q.confirmed))
    requires RowsAssigned(q.ids, whole, p, r.assignments, r.newClusters)
    ensures forall i :: 0 <= i < |q.ids| ==> (q.ids[i] in AssignedIds(r.assignments) <==> q.ids[i] !in q.confirmed)
  {
    hide Sound, Distinct;
    var names := AssignedIds(r.assignments);
    forall i | 0 <= i < |q.ids| ensures q.ids[i] in names <==> q.ids[i] !in q.confirmed {
      if q.ids[i] in names {
        var j :| 0 <= j < |names| && names[j] == q.ids[i];
        assert IsRowOf(q.ids, whole, p, r.assignments[j], r.newClusters);
        var l :| l in whole && l < |q.ids| && RowOk(r.assignments[j], q.ids[l], p, r.newClusters);
        SameIndex(q.ids, i, l);
      }
    }
  }

  /** Nobody is in a cluster it was rejected from. */
  ghost predicate RejectionsKept(rejections: seq<(string, string)>, ids: seq<string>, clusters: seq<Cluster>) {
    forall k, i, m :: 0 <= k < |clusters| && 0 <= i < |rejections| && m in clusters[k].members && m < |ids| ==>
      rejections[i] != (ids[m], TmpId(k))
  }

  lemma MemberAllowed(g: Space, p: Params, c: Cluster, k: nat, rest: set<nat>, j: nat)
    requires g.Valid() && g.Within(rest) && ClusterOk(g, p, c, k, rest) && j < |c.members| && c.members[j] < |g.ids|
    ensures (g.ids[c.members[j]], TmpId(k)) !in g.rejected
  {
    if j >= 2 {
      assert JoinedAt(g, p, TmpId(k), c.members, rest, j);
    }
    hide Similarity, Scale, Sum, TmpId, IsMedoid, Complete, Split;
  }

  lemma KeepsRejections(q: Request, g: Space, p: Params, unit: Normaliser, clusters: seq<Cluster>, whole: set<nat>)
    requires SpaceOf(g, q, unit) && g.Within(whole) && ClustersOk(g, p, clusters, whole)
    ensures RejectionsKept(q.rejections, q.ids, clusters)
  {
    hide ClusterOk, TmpId;
    forall k, i, m | 0 <= k < |clusters| && 0 <= i < |q.rejections| && m in clusters[k].members && m < |q.ids|
      ensures q.rejections[i] != (q.ids[m], TmpId(k))
    {
      var j :| 0 <= j < |clusters[k].members| && clusters[k].members[j] == m;
      MemberAllowed(g, p, clusters[k], k, whole - All(clusters[..k]), j);
    }
  }

  lemma RowsAbove(ids: seq<string>, whole: set<nat>, p: Params, r: Response)
    requires RowsAssigned(ids, whole, p, r.assignments, r.newClusters)
    ensures forall j :: 0 <= j < |r.assignments| ==> AboveThresholds(r.assignments[j], p)
  {
    hide Sound, AboveThresholds;
    forall j | 0 <= j < |r.assignments| ensures AboveThresholds(r.assignments[j], p) {
      assert IsRowOf(ids, whole, p, r.assignments[j], r.newClusters);
      SoundIsAbove(r.assignments[j], p);
    }
  }

  lemma ExactSucceeds(q: Request, g: Space, p: Params, unit: Normaliser)
    requires SpaceOf(g, q, unit) && Exact(unit) && ValidParams(p)
    ensures forall tmp, members, rest :: !CenterFails(g, p, tmp, members, rest)
  {
    assert UnitRows(g) by {
      forall i | 0 <= i < |g.vectors| ensures Dot(g.vectors[i], g.vectors[i]) == 1.0 {
        assert unit(q.embeddings[i]) == Some(g.vectors[i]);
      }
    }
    hide CenterFails, Exact;
    forall tmp, members, rest ensures !CenterFails(g, p, tmp, members, rest) {
      CentroidNeverZero(g, p, tmp, members, rest);
    }
  }

  /** From the clusters to the response. */
  method Respond(q: Request, g: Space, p: Params, clusters: seq<Cluster>, whole: set<nat>, available: set<nat>, ghost cost1: nat)
    returns (response: Response, ghost w: Work, ghost cost: nat)
    requires WellFormed(q) && q.mode.Full? && g.Valid() && g.Within(whole) && g.ids == q.ids && ClustersOk(g, p, clusters, whole)
    requires Size(clusters) + |available| <= |whole| <= |q.ids|
    requires 2 * cost1 <= |q.ids| * |q.ids| + Twice(|whole|) - Twice(|available|) + 2 * Squares(clusters)
    ensures cost1 + cost <= 3 * (|q.ids| * |q.ids|)
    ensures w.clusters == clusters && Answer(g, p, whole, w, response)
    ensures Acceptable(response, q) && RowsAssigned(q.ids, whole, p, response.assignments, response.newClusters)
    ensures forall k :: 0 <= k < |response.newClusters| ==>
           |response.newClusters[k].memberIds| >= 2 && |response.newClusters[k].memberIds| >= p.minClusterSize
           && |response.newClusters[k].medoidIds| == 1
  {
    hide ClustersOk, ValidText, RowOk, Twice, Times, Squares, Size, Sound, AssignedTo, InOrder, RowsAssigned, Acceptable, Leftover;
    ClustersAreRows(g, p, clusters, whole);
    var byIndex, news, kept, medoids, cost2 := Retain(g, p, clusters, whole);
    TakenInAll(clusters, p, |clusters|);
    AllWithin(g, p, clusters, whole, |clusters|);
    ghost var taken := byIndex;
    ghost var cost3: nat;
    byIndex, cost3 := AssignLeftovers(g, p, whole, medoids, byIndex);
    cost := cost2 + cost3;
    var assignments, order := ByIndex(byIndex, |q.ids|);
    response := Response(assignments, news);
    w := Work(clusters, kept, medoids, byIndex, order);
    AnswerBuilt(g, p, whole, w, taken, response);
    hide Answer, RowsOnly;
    AnswerAcceptable(q, g, p, whole, w, response);
    MembersKept(g, p, clusters, kept, news);
    hide Listed;
    RespondCost(|q.ids|, clusters, p, whole, |available|, taken.Keys, kept, cost1, cost2);
  }

  lemma AnswerBuilt(g: Space, p: Params, whole: set<nat>, w: Work, taken: map<nat, Assignment>, r: Response)
    requires g.Valid() && g.Within(whole) && ClustersOk(g, p, w.clusters, whole) && RowsOnly(g, w.clusters)
    requires Listed(g, p, w.clusters, |w.clusters|, w.kept, r.newClusters) && |w.medoids| == |w.kept|
    requires taken.Keys == Taken(w.clusters, p, |w.clusters|) <= whole == w.byIndex.Keys
    requires forall j :: 0 <= j < |w.kept| ==>
      && w.kept[j] < |w.clusters| && w.medoids[j] == w.clusters[w.kept[j]].medoid
      && AssignedTo(g, p, taken, w.clusters[w.kept[j]], w.kept[j])
    requires forall i :: i in taken ==> w.byIndex[i] == taken[i]
    requires forall i :: i in whole && i !in taken ==> Leftover(g, p, i, w.medoids, w.byIndex[i])
    requires InOrder(r.assignments, w.order, w.byIndex, |g.ids|)
    ensures Answer(g, p, whole, w, r)
  {
    hide ClustersOk, RowsOnly, Listed, AssignedTo, Leftover, InOrder;
    forall j | 0 <= j < |w.kept| ensures AssignedTo(g, p, w.byIndex, w.clusters[w.kept[j]], w.kept[j]) {
      StaysAssigned(g, p, taken, w.byIndex, w.clusters[w.kept[j]], w.kept[j]);
    }
  }

  /** Every answer of `cluster_full` passes the client's check and assigns every unconfirmed row once. */
  lemma AnswerAcceptable(q: Request, g: Space, p: Params, whole: set<nat>, w: Work, r: Response)
    requires WellFormed(q) && q.mode.Full? && g.Valid() && g.Within(whole) && g.ids == q.ids && Answer(g, p, whole, w, r)
    requires Size(w.clusters) <= |q.ids| && |r.assignments| <= |q.ids|
    ensures Acceptable(r, q) && RowsAssigned(q.ids, whole, p, r.assignments, r.newClusters)
  {
    hide ClustersOk, ValidText, RowOk, Size, Sound, AssignedTo, InOrder, RowsAssigned, Acceptable, Leftover, RowsOnly, Listed;
    AnswerRows(g, p, whole, w, r);
    OrderedRows(g, p, whole, w.byIndex, r.assignments, w.order, r.newClusters);
    NewsAcceptable(q, g, p, w.clusters, whole, w.kept, r.newClusters);
    RowsAcceptable(q, whole, p, r);
    ResponseAcceptable(q, whole, p, r);
  }

  lemma AnswerRows(g: Space, p: Params, whole: set<nat>, w: Work, r: Response)
    requires g.Valid() && g.Within(whole) && Answer(g, p, whole, w, r)
    ensures forall i :: i in whole ==> RowOk(w.byIndex[i], g.ids[i], p, r.newClusters)
  {
    hide ClustersOk, AssignedTo, Sound, RowsOnly, Listed, Leftover, InOrder, Taken;
    forall i | i in whole ensures RowOk(w.byIndex[i], g.ids[i], p, r.newClusters) {
      if i in Taken(w.clusters, p, |w.clusters|) {
        TakenRowOk(g, p, w.clusters, w.kept, r.newClusters, w.byIndex, i);
      } else {
        LeftoverIs(g, p, i, w.medoids, w.byIndex[i]);
      }
    }
  }

  lemma RowsAcceptable(q: Request, whole: set<nat>, p: Params, r: Response)
    requires WellFormed(q) && RowsAssigned(q.ids, whole, p, r.assignments, r.newClusters)
    requires forall k :: 0 <= k < |r.newClusters| ==> ClusterContract.NewClusterOk(r.newClusters[k], q)
    ensures forall j :: 0 <= j < |r.assignments| ==> AssignmentOk(r.assignments[j], q)
  {
    hide ValidText;
    forall j | 0 <= j < |r.assignments| ensures AssignmentOk(r.assignments[j], q) {
      assert IsRowOf(q.ids, whole, p, r.assignments[j], r.newClusters);
    }
  }

  lemma ResponseAcceptable(q: Request, whole: set<nat>, p: Params, r: Response)
    requires WellFormed(q) && q.mode.Full? && RowsAssigned(q.ids, whole, p, r.assignments, r.newClusters)
    requires |r.assignments| <= |q.ids| && |r.newClusters| <= |q.ids|
    requires forall j :: 0 <= j < |r.assignments| ==> AssignmentOk(r.assignments[j], q)
    requires forall k :: 0 <= k < |r.newClusters| ==> ClusterContract.NewClusterOk(r.newClusters[k], q)
    requires Distinct(TmpIds(r.newClusters)) && Distinct(AllMembers(r.newClusters))
    requires |StringSet(AllMembers(r.newClusters))| <= |q.ids| && MedoidCount(r.newClusters) <= |q.ids|
    ensures Acceptable(r, q)
  {
    hide AssignmentOk, ClusterContract.NewClusterOk, Distinct;
  }

  lemma MembersKept(g: Space, p: Params, clusters: seq<Cluster>, kept: seq<nat>, news: seq<NewCluster>)
    requires g.Valid() && RowsOnly(g, clusters) && Listed(g, p, clusters, |clusters|, kept, news)
    ensures forall k :: 0 <= k < |news| ==>
      |news[k].memberIds| >= 2 && |news[k].memberIds| >= p.minClusterSize && |news[k].medoidIds| == 1
    ensures |kept| <= |clusters| && forall j :: 0 <= j < |kept| ==> kept[j] < |clusters| && Retained(clusters[kept[j]], p)
  {
  }

  lemma RespondCost(n: nat, clusters: seq<Cluster>, p: Params, whole: set<nat>, a: nat, taken: set<nat>, kept: seq<nat>, c1: nat, c2: nat)
    requires 2 * c1 <= n * n + Twice(|whole|) - Twice(a) + 2 * Squares(clusters)
    requires Size(clusters) + a <= |whole| <= n && c2 <= Size(clusters)
    requires forall k :: 0 <= k < |clusters| ==> |clusters[k].members| >= 2
    requires taken == Taken(clusters, p, |clusters|) && |kept| <= |clusters|
    requires forall j :: 0 <= j < |kept| ==> kept[j] < |clusters| && Retained(clusters[kept[j]], p)
    requires taken <= whole
    ensures c1 + c2 + Times(|whole - taken|, |kept|) <= 3 * (n * n)
  {
    SizeAtLeast(clusters);
    SquaresBound(clusters);
    SubsetSize(whole - taken, whole);
    if kept != [] {
      TakenHas(clusters, p, |clusters|, kept[0]);
      var m := clusters[kept[0]].members[0];
      SubsetSize(whole - taken, whole - {m});
    }
    hide Twice, Times, Squares, Size;
    CostBound(n, |whole|, a, Size(clusters), Squares(clusters), |kept|, |whole - taken|, c1, c2);
  }

  lemma {:induction false} TakenHas(clusters: seq<Cluster>, p: Params, k: nat, j: nat)
    requires j < k <= |clusters| && Retained(clusters[j], p) && |clusters[j].members| >= 2
    ensures clusters[j].members[0] in Taken(clusters, p, k)
  {
    if j < k - 1 {
      TakenHas(clusters, p, k - 1, j);
    } else {
      assert clusters[j].members[0] in Set(clusters[j].members);
    }
  }
}
