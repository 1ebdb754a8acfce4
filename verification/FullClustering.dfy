/** `cluster_full`: seeds, greedy growth, medoids and the final assignment, with a count of similarity evaluations. */
module FullClustering {
  import opened Basics
  import opened Clustering
  import opened Seeding

  /** A request: identifiers, normalised rows, the normaliser that centroids go through, and the rejected pairs. */
  datatype Space = Space(ids: seq<string>, vectors: seq<Vector>, dim: nat, unit: Normaliser, rejected: set<(string, string)>) {
    ghost predicate Valid() {
      SameDimension(vectors, dim) && |ids| == |vectors|
    }

    predicate Allowed(i: nat, tmp: string)
      requires i < |ids|
    {
      (ids[i], tmp) !in rejected
    }

    function Near(center: Vector, i: nat): (r: real)
      requires Valid() && |center| == dim && i < |vectors|
      ensures -1.0 <= r <= 1.0
    {
      Similarity(vectors[i], center)
    }

    ghost function Center(members: seq<nat>): (c: Option<Vector>)
      requires Valid() && members != [] && Indices(members, |vectors|)
      ensures c.Some? ==> |c.value| == dim
    {
      unit(Scale(Sum(members, vectors, dim), 1.0 / |members| as real))
    }

    ghost predicate Within(items: set<nat>) {
      forall i :: i in items ==> i < |ids|
    }
  }

  datatype Cluster = Cluster(members: seq<nat>, medoid: nat)

  function Set(members: seq<nat>): set<nat> {
    set m | m in members
  }

  ghost predicate NoRepeats(members: seq<nat>) {
    forall i, j :: 0 <= i < j < |members| ==> members[i] != members[j]
  }

  // ----- growth -----

  /** `b` is at least as near as every allowed item, ties to the smaller index. */
  ghost predicate Nearest(g: Space, center: Vector, available: set<nat>, tmp: string, b: nat)
    requires g.Valid() && |center| == g.dim && g.Within(available)
  {
    && b in available && g.Allowed(b, tmp)
    && forall i :: i in available && g.Allowed(i, tmp) ==>
         g.Near(center, i) < g.Near(center, b) || (g.Near(center, i) == g.Near(center, b) && b <= i)
  }

  /** `max(choices)`. */
  method NearestItem(g: Space, center: Vector, available: set<nat>, tmp: string) returns (best: Option<nat>, ghost cost: nat)
    requires g.Valid() && |center| == g.dim && g.Within(available)
    ensures cost <= |available|
    ensures match best
            case None => forall i :: i in available ==> !g.Allowed(i, tmp)
            case Some(b) => Nearest(g, center, available, tmp, b)
  {
    best, cost := None, 0;
    var todo := available;
    while todo != {}
      invariant todo <= available && cost <= |available| - |todo|
      invariant best.None? ==> forall i :: i in available - todo ==> !g.Allowed(i, tmp)
      invariant best.Some? ==> Nearest(g, center, available - todo, tmp, best.value)
      decreases |todo|
    {
      var i :| i in todo;
      todo := todo - {i};
      if g.Allowed(i, tmp) {
        cost := cost + 1;
        var s := g.Near(center, i);
        if best.None? {
          best := Some(i);
        } else {
          var t := g.Near(center, best.value);
          if s > t || (s == t && i < best.value) {
            best := Some(i);
          }
        }
      }
    }
    assert available - todo == available;
  }

  /** One growing cluster and what is left: a partition of `whole`. */
  ghost predicate Split(members: seq<nat>, available: set<nat>, whole: set<nat>) {
    NoRepeats(members) && Set(members) !! available && Set(members) + available == whole
  }

  /** `b` joined the cluster of `members`: the nearest allowed item, and near enough. */
  ghost predicate Joined(g: Space, p: Params, tmp: string, members: seq<nat>, available: set<nat>, b: nat)
    requires g.Valid() && members != [] && Indices(members, |g.vectors|) && g.Within(available)
  {
    var center := g.Center(members);
    center.Some? && Nearest(g, center.value, available, tmp, b) && g.Near(center.value, b) >= p.tauLow
  }

  /** Nobody else is near enough to join. */
  ghost predicate Complete(g: Space, p: Params, tmp: string, members: seq<nat>, available: set<nat>)
    requires g.Valid() && members != [] && Indices(members, |g.vectors|) && g.Within(available)
  {
    available == {} || (g.Center(members).Some? &&
      forall i :: i in available && g.Allowed(i, tmp) ==> g.Near(g.Center(members).value, i) < p.tauLow)
  }

  ghost predicate JoinedAt(g: Space, p: Params, tmp: string, members: seq<nat>, whole: set<nat>, j: nat)
    requires g.Valid() && Indices(members, |g.vectors|) && g.Within(whole) && 1 <= j < |members|
  {
    Joined(g, p, tmp, members[..j], whole - Set(members[..j]), members[j])
  }

  /** The cluster is what greedy growth makes of its first two members within `whole`. */
  ghost predicate Grown(g: Space, p: Params, tmp: string, members: seq<nat>, whole: set<nat>)
    requires g.Valid() && Indices(members, |g.vectors|) && g.Within(whole)
  {
    forall j :: 2 <= j < |members| ==> JoinedAt(g, p, tmp, members, whole, j)
  }

  /** Twice the triangular number: what growth may cost in all with `a` items to go. */
  function Twice(a: nat): nat { a * (a + 1) }

  /** A medoid costs one evaluation for every ordered pair of members. */
  function Square(a: nat): nat { a * a }

  method Grow(g: Space, p: Params, tmp: string, seed: Pair, whole: set<nat>)
    returns (ok: bool, members: seq<nat>, available: set<nat>, ghost cost: nat)
    requires g.Valid() && g.Within(whole) && seed.left in whole && seed.right in whole && seed.left != seed.right
    ensures Split(members, available, whole) && Indices(members, |g.vectors|) && g.Within(available)
    ensures |members| >= 2 && members[0] == seed.left && members[1] == seed.right
    ensures Grown(g, p, tmp, members, whole)
    ensures ok ==> Complete(g, p, tmp, members, available)
    ensures !ok ==> g.Center(members).None?
    ensures |whole| == |available| + |members|
    ensures 2 * cost <= Twice(|whole|) - Twice(|available|)
  {
    hide Split, Twice, Nearest, Joined, Grown, Complete, Sum, Scale, Similarity;
    ok, members, available, cost := true, [seed.left, seed.right], whole - {seed.left, seed.right}, 0;
    SplitSeed(seed.left, seed.right, whole);
    GrownSeed(g, p, tmp, members, whole);
    assert |whole| == |available| + 2 by { assert whole == available + {seed.left} + {seed.right}; }
    // A pass over the available items is paid for by the item it takes, the last one by the seed.
    SeedPays(|available|);
    while available != {}
      invariant Split(members, available, whole) && Indices(members, |g.vectors|) && g.Within(available)
      invariant |members| >= 2 && members[0] == seed.left && members[1] == seed.right
      invariant Grown(g, p, tmp, members, whole)
      invariant |whole| == |available| + |members|
      invariant 2 * cost + 2 * |available| <= Twice(|whole|) - Twice(|available|)
      decreases |available|
    {
      var center := Centroid(members, g.vectors, g.dim, g.unit);
      if center.None? {
        ok := false;
        return;
      }
      ghost var pass: nat;
      var nearest: Option<nat>;
      nearest, pass := NearestItem(g, center.value, available, tmp);
      cost := cost + pass;
      if nearest.None? {
        NobodyAllowed(g, p, tmp, members, available);
        return;
      }
      IsAvailable(g, center.value, available, tmp, nearest.value);
      if g.Near(center.value, nearest.value) < p.tauLow {
        NobodyElse(g, p, members, available, tmp, nearest.value);
        return;
      }
      WhatIsLeft(members, available, whole);
      JoinedStep(g, p, tmp, members, available, whole, nearest.value);
      SplitStep(members, available, whole, nearest.value);
      PassPays(|available|);
      members := members + [nearest.value];
      available := available - {nearest.value};
    }
    CompleteWhenEmpty(g, p, tmp, members, available);
  }

  lemma CompleteWhenEmpty(g: Space, p: Params, tmp: string, members: seq<nat>, available: set<nat>)
    requires g.Valid() && members != [] && Indices(members, |g.vectors|) && g.Within(available) && available == {}
    ensures Complete(g, p, tmp, members, available)
  {
  }

  lemma GrownSeed(g: Space, p: Params, tmp: string, members: seq<nat>, whole: set<nat>)
    requires g.Valid() && Indices(members, |g.vectors|) && g.Within(whole) && |members| == 2
    ensures Grown(g, p, tmp, members, whole)
  {
  }

  lemma IsAvailable(g: Space, center: Vector, available: set<nat>, tmp: string, b: nat)
    requires g.Valid() && |center| == g.dim && g.Within(available) && Nearest(g, center, available, tmp, b)
    ensures b in available
  {
  }

  lemma NobodyAllowed(g: Space, p: Params, tmp: string, members: seq<nat>, available: set<nat>)
    requires g.Valid() && members != [] && Indices(members, |g.vectors|) && g.Within(available) && g.Center(members).Some?
    requires forall i :: i in available ==> !g.Allowed(i, tmp)
    ensures Complete(g, p, tmp, members, available)
  {
  }

  lemma NobodyElse(g: Space, p: Params, members: seq<nat>, available: set<nat>, tmp: string, b: nat)
    requires g.Valid() && members != [] && Indices(members, |g.vectors|) && g.Within(available) && g.Center(members).Some?
    requires Nearest(g, g.Center(members).value, available, tmp, b)
    requires b < |g.vectors| && g.Near(g.Center(members).value, b) < p.tauLow
    ensures Complete(g, p, tmp, members, available)
  {
  }

  lemma JoinedBefore(g: Space, p: Params, tmp: string, members: seq<nat>, whole: set<nat>, b: nat, j: nat)
    requires g.Valid() && Indices(members, |g.vectors|) && g.Within(whole) && 1 <= j < |members| && b < |g.vectors|
    requires JoinedAt(g, p, tmp, members, whole, j)
    ensures Indices(members + [b], |g.vectors|) && JoinedAt(g, p, tmp, members + [b], whole, j)
  {
    assert (members + [b])[..j] == members[..j];
  }

  lemma JoinedStep(g: Space, p: Params, tmp: string, members: seq<nat>, available: set<nat>, whole: set<nat>, b: nat)
    requires g.Valid() && g.Within(whole) && available == whole - Set(members) && |members| >= 2
    requires Indices(members, |g.vectors|) && g.Within(available)
    requires Grown(g, p, tmp, members, whole) && g.Center(members).Some?
    requires Nearest(g, g.Center(members).value, available, tmp, b) && g.Near(g.Center(members).value, b) >= p.tauLow
    ensures b in available && Indices(members + [b], |g.vectors|) && Grown(g, p, tmp, members + [b], whole)
  {
    var more := members + [b];
    assert more[..|members|] == members;
    assert Joined(g, p, tmp, members, available, b);
    assert b in available;
    assert JoinedAt(g, p, tmp, more, whole, |members|);
    forall j | 2 <= j < |members| ensures JoinedAt(g, p, tmp, more, whole, j) {
      JoinedBefore(g, p, tmp, members, whole, b, j);
    }
    hide JoinedAt;
  }

  lemma SplitSeed(l: nat, r: nat, whole: set<nat>)
    requires l in whole && r in whole && l != r
    ensures Split([l, r], whole - {l, r}, whole)
  {
    assert Set([l, r]) == {l, r};
  }

  lemma WhatIsLeft(members: seq<nat>, available: set<nat>, whole: set<nat>)
    requires Split(members, available, whole)
    ensures available == whole - Set(members)
  {
  }

  lemma SplitStep(members: seq<nat>, available: set<nat>, whole: set<nat>, x: nat)
    requires Split(members, available, whole) && x in available
    ensures Split(members + [x], available - {x}, whole) && |available - {x}| == |available| - 1
  {
    assert x !in Set(members);
    assert Set(members + [x]) == Set(members) + {x};
    assert forall i :: 0 <= i < |members| ==> members[i] in Set(members);
  }

  lemma SeedPays(a: nat)
    ensures Twice(a + 2) - Twice(a) >= 2 * a
  {
  }

  lemma PassPays(a: nat)
    requires a >= 1
    ensures Twice(a) - Twice(a - 1) == 2 * a
  {
  }

  // ----- medoids -----

  function TotalSimilarity(g: Space, candidate: nat, members: seq<nat>): real
    requires g.Valid() && candidate < |g.vectors| && Indices(members, |g.vectors|)
  {
    if members == [] then 0.0
    else TotalSimilarity(g, candidate, members[..|members| - 1]) + Similarity(g.vectors[candidate], g.vectors[members[|members| - 1]])
  }

  /** It is additive, so the order of the members does not matter to it. */
  lemma {:induction false} TotalConcat(g: Space, candidate: nat, xs: seq<nat>, ys: seq<nat>)
    requires g.Valid() && candidate < |g.vectors| && Indices(xs, |g.vectors|) && Indices(ys, |g.vectors|)
    ensures TotalSimilarity(g, candidate, xs + ys) == TotalSimilarity(g, candidate, xs) + TotalSimilarity(g, candidate, ys)
    ensures |ys| == 1 ==> TotalSimilarity(g, candidate, ys) == Similarity(g.vectors[candidate], g.vectors[ys[0]])
    decreases |ys|
  {
    hide Similarity;
    if ys == [] {
      assert xs + ys == xs;
    } else {
      TotalConcat(g, candidate, xs, ys[..|ys| - 1]);
      assert (xs + ys)[..|xs + ys| - 1] == xs + ys[..|ys| - 1];
    }
  }

  ghost predicate IsMedoid(g: Space, members: seq<nat>, among: seq<nat>, m: nat)
    requires g.Valid() && Indices(members, |g.vectors|) && Indices(among, |g.vectors|)
  {
    && m in among && m < |g.vectors|
    && forall c :: c in among ==>
         var s, t := TotalSimilarity(g, c, members), TotalSimilarity(g, m, members);
         s < t || (s == t && m <= c)
  }

  method TotalOf(g: Space, candidate: nat, members: seq<nat>) returns (total: real, ghost cost: nat)
    requires g.Valid() && candidate < |g.vectors| && Indices(members, |g.vectors|)
    ensures total == TotalSimilarity(g, candidate, members) && cost == |members|
  {
    total, cost := 0.0, 0;
    for j := 0 to |members|
      invariant total == TotalSimilarity(g, candidate, members[..j]) && cost == j
    {
      assert members[..j + 1][..j] == members[..j];
      total, cost := total + Similarity(g.vectors[candidate], g.vectors[members[j]]), cost + 1;
    }
    assert members[..|members|] == members;
  }

  /** `_medoid`: the member with the largest total similarity, ties to the smaller index. */
  method Medoid(g: Space, members: seq<nat>) returns (medoid: nat, ghost cost: nat)
    requires g.Valid() && members != [] && Indices(members, |g.vectors|)
    ensures IsMedoid(g, members, members, medoid) && cost == Square(|members|)
  {
    hide TotalSimilarity, IsMedoid, Passes, Similarity;
    var best, pass := TotalOf(g, members[0], members);
    medoid, cost := members[0], pass;
    FirstMedoid(g, members);
    PassesFrom(1, |members|);
    for k := 1 to |members|
      invariant medoid < |g.vectors| && best == TotalSimilarity(g, medoid, members)
      invariant IsMedoid(g, members, members[..k], medoid)
      invariant cost == Passes(k, |members|)
    {
      var total, more := TotalOf(g, members[k], members);
      MedoidStep(g, members, members[..k], medoid, members[k]);
      PassesFrom(k + 1, |members|);
      cost := cost + more;
      if total > best || (total == best && members[k] < medoid) {
        medoid, best := members[k], total;
      }
      assert members[..k + 1] == members[..k] + [members[k]];
    }
    assert members[..|members|] == members;
    PassesAre(|members|, |members|);
  }

  lemma FirstMedoid(g: Space, members: seq<nat>)
    requires g.Valid() && members != [] && Indices(members, |g.vectors|)
    ensures IsMedoid(g, members, members[..1], members[0])
  {
    hide TotalSimilarity;
    assert members[..1] == [members[0]];
  }

  lemma MedoidStep(g: Space, members: seq<nat>, among: seq<nat>, m: nat, c: nat)
    requires g.Valid() && Indices(members, |g.vectors|) && Indices(among, |g.vectors|) && IsMedoid(g, members, among, m)
    requires m < |g.vectors| && c < |g.vectors|
    ensures Indices(among + [c], |g.vectors|)
    ensures
      var s, t := TotalSimilarity(g, c, members), TotalSimilarity(g, m, members);
      IsMedoid(g, members, among + [c], if s > t || (s == t && c < m) then c else m)
  {
    hide TotalSimilarity;
  }

  /** What `k` passes over `n` members cost. */
  function Passes(k: nat, n: nat): nat {
    if k == 0 then 0 else Passes(k - 1, n) + n
  }

  lemma PassesFrom(k: nat, n: nat)
    requires k >= 1
    ensures Passes(k, n) == Passes(k - 1, n) + n && Passes(0, n) == 0
  {
  }

  lemma {:induction false} PassesAre(k: nat, n: nat)
    ensures Passes(k, n) == k * n
  {
    if k > 0 { PassesAre(k - 1, n); }
  }

  // ----- the clusters -----

  function All(clusters: seq<Cluster>): set<nat> {
    if clusters == [] then {} else All(clusters[..|clusters| - 1]) + Set(clusters[|clusters| - 1].members)
  }

  function Size(clusters: seq<Cluster>): nat {
    if clusters == [] then 0 else Size(clusters[..|clusters| - 1]) + |clusters[|clusters| - 1].members|
  }

  function Squares(clusters: seq<Cluster>): nat {
    if clusters == [] then 0
    else Squares(clusters[..|clusters| - 1]) + Square(|clusters[|clusters| - 1].members|)
  }

  /** No rejection names a temporary id: the client's rejections name stored clusters. */
  ghost predicate NoTemporary(g: Space) {
    forall k, id :: (id, TmpId(k)) !in g.rejected
  }

  /** What `cluster_full` must do with the items `rest` to form its k-th cluster. */
  ghost predicate ClusterOk(g: Space, p: Params, c: Cluster, k: nat, rest: set<nat>)
    requires g.Valid() && g.Within(rest)
  {
    && Indices(c.members, |g.vectors|) && |c.members| >= 2 && c.members[0] < c.members[1]
    && Split(c.members, rest - Set(c.members), rest)
    && IsMedoid(g, c.members, c.members, c.medoid)
    && g.Allowed(c.members[0], TmpId(k)) && g.Allowed(c.members[1], TmpId(k))
    && PairOf(g.vectors, g.dim, c.members[0], c.members[1]).similarity >= p.tauLow
    && (NoTemporary(g) ==> IsArgmax(PairOf(g.vectors, g.dim, c.members[0], c.members[1]), rest, g.vectors, g.dim))
    && Grown(g, p, TmpId(k), c.members, rest)
    && Complete(g, p, TmpId(k), c.members, rest - Set(c.members))
  }

  ghost predicate ClustersOk(g: Space, p: Params, clusters: seq<Cluster>, whole: set<nat>)
    requires g.Valid() && g.Within(whole)
  {
    forall k :: 0 <= k < |clusters| ==> ClusterOk(g, p, clusters[k], k, whole - All(clusters[..k]))
  }

  /** No pair of the items left would still seed a cluster. */
  ghost predicate NothingLeft(g: Space, p: Params, available: set<nat>)
    requires g.Valid() && g.Within(available)
  {
    forall l, r :: l in available && r in available && l < r ==> PairOf(g.vectors, g.dim, l, r).similarity < p.tauLow
  }

  /** The centroid of a cluster in the making is the zero vector: `_normalize` raises. */
  ghost predicate CenterFails(g: Space, p: Params, tmp: string, members: seq<nat>, whole: set<nat>)
    requires g.Valid()
  {
    && g.Within(whole) && Indices(members, |g.vectors|) && |members| >= 2
    && Grown(g, p, tmp, members, whole) && Similarity(g.vectors[members[0]], g.vectors[members[1]]) >= p.tauLow
    && g.Center(members).None?
  }

  /** Clusters of at least two members, which together with the items left are no more than there were. */
  ghost predicate Fit(clusters: seq<Cluster>, available: set<nat>, whole: set<nat>) {
    Size(clusters) + |available| <= |whole| && forall k :: 0 <= k < |clusters| ==> |clusters[k].members| >= 2
  }

  /** Half the pairs, the growth passes and the medoids so far. */
  ghost predicate WithinBudget(n: nat, w: nat, a: nat, clusters: seq<Cluster>, cost: nat) {
    2 * cost <= n * n + Twice(w) - Twice(a) + 2 * Squares(clusters)
  }

  lemma BudgetStarts(n: nat, w: nat, cost: nat)
    requires 2 * cost <= n * n
    ensures WithinBudget(n, w, w, [], cost)
  {
    hide Twice;
  }

  lemma BudgetGrows(n: nat, w: nat, a: nat, rest: nat, clusters: seq<Cluster>, c: Cluster, cost: nat, growth: nat)
    requires WithinBudget(n, w, a, clusters, cost) && 2 * growth <= Twice(a) - Twice(rest)
    ensures WithinBudget(n, w, rest, clusters, cost + growth)
    ensures WithinBudget(n, w, rest, clusters + [c], cost + growth + Square(|c.members|))
  {
    hide Twice, Square;
    assert (clusters + [c])[..|clusters|] == clusters;
  }

  method Clusters(g: Space, p: Params, whole: set<nat>)
    returns (ok: bool, clusters: seq<Cluster>, available: set<nat>, ghost cost: nat)
    requires g.Valid() && g.Within(whole)
    ensures ok ==>
      && ClustersOk(g, p, clusters, whole) && available == whole - All(clusters)
      && (NoTemporary(g) ==> NothingLeft(g, p, available))
    ensures !ok ==> exists tmp, members, rest :: CenterFails(g, p, tmp, members, rest)
    ensures Size(clusters) + |available| <= |whole| && forall k :: 0 <= k < |clusters| ==> |clusters[k].members| >= 2
    ensures 2 * cost <= |g.ids| * |g.ids| + Twice(|whole|) - Twice(|available|) + 2 * Squares(clusters)
  {
    hide ClustersOk, ClusterOk, NothingLeft, NoTemporary, CenterFails, Grown, Complete, Split, IsMedoid, Sorted, PairsOf, Covers, IsArgmax;
    hide NoPair, Viable, TmpId, Twice, Square, Squares, Size, All, WithinBudget, Fit;
    ok, clusters, available := true, [], whole;
    var pairs: seq<Pair>;
    pairs, cost := SortedPairs(whole, g.vectors, g.dim);
    NoClusters(g, p, whole);
    BudgetStarts(|g.ids|, |whole|, cost);
    while available != {}
      invariant ClustersOk(g, p, clusters, whole) && available == whole - All(clusters)
      invariant Sorted(pairs) && PairsOf(pairs, g.vectors, g.dim)
      invariant NoTemporary(g) ==> Covers(pairs, available, g.vectors, g.dim)
      invariant Fit(clusters, available, whole)
      invariant WithinBudget(|g.ids|, |whole|, |available|, clusters, cost)
      decreases |available|
    {
      var k := |clusters|;
      var best: Option<Pair>;
      ghost var before := pairs;
      best, pairs := NextSeed(pairs, available, g.ids, g.vectors, g.dim, TmpId(k), g.rejected);
      if best.None? || best.value.similarity < p.tauLow {
        Finished(g, p, before, available, k, best);
        BudgetIs(|g.ids|, whole, available, available, clusters, cost);
        return;
      }
      SeedInside(best.value, available, g.ids, TmpId(k), g.rejected);
      var grown, members, rest;
      ghost var growth: nat;
      grown, members, rest, growth := Grow(g, p, TmpId(k), best.value, available);
      BudgetGrows(|g.ids|, |whole|, |available|, |rest|, clusters, Cluster(members, 0), cost, growth);
      if !grown {
        SeedFails(g, p, before, available, k, best.value, members);
        BudgetIs(|g.ids|, whole, available, rest, clusters, cost + growth);
        ok, available, cost := false, rest, cost + growth;
        return;
      }
      ghost var medoidCost: nat;
      var medoid;
      medoid, medoidCost := Medoid(g, members);
      BudgetGrows(|g.ids|, |whole|, |available|, |rest|, clusters, Cluster(members, medoid), cost, growth);
      cost := cost + growth + medoidCost;
      NewClusterOk(g, p, before, pairs, available, k, best.value, members, rest, medoid);
      AppendCluster(g, p, clusters, whole, Cluster(members, medoid));
      AppendFits(clusters, whole, Cluster(members, medoid), available, rest);
      clusters := clusters + [Cluster(members, medoid)];
      available := rest;
    }
    EmptyIsFinished(g, p, available);
    BudgetIs(|g.ids|, whole, available, available, clusters, cost);
  }

  lemma BudgetIs(n: nat, whole: set<nat>, available: set<nat>, rest: set<nat>, clusters: seq<Cluster>, cost: nat)
    requires WithinBudget(n, |whole|, |rest|, clusters, cost) && Fit(clusters, available, whole) && |rest| <= |available|
    ensures 2 * cost <= n * n + Twice(|whole|) - Twice(|rest|) + 2 * Squares(clusters)
    ensures Size(clusters) + |rest| <= |whole| && forall k :: 0 <= k < |clusters| ==> |clusters[k].members| >= 2
  {
    hide Twice, Squares, Size;
  }

  lemma NoClusters(g: Space, p: Params, whole: set<nat>)
    requires g.Valid() && g.Within(whole)
    ensures ClustersOk(g, p, [], whole) && whole - All([]) == whole && Fit([], whole, whole)
  {
  }

  lemma SeedInside(best: Pair, available: set<nat>, ids: seq<string>, tmp: string, rejected: set<(string, string)>)
    requires best.left < |ids| && best.right < |ids| && Viable(best, available, ids, tmp, rejected)
    ensures best.left in available && best.right in available
  {
  }

  lemma SeedFails(g: Space, p: Params, pairs: seq<Pair>, available: set<nat>, k: nat, best: Pair, members: seq<nat>)
    requires g.Valid() && g.Within(available) && PairsOf(pairs, g.vectors, g.dim) && best in pairs && best.similarity >= p.tauLow
    requires Indices(members, |g.vectors|) && |members| >= 2 && members[0] == best.left && members[1] == best.right
    requires Grown(g, p, TmpId(k), members, available) && g.Center(members).None?
    ensures CenterFails(g, p, TmpId(k), members, available)
  {
    hide Grown, Similarity, Scale, Sum, TmpId;
  }

  lemma EmptyIsFinished(g: Space, p: Params, available: set<nat>)
    requires g.Valid() && available == {}
    ensures NothingLeft(g, p, available)
  {
  }

  lemma NoTemporaryAt(g: Space, k: nat)
    ensures NoTemporary(g) ==> forall id :: (id, TmpId(k)) !in g.rejected
  {
  }

  lemma Finished(g: Space, p: Params, pairs: seq<Pair>, available: set<nat>, k: nat, best: Option<Pair>)
    requires g.Valid() && g.Within(available) && (best.Some? ==> best.value.similarity < p.tauLow)
    requires Covers(pairs, available, g.vectors, g.dim) && (forall id :: (id, TmpId(k)) !in g.rejected) ==>
      match best
      case Some(s) => IsArgmax(s, available, g.vectors, g.dim)
      case None => NoPair(available, |g.vectors|)
    ensures NoTemporary(g) && Covers(pairs, available, g.vectors, g.dim) ==> NothingLeft(g, p, available)
  {
    NoTemporaryAt(g, k);
  }

  lemma NewClusterOk(g: Space, p: Params, before: seq<Pair>, pairs: seq<Pair>, available: set<nat>, k: nat, best: Pair,
                     members: seq<nat>, rest: set<nat>, medoid: nat)
    requires g.Valid() && g.Within(available) && PairsOf(before, g.vectors, g.dim)
    requires best in before && best.left < best.right < |g.ids| && Viable(best, available, g.ids, TmpId(k), g.rejected)
    requires best.similarity >= p.tauLow
    requires Covers(before, available, g.vectors, g.dim) && (forall id :: (id, TmpId(k)) !in g.rejected) ==>
      IsArgmax(best, available, g.vectors, g.dim) && Covers(pairs, available - {best.left, best.right}, g.vectors, g.dim)
    requires Split(members, rest, available) && Indices(members, |g.vectors|) && g.Within(rest)
    requires |members| >= 2 && members[0] == best.left && members[1] == best.right
    requires Grown(g, p, TmpId(k), members, available) && Complete(g, p, TmpId(k), members, rest)
    requires IsMedoid(g, members, members, medoid)
    requires NoTemporary(g) ==> Covers(before, available, g.vectors, g.dim)
    ensures ClusterOk(g, p, Cluster(members, medoid), k, available) && rest == available - Set(members)
    ensures NoTemporary(g) ==> Covers(pairs, rest, g.vectors, g.dim)
  {
    NoTemporaryAt(g, k);
    WhatIsLeft(members, rest, available);
    assert members[0] in Set(members) && members[1] in Set(members);
    hide NoTemporary, Grown, Complete, IsMedoid, Split, IsArgmax;
  }

  lemma AppendFits(clusters: seq<Cluster>, whole: set<nat>, c: Cluster, available: set<nat>, rest: set<nat>)
    requires Fit(clusters, available, whole) && |c.members| >= 2 && |c.members| + |rest| <= |available|
    ensures Fit(clusters + [c], rest, whole)
  {
    assert (clusters + [c])[..|clusters|] == clusters;
  }

  lemma AppendCluster(g: Space, p: Params, clusters: seq<Cluster>, whole: set<nat>, c: Cluster)
    requires g.Valid() && g.Within(whole) && ClustersOk(g, p, clusters, whole)
    requires ClusterOk(g, p, c, |clusters|, whole - All(clusters))
    ensures ClustersOk(g, p, clusters + [c], whole)
    ensures whole - All(clusters + [c]) == whole - All(clusters) - Set(c.members)
  {
    hide ClusterOk;
    var more := clusters + [c];
    assert more[..|clusters|] == clusters;
    forall k | 0 <= k < |more| ensures ClusterOk(g, p, more[k], k, whole - All(more[..k])) {
      assert more[..k] == clusters[..k];
      if k == |clusters| { assert clusters[..k] == clusters; }
    }
  }
}
