/** Seeds from a list of pairs sorted once and drained lazily, against the best pair recomputed each time. */
module Seeding {
  import opened Basics
  import opened Clustering

  datatype Pair = Pair(similarity: real, left: nat, right: nat)

  /** Python's order of the tuples (similarity, -left, -right). */
  predicate Less(a: Pair, b: Pair) {
    || a.similarity < b.similarity
    || (a.similarity == b.similarity && (a.left > b.left || (a.left == b.left && a.right > b.right)))
  }

  ghost predicate Sorted(pairs: seq<Pair>) {
    forall i, j :: 0 <= i < j < |pairs| ==> Less(pairs[i], pairs[j])
  }

  function PairOf(vectors: seq<Vector>, dim: nat, l: nat, r: nat): Pair
    requires SameDimension(vectors, dim) && l < |vectors| && r < |vectors|
  {
    Pair(Similarity(vectors[l], vectors[r]), l, r)
  }

  function Insert(pairs: seq<Pair>, x: Pair): seq<Pair> {
    if pairs == [] then [x]
    else if Less(pairs[|pairs| - 1], x) then pairs + [x]
    else Insert(pairs[..|pairs| - 1], x) + [pairs[|pairs| - 1]]
  }

  lemma {:induction false} InsertMembers(pairs: seq<Pair>, x: Pair)
    ensures forall p :: p in Insert(pairs, x) <==> p in pairs || p == x
  {
    if pairs != [] {
      var n := |pairs| - 1;
      InsertMembers(pairs[..n], x);
      assert pairs == pairs[..n] + [pairs[n]];
    }
  }

  lemma {:induction false} InsertSorted(pairs: seq<Pair>, x: Pair)
    requires Sorted(pairs) && x !in pairs
    ensures Sorted(Insert(pairs, x))
  {
    if pairs != [] && !Less(pairs[|pairs| - 1], x) {
      var n := |pairs| - 1;
      var rest := Insert(pairs[..n], x);
      assert pairs[n] in pairs && pairs[n] != x;
      InsertSorted(pairs[..n], x);
      forall i | 0 <= i < |rest| ensures Less(rest[i], pairs[n]) {
        InsertMembers(pairs[..n], x);
        assert rest[i] in rest;
      }
    }
  }

  /** Every pair is a pair of the vectors, in index order. */
  ghost predicate PairsOf(pairs: seq<Pair>, vectors: seq<Vector>, dim: nat)
    requires SameDimension(vectors, dim)
  {
    forall p :: p in pairs ==> p.left < p.right < |vectors| && p == PairOf(vectors, dim, p.left, p.right)
  }

  /** No pair of available items is missing. */
  ghost predicate Covers(pairs: seq<Pair>, available: set<nat>, vectors: seq<Vector>, dim: nat)
    requires SameDimension(vectors, dim)
  {
    forall l, r :: l in available && r in available && l < r < |vectors| ==> PairOf(vectors, dim, l, r) in pairs
  }

  /** All pairs of available items, sorted once. */
  method SortedPairs(available: set<nat>, vectors: seq<Vector>, dim: nat) returns (pairs: seq<Pair>, ghost cost: nat)
    requires SameDimension(vectors, dim)
    ensures Sorted(pairs) && PairsOf(pairs, vectors, dim) && Covers(pairs, available, vectors, dim)
    ensures 2 * cost <= |vectors| * |vectors|
  {
    hide Sorted, PairsOf, Bound;
    pairs, cost := [], 0;
    var n := |vectors|;
    NoPairs(vectors, dim);
    BoundEnds(n);
    for l := 0 to n
      invariant Sorted(pairs) && PairsOf(pairs, vectors, dim)
      invariant forall p :: p in pairs ==> p.left < l
      invariant forall i, r :: i in available && r in available && i < l && i < r < n ==> PairOf(vectors, dim, i, r) in pairs
      invariant 2 * cost <= Bound(n, l)
    {
      BoundStep(n, l);
      if l in available {
        pairs, cost := RowOfPairs(l, available, vectors, dim, pairs, cost);
      }
    }
  }

  lemma NoPairs(vectors: seq<Vector>, dim: nat)
    requires SameDimension(vectors, dim)
    ensures Sorted([]) && PairsOf([], vectors, dim)
  {
  }

  /** Twice the pairs of the first `l` of `n` items with a later one, at most. */
  function Bound(n: nat, l: nat): int { l * n + l * (n - l) }

  lemma BoundStep(n: nat, l: nat)
    requires l < n
    ensures Bound(n, l) + 2 * (n - l - 1) <= Bound(n, l + 1)
  {
    assert (l + 1) * n == l * n + n && (l + 1) * (n - l - 1) == l * (n - l) - l + (n - l - 1);
  }

  lemma BoundEnds(n: nat)
    ensures Bound(n, 0) == 0 && Bound(n, n) == n * n
  {
  }

  method RowOfPairs(l: nat, available: set<nat>, vectors: seq<Vector>, dim: nat, before: seq<Pair>, ghost cost0: nat)
    returns (pairs: seq<Pair>, ghost cost: nat)
    requires SameDimension(vectors, dim) && l < |vectors|
    requires Sorted(before) && PairsOf(before, vectors, dim) && forall p :: p in before ==> p.left < l
    ensures Sorted(pairs) && PairsOf(pairs, vectors, dim) && forall p :: p in pairs ==> p.left <= l
    ensures forall p :: p in before ==> p in pairs
    ensures forall r :: r in available && l < r < |vectors| ==> PairOf(vectors, dim, l, r) in pairs
    ensures cost <= cost0 + (|vectors| - l - 1)
  {
    pairs, cost := before, cost0;
    for r := l + 1 to |vectors|
      invariant Sorted(pairs) && PairsOf(pairs, vectors, dim) && forall p :: p in pairs ==> p.left <= l
      invariant forall p :: p in before ==> p in pairs
      invariant forall p :: p in pairs && p.left == l ==> p.right < r
      invariant forall i :: i in available && l < i < r ==> PairOf(vectors, dim, l, i) in pairs
      invariant cost <= cost0 + (r - l - 1)
    {
      if r in available {
        var x := PairOf(vectors, dim, l, r);
        cost := cost + 1;
        InsertSorted(pairs, x);
        InsertMembers(pairs, x);
        pairs := Insert(pairs, x);
      }
    }
  }

  predicate Viable(p: Pair, available: set<nat>, ids: seq<string>, tmp: string, rejected: set<(string, string)>)
    requires p.left < |ids| && p.right < |ids|
  {
    p.left in available && p.right in available && (ids[p.left], tmp) !in rejected && (ids[p.right], tmp) !in rejected
  }

  /** The best pair of available items, ties to the smaller indices. */
  ghost predicate IsArgmax(p: Pair, available: set<nat>, vectors: seq<Vector>, dim: nat)
    requires SameDimension(vectors, dim)
  {
    && p.left in available && p.right in available && p.left < p.right < |vectors| && p == PairOf(vectors, dim, p.left, p.right)
    && forall l, r :: l in available && r in available && l < r < |vectors| ==>
         var q := PairOf(vectors, dim, l, r);
         q.similarity < p.similarity || (q.similarity == p.similarity && (p.left < l || (p.left == l && p.right <= r)))
  }

  ghost predicate NoPair(available: set<nat>, n: nat) {
    forall l, r :: l in available && r in available && l < r ==> r >= n
  }

  /** `while pair_candidates: pop ...`: from the end, past pairs that are gone or rejected. */
  method NextSeed(pairs: seq<Pair>, available: set<nat>, ids: seq<string>, vectors: seq<Vector>, dim: nat, tmp: string,
                  rejected: set<(string, string)>) returns (best: Option<Pair>, rest: seq<Pair>)
    requires SameDimension(vectors, dim) && |ids| == |vectors| && Sorted(pairs) && PairsOf(pairs, vectors, dim)
    ensures rest <= pairs && Sorted(rest) && PairsOf(rest, vectors, dim)
    ensures best.None? ==> rest == [] && forall i :: 0 <= i < |pairs| ==> !Viable(pairs[i], available, ids, tmp, rejected)
    ensures best.Some? ==>
      && best.value in pairs && best.value.left < best.value.right < |ids| && Viable(best.value, available, ids, tmp, rejected)
      && |rest| < |pairs| && pairs[|rest|] == best.value
      && forall i :: |rest| < i < |pairs| ==> !Viable(pairs[i], available, ids, tmp, rejected)
    ensures Covers(pairs, available, vectors, dim) && (forall id :: (id, tmp) !in rejected) ==>
      match best
      case Some(p) => IsArgmax(p, available, vectors, dim) && Covers(rest, available - {p.left, p.right}, vectors, dim)
      case None => NoPair(available, |vectors|)
  {
    best, rest := None, pairs;
    while rest != []
      invariant rest <= pairs
      invariant forall i :: |rest| <= i < |pairs| ==> !Viable(pairs[i], available, ids, tmp, rejected)
      decreases |rest|
    {
      var candidate := rest[|rest| - 1];
      assert candidate == pairs[|rest| - 1] && candidate in pairs;
      rest := rest[..|rest| - 1];
      if candidate.left !in available || candidate.right !in available {
        continue;
      }
      if (ids[candidate.left], tmp) in rejected || (ids[candidate.right], tmp) in rejected {
        continue;
      }
      best := Some(candidate);
      break;
    }
    if best.Some? {
      SeedIsArgmax(pairs, |rest|, available, ids, vectors, dim, tmp, rejected);
    }
  }

  lemma SeedIsArgmax(pairs: seq<Pair>, k: nat, available: set<nat>, ids: seq<string>, vectors: seq<Vector>, dim: nat, tmp: string,
                     rejected: set<(string, string)>)
    requires SameDimension(vectors, dim) && |ids| == |vectors| && Sorted(pairs) && PairsOf(pairs, vectors, dim)
    requires k < |pairs| && pairs[k] in pairs && pairs[k].left in available && pairs[k].right in available
    requires forall i :: k < i < |pairs| ==> pairs[i] in pairs && !Viable(pairs[i], available, ids, tmp, rejected)
    ensures Covers(pairs, available, vectors, dim) && (forall id :: (id, tmp) !in rejected) ==>
      IsArgmax(pairs[k], available, vectors, dim) && Covers(pairs[..k], available - {pairs[k].left, pairs[k].right}, vectors, dim)
  {
    if Covers(pairs, available, vectors, dim) && forall id :: (id, tmp) !in rejected {
      forall l, r | l in available && r in available && l < r < |vectors|
        ensures var q := PairOf(vectors, dim, l, r); q == pairs[k] || (q in pairs[..k] && Less(q, pairs[k]))
      {
        var q := PairOf(vectors, dim, l, r);
        var i :| 0 <= i < |pairs| && pairs[i] == q;
      }
    }
  }
}
