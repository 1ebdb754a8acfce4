/** Growth never meets a zero centroid: every item that joins points no farther away than a right angle. */
module Centroids {
  import opened Basics
  import opened Clustering
  import opened Seeding
  import opened FullClustering

  lemma {:induction false} DotAdd(a: Vector, b: Vector, c: Vector)
    requires |a| == |b| == |c|
    ensures Dot(Add(a, b), c) == Dot(a, c) + Dot(b, c)
    decreases |a|
  {
    if a != [] {
      var n := |a| - 1;
      assert Add(a, b)[..n] == Add(a[..n], b[..n]);
      DotAdd(a[..n], b[..n], c[..n]);
    }
  }

  lemma {:induction false} DotSymmetric(a: Vector, b: Vector)
    requires |a| == |b|
    ensures Dot(a, b) == Dot(b, a)
    decreases |a|
  {
    if a != [] {
      DotSymmetric(a[..|a| - 1], b[..|a| - 1]);
    }
  }

  lemma {:induction false} DotScale(a: Vector, b: Vector, r: real)
    requires |a| == |b|
    ensures Dot(a, Scale(b, r)) == r * Dot(a, b)
    decreases |a|
  {
    if a != [] {
      var n := |a| - 1;
      forall i | 0 <= i < n ensures Scale(b, r)[..n][i] == Scale(b[..n], r)[i] {
        assert b[..n][i] == b[i];
      }
      assert Scale(b, r)[..n] == Scale(b[..n], r);
      DotScale(a[..n], b[..n], r);
    }
  }

  lemma SquareOfSum(a: Vector, b: Vector)
    requires |a| == |b|
    ensures Dot(Add(a, b), Add(a, b)) == Dot(a, a) + 2.0 * Dot(b, a) + Dot(b, b)
  {
    DotAdd(a, b, Add(a, b));
    DotSymmetric(a, Add(a, b));
    DotSymmetric(b, Add(a, b));
    DotAdd(a, b, a);
    DotAdd(a, b, b);
    DotSymmetric(a, b);
  }

  /** Exact normalisation: a vector other than zero is scaled, by a positive factor, to length one. */
  ghost predicate Exact(unit: Normaliser) {
    && (forall v: Vector :: Dot(v, v) > 0.0 ==> unit(v).Some? && ScaledBy(unit(v).value, v))
    && (forall v: Vector :: unit(v).Some? ==> Dot(unit(v).value, unit(v).value) == 1.0)
  }

  ghost predicate ScaledBy(u: Vector, v: Vector) {
    exists r: real :: r > 0.0 && u == Scale(v, r)
  }

  ghost predicate UnitRows(g: Space)
    requires g.Valid()
  {
    forall i :: 0 <= i < |g.vectors| ==> Dot(g.vectors[i], g.vectors[i]) == 1.0
  }

  /** A non-negative similarity to the centre is a non-negative product with the sum of the members. */
  lemma JoinsForward(g: Space, members: seq<nat>, b: nat)
    requires g.Valid() && Exact(g.unit) && members != [] && Indices(members, |g.vectors|) && b < |g.vectors|
    requires Dot(Sum(members, g.vectors, g.dim), Sum(members, g.vectors, g.dim)) > 0.0
    ensures g.Center(members).Some?
    ensures g.Near(g.Center(members).value, b) >= 0.0 ==> Dot(g.vectors[b], Sum(members, g.vectors, g.dim)) >= 0.0
  {
    hide Dot, Scale, Sum;
    var sum, k := Sum(members, g.vectors, g.dim), 1.0 / |members| as real;
    MeanPositive(sum, k);
    var center := g.unit(Scale(sum, k)).value;
    assert ScaledBy(center, Scale(sum, k));
    ForwardOf(g.vectors[b], sum, k, center);
  }

  lemma MeanPositive(sum: Vector, k: real)
    requires Dot(sum, sum) > 0.0 && k > 0.0
    ensures Dot(Scale(sum, k), Scale(sum, k)) > 0.0
  {
    hide Dot, Scale;
    var mean := Scale(sum, k);
    DotScale(mean, sum, k);
    DotSymmetric(mean, sum);
    DotScale(sum, sum, k);
    Positive(k, Dot(sum, sum));
  }

  lemma ForwardOf(v: Vector, sum: Vector, k: real, center: Vector)
    requires |v| == |sum| == |center| && k > 0.0 && ScaledBy(center, Scale(sum, k))
    ensures Similarity(v, center) >= 0.0 ==> Dot(v, sum) >= 0.0
  {
    hide Dot, Scale;
    var r :| r > 0.0 && center == Scale(Scale(sum, k), r);
    DotScale(v, Scale(sum, k), r);
    DotScale(v, sum, k);
    SameSign(r, k, Dot(v, sum));
  }

  lemma Positive(k: real, x: real)
    requires k > 0.0 && x > 0.0
    ensures k * (k * x) > 0.0
  {
  }

  lemma NegativeTimes(k: real, x: real)
    requires k > 0.0
    ensures x < 0.0 ==> k * x < 0.0
  {
  }

  lemma SameSign(r: real, k: real, x: real)
    requires r > 0.0 && k > 0.0
    ensures r * (k * x) >= 0.0 ==> x >= 0.0
  {
    NegativeTimes(k, x);
    NegativeTimes(r, k * x);
  }

  lemma SumOfOne(g: Space, members: seq<nat>)
    requires g.Valid() && Indices(members, |g.vectors|) && |members| == 1
    ensures Sum(members, g.vectors, g.dim) == g.vectors[members[0]]
  {
    assert members[..0] == [];
  }

  lemma TimesInverse(x: real, n: real)
    requires n > 0.0
    ensures x * n * (1.0 / n) == x
  {
    assert n * (1.0 / n) == 1.0;
    assert x * n * (1.0 / n) == x * (n * (1.0 / n));
  }

  lemma ScaleInverse(v: Vector, n: real)
    requires n > 0.0
    ensures Scale(Scale(v, n), 1.0 / n) == v
  {
    var w := Scale(Scale(v, n), 1.0 / n);
    forall i | 0 <= i < |v| ensures w[i] == v[i] {
      assert w[i] == v[i] * n * (1.0 / n);
      TimesInverse(v[i], n);
    }
    assert w == v;
  }

  lemma ScaleMore(v: Vector, n: real)
    ensures Add(Scale(v, n), v) == Scale(v, n + 1.0) && forall i :: 0 <= i < |v| ==> Scale(v, 0.0)[i] == 0.0
  {
    forall i | 0 <= i < |v| ensures v[i] * n + v[i] == v[i] * (n + 1.0) {}
  }

  lemma {:induction false} SumOfCopies(g: Space, members: seq<nat>, m: nat)
    requires g.Valid() && m < |g.vectors| && forall i :: 0 <= i < |members| ==> members[i] == m
    ensures Indices(members, |g.vectors|) && Sum(members, g.vectors, g.dim) == Scale(g.vectors[m], |members| as real)
  {
    hide Scale, Add;
    var v := g.vectors[m];
    if members == [] {
      ScaleMore(v, 0.0);
      assert Sum(members, g.vectors, g.dim) == Scale(v, 0.0);
    } else {
      SumOfCopies(g, members[..|members| - 1], m);
      ScaleMore(v, (|members| - 1) as real);
    }
  }

  /** The centroid is a mean: of copies of one vector it is that vector, normalised once more. */
  lemma CenterOfCopies(g: Space, members: seq<nat>, m: nat)
    requires g.Valid() && members != [] && m < |g.vectors| && forall i :: 0 <= i < |members| ==> members[i] == m
    ensures Indices(members, |g.vectors|) && g.Center(members) == g.unit(g.vectors[m])
  {
    hide Scale, Sum;
    SumOfCopies(g, members, m);
    ScaleInverse(g.vectors[m], |members| as real);
  }

  lemma SumSnoc(g: Space, members: seq<nat>, k: nat)
    requires g.Valid() && Indices(members, |g.vectors|) && 1 <= k <= |members|
    ensures Indices(members[..k], |g.vectors|) && Indices(members[..k - 1], |g.vectors|)
    ensures Sum(members[..k], g.vectors, g.dim) == Add(Sum(members[..k - 1], g.vectors, g.dim), g.vectors[members[k - 1]])
  {
    assert members[..k][..k - 1] == members[..k - 1];
  }

  /** The next member does not point away from the sum so far. */
  lemma NextForward(g: Space, p: Params, tmp: string, members: seq<nat>, whole: set<nat>, k: nat)
    requires g.Valid() && Exact(g.unit) && p.tauLow >= 0.0 && g.Within(whole)
    requires Indices(members, |g.vectors|) && Grown(g, p, tmp, members, whole) && 2 <= k < |members|
    requires Indices(members[..k], |g.vectors|)
    requires Dot(Sum(members[..k], g.vectors, g.dim), Sum(members[..k], g.vectors, g.dim)) > 0.0
    ensures Dot(g.vectors[members[k]], Sum(members[..k], g.vectors, g.dim)) >= 0.0
  {
    hide Dot, Sum, Scale, Similarity, Exact, FullClustering.Nearest;
    assert JoinedAt(g, p, tmp, members, whole, k);
    JoinsForward(g, members[..k], members[k]);
  }

  lemma FirstForward(g: Space, members: seq<nat>)
    requires g.Valid() && Indices(members, |g.vectors|) && |members| >= 2
    requires Similarity(g.vectors[members[0]], g.vectors[members[1]]) >= 0.0
    ensures Indices(members[..1], |g.vectors|)
    ensures Sum(members[..1], g.vectors, g.dim) == g.vectors[members[0]]
    ensures Dot(g.vectors[members[1]], Sum(members[..1], g.vectors, g.dim)) >= 0.0
  {
    SumOfOne(g, members[..1]);
    DotSymmetric(g.vectors[members[0]], g.vectors[members[1]]);
  }

  lemma {:induction false} SumGrows(g: Space, p: Params, tmp: string, members: seq<nat>, whole: set<nat>, k: nat)
    requires g.Valid() && Exact(g.unit) && UnitRows(g) && p.tauLow >= 0.0 && g.Within(whole)
    requires Indices(members, |g.vectors|) && Grown(g, p, tmp, members, whole) && 2 <= k <= |members|
    requires Similarity(g.vectors[members[0]], g.vectors[members[1]]) >= p.tauLow
    ensures Indices(members[..k], |g.vectors|)
    ensures var s := Sum(members[..k], g.vectors, g.dim); Dot(s, s) >= k as real
  {
    hide Dot, Sum, Scale, Similarity, Exact, Grown;
    SumSnoc(g, members, k);
    if k == 2 {
      FirstForward(g, members);
    } else {
      SumGrows(g, p, tmp, members, whole, k - 1);
      NextForward(g, p, tmp, members, whole, k - 1);
    }
    SquareOfSum(Sum(members[..k - 1], g.vectors, g.dim), g.vectors[members[k - 1]]);
  }

  /** So `_normalize` of a centroid never raises: the error that `Grow` reports cannot come from exact arithmetic. */
  lemma CentroidNeverZero(g: Space, p: Params, tmp: string, members: seq<nat>, whole: set<nat>)
    requires g.Valid() && Exact(g.unit) && UnitRows(g) && p.tauLow >= 0.0
    ensures !CenterFails(g, p, tmp, members, whole)
  {
    hide Sum, Scale, Similarity, Grown;
    if g.Within(whole) && Indices(members, |g.vectors|) && |members| >= 2 && Grown(g, p, tmp, members, whole)
       && Similarity(g.vectors[members[0]], g.vectors[members[1]]) >= p.tauLow {
      SumGrows(g, p, tmp, members, whole, |members|);
      assert members[..|members|] == members;
      JoinsForward(g, members, members[0]);
    }
  }
}
