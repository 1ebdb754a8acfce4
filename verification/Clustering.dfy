/** The sidecar's greedy two-threshold clustering, over real-valued similarities. */
module Clustering {
  import opened Basics

  type Vector = seq<real>

  /** `_normalize`: the unit vector of the same dimension, or an error for a zero or non-finite one. */
  type Normaliser = u: Vector -> Option<Vector> | forall v :: u(v).Some? ==> |u(v).value| == |v| witness (v => None)

  datatype Params = Params(tauHigh: real, tauLow: real, minClusterSize: int)

  predicate ValidParams(p: Params) {
    0.0 <= p.tauLow <= p.tauHigh <= 1.0 && 1 <= p.minClusterSize <= 512
  }

  datatype State = Auto | Candidate | Unassigned

  datatype Assignment = Assignment(id: string, cluster: Option<string>, state: State, similarity: real)

  datatype NewCluster = NewCluster(tmpId: string, memberIds: seq<string>, medoidIds: seq<string>)

  datatype Response = Response(assignments: seq<Assignment>, newClusters: seq<NewCluster>)

  datatype Error = ValueError

  // ----- vectors -----

  function Dot(a: Vector, b: Vector): real
    requires |a| == |b|
  {
    if a == [] then 0.0 else Dot(a[..|a| - 1], b[..|b| - 1]) + a[|a| - 1] * b[|b| - 1]
  }

  function Similarity(a: Vector, b: Vector): (r: real)
    requires |a| == |b|
    ensures -1.0 <= r <= 1.0
  {
    var d := Dot(a, b);
    if d < -1.0 then -1.0 else if d > 1.0 then 1.0 else d
  }

  function Add(a: Vector, b: Vector): (c: Vector)
    requires |a| == |b|
    ensures |c| == |a| && forall i :: 0 <= i < |a| ==> c[i] == a[i] + b[i]
  {
    seq(|a|, i requires 0 <= i < |a| => a[i] + b[i])
  }

  function Scale(a: Vector, r: real): (c: Vector)
    ensures |c| == |a| && forall i :: 0 <= i < |a| ==> c[i] == a[i] * r
  {
    seq(|a|, i requires 0 <= i < |a| => a[i] * r)
  }

  predicate SameDimension(vectors: seq<Vector>, dim: nat) {
    forall i :: 0 <= i < |vectors| ==> |vectors[i]| == dim
  }

  predicate Indices(members: seq<nat>, n: nat) {
    forall i :: 0 <= i < |members| ==> members[i] < n
  }

  function Sum(members: seq<nat>, vectors: seq<Vector>, dim: nat): (s: Vector)
    requires SameDimension(vectors, dim) && Indices(members, |vectors|)
    ensures |s| == dim
  {
    if members == [] then seq(dim, i => 0.0)
    else Add(Sum(members[..|members| - 1], vectors, dim), vectors[members[|members| - 1]])
  }

  /** `_centroid`. */
  method Centroid(members: seq<nat>, vectors: seq<Vector>, dim: nat, unit: Normaliser) returns (center: Option<Vector>)
    requires SameDimension(vectors, dim) && members != [] && Indices(members, |vectors|)
    ensures center == unit(Scale(Sum(members, vectors, dim), 1.0 / |members| as real))
    ensures center.Some? ==> |center.value| == dim
  {
    var sum: Vector := seq(dim, i => 0.0);
    for k := 0 to |members|
      invariant |sum| == dim && sum == Sum(members[..k], vectors, dim)
    {
      assert members[..k + 1][..k] == members[..k];
      sum := Add(sum, vectors[members[k]]);
    }
    assert members[..|members|] == members;
    center := unit(Scale(sum, 1.0 / |members| as real));
  }

  // ----- rounding -----

  /** The nearest integer, halves to the even one. */
  function Nearest(x: real): int {
    var below := x.Floor;
    var rest := x - below as real;
    if rest < 0.5 then below else if rest > 0.5 then below + 1 else if below % 2 == 0 then below else below + 1
  }

  /** `round(x, 7)`. */
  function Rounded(x: real): real {
    Nearest(x * 10_000_000.0) as real / 10_000_000.0
  }

  /** The nearest one, and of two equally near the even one. */
  lemma NearestIs(x: real)
    ensures -0.5 <= Nearest(x) as real - x <= 0.5
    ensures Nearest(x) as real - x == 0.5 || Nearest(x) as real - x == -0.5 ==> Nearest(x) % 2 == 0
  {
  }

  lemma NearestMonotone(x: real, y: real)
    requires x <= y
    ensures Nearest(x) <= Nearest(y)
  {
    if x.Floor < y.Floor {
      assert x.Floor + 1 <= y.Floor;
    } else {
      assert x.Floor == y.Floor;
    }
  }

  lemma RoundedMonotone(x: real, y: real)
    requires x <= y
    ensures Rounded(x) <= Rounded(y)
  {
    NearestMonotone(x * 10_000_000.0, y * 10_000_000.0);
    hide Nearest;
    var a, b := Nearest(x * 10_000_000.0), Nearest(y * 10_000_000.0);
    assert a as real <= b as real;
  }

  lemma RoundedRange(x: real)
    requires -1.0 <= x <= 1.0
    ensures -1.0 <= Rounded(x) <= 1.0
  {
    RoundedMonotone(-1.0, x);
    RoundedMonotone(x, 1.0);
  }

  /** A report is off by at most half of its last digit. */
  lemma RoundedIsNear(x: real)
    ensures -0.00000005 <= Rounded(x) - x <= 0.00000005
  {
    NearestIs(x * 10_000_000.0);
    hide Nearest;
  }

  /** `_assignment`. */
  function MakeAssignment(id: string, cluster: Option<string>, similarity: real, p: Params): Assignment {
    if cluster.None? || similarity < p.tauLow then Assignment(id, None, Unassigned, Rounded(similarity))
    else if similarity >= p.tauHigh then Assignment(id, cluster, Auto, Rounded(similarity))
    else Assignment(id, cluster, Candidate, Rounded(similarity))
  }

  /** What the thresholds decide of an id that was measured against a cluster: it joins from the low one on, automatically
      from the high one on. */
  ghost predicate Placed(a: Assignment, id: string, cluster: Option<string>, similarity: real, p: Params) {
    && a.id == id && a.similarity == Rounded(similarity)
    && (cluster.None? ==> a.cluster.None? && a.state.Unassigned?)
    && (cluster.Some? ==>
          && (similarity < p.tauLow ==> a.cluster.None? && a.state.Unassigned?)
          && (similarity >= p.tauLow ==> a.cluster == cluster && !a.state.Unassigned?)
          && (similarity >= p.tauLow ==> (a.state.Auto? <==> similarity >= p.tauHigh)))
  }

  lemma MakesPlaced(id: string, cluster: Option<string>, similarity: real, p: Params)
    ensures Placed(MakeAssignment(id, cluster, similarity, p), id, cluster, similarity, p)
  {
    hide Rounded;
  }

  /** It leaves no choice, and for a valid pair of thresholds each outcome has its own range. */
  lemma PlacedIff(a: Assignment, id: string, cluster: string, similarity: real, p: Params)
    requires ValidParams(p)
    ensures Placed(a, id, Some(cluster), similarity, p) ==>
      && a == MakeAssignment(id, Some(cluster), similarity, p)
      && (a.cluster == Some(cluster) <==> similarity >= p.tauLow) && (a.cluster.None? <==> similarity < p.tauLow)
      && (a.state.Auto? <==> similarity >= p.tauHigh) && (a.state.Candidate? <==> p.tauLow <= similarity < p.tauHigh)
  {
    hide Rounded;
  }

  /** Unassigned means without a cluster. */
  predicate StateFits(a: Assignment) { a.state.Unassigned? <==> a.cluster.None? }

  /** What every assignment of a response satisfies. */
  predicate Sound(a: Assignment, p: Params) {
    && -1.0 <= a.similarity <= 1.0
    && StateFits(a)
    && (a.cluster.Some? ==> a.similarity >= Rounded(p.tauLow))
    && (a.state.Auto? ==> a.similarity >= Rounded(p.tauHigh))
    && (a.state.Candidate? ==> a.similarity <= Rounded(p.tauHigh))
  }

  lemma AssignmentSound(a: Assignment, id: string, cluster: Option<string>, similarity: real, p: Params)
    requires -1.0 <= similarity <= 1.0 && Placed(a, id, cluster, similarity, p)
    ensures Sound(a, p)
  {
    hide Nearest;
    RoundedRange(similarity);
    if similarity >= p.tauLow { RoundedMonotone(p.tauLow, similarity); }
    if similarity >= p.tauHigh { RoundedMonotone(p.tauHigh, similarity); } else { RoundedMonotone(similarity, p.tauHigh); }
  }

  /** The reported similarity of an assigned id is never below the low threshold, whatever was measured. */
  ghost predicate LowBoundHolds(p: Params) {
    forall id, c, similarity :: -1.0 <= similarity <= 1.0 && MakeAssignment(id, Some(c), similarity, p).cluster.Some? ==>
      MakeAssignment(id, Some(c), similarity, p).similarity >= p.tauLow
  }

  /** Nor that of an automatic one below the high threshold. */
  ghost predicate HighBoundHolds(p: Params) {
    forall id, c, similarity :: -1.0 <= similarity <= 1.0 && MakeAssignment(id, Some(c), similarity, p).state.Auto? ==>
      MakeAssignment(id, Some(c), similarity, p).similarity >= p.tauHigh
  }

  /** Exactly when the report keeps to the thresholds: when rounding does not lower them. */
  lemma ThresholdsHoldIff(p: Params)
    requires ValidParams(p)
    ensures LowBoundHolds(p) <==> Rounded(p.tauLow) >= p.tauLow
    ensures HighBoundHolds(p) <==> Rounded(p.tauHigh) >= p.tauHigh
  {
    hide Rounded;
    AtThresholds(p);
    forall id, c, similarity | -1.0 <= similarity <= 1.0 ensures Sound(MakeAssignment(id, Some(c), similarity, p), p) {
      MakesPlaced(id, Some(c), similarity, p);
      AssignmentSound(MakeAssignment(id, Some(c), similarity, p), id, Some(c), similarity, p);
    }
  }

  /** A similarity at a threshold is assigned, and its report is the rounded threshold. */
  lemma AtThresholds(p: Params)
    requires ValidParams(p)
    ensures MakeAssignment("a", Some("b"), p.tauLow, p).cluster.Some? && MakeAssignment("a", Some("b"), p.tauHigh, p).state.Auto?
    ensures MakeAssignment("a", Some("b"), p.tauLow, p).similarity == Rounded(p.tauLow)
    ensures MakeAssignment("a", Some("b"), p.tauHigh, p).similarity == Rounded(p.tauHigh)
  {
  }

  /** It does on thresholds of at most seven decimals. */
  lemma SevenDecimals(k: int)
    ensures Rounded(k as real / 10_000_000.0) == k as real / 10_000_000.0
  {
    assert k as real / 10_000_000.0 * 10_000_000.0 == k as real;
  }

  /** An assigned id whose reported similarity lies below the threshold it was measured to pass. */
  lemma RoundingCrossesThreshold() returns (p: Params, similarity: real)
    ensures ValidParams(p) && p.tauLow <= similarity <= 1.0
    ensures MakeAssignment("a", Some("b"), similarity, p) == Assignment("a", Some("b"), Candidate, 0.3) && 0.3 < p.tauLow
  {
    p, similarity := Params(0.5, 0.30000001, 1), 0.30000002;
    assert (similarity * 10_000_000.0).Floor == 3_000_000;
  }

  /** What a caller with such thresholds may read off a response. */
  predicate AboveThresholds(a: Assignment, p: Params) {
    && (Rounded(p.tauLow) >= p.tauLow && a.cluster.Some? ==> a.similarity >= p.tauLow)
    && (Rounded(p.tauHigh) >= p.tauHigh && a.state.Auto? ==> a.similarity >= p.tauHigh)
  }

  lemma SoundIsAbove(a: Assignment, p: Params)
    requires Sound(a, p)
    ensures AboveThresholds(a, p)
  {
    hide Rounded;
  }

  // ----- temporary ids -----

  function Decimal(n: nat): (s: string)
    ensures |s| >= 1 && forall i :: 0 <= i < |s| ==> '0' <= s[i] <= '9'
  {
    if n < 10 then ['0' + n as char] else Decimal(n / 10) + ['0' + (n % 10) as char]
  }

  lemma {:induction false} DecimalInjective(n: nat, m: nat)
    requires Decimal(n) == Decimal(m)
    ensures n == m
    decreases n
  {
    var s, t := Decimal(n), Decimal(m);
    assert s[|s| - 1] == '0' + (n % 10) as char && t[|t| - 1] == '0' + (m % 10) as char;
    assert n % 10 == m % 10;
    if n >= 10 && m >= 10 {
      assert s[..|s| - 1] == Decimal(n / 10) && t[..|t| - 1] == Decimal(m / 10);
      DecimalInjective(n / 10, m / 10);
    }
  }

  lemma {:induction false} DecimalLength(n: nat)
    ensures n < 10 ==> |Decimal(n)| <= 1
    ensures n < 100 ==> |Decimal(n)| <= 2
    ensures n < 1000 ==> |Decimal(n)| <= 3
  {
    if n >= 10 {
      DecimalLength(n / 10);
    }
  }

  function TmpId(k: nat): string { "c" + Decimal(k) }

  lemma TmpIdInjective(k: nat, m: nat)
    ensures TmpId(k) == TmpId(m) ==> k == m
  {
    if TmpId(k) == TmpId(m) {
      assert TmpId(k)[1..] == Decimal(k) && TmpId(m)[1..] == Decimal(m);
      DecimalInjective(k, m);
    }
  }
}
