/** The client's side of the clustering call: its request checks and its independent check of the response. */
module ClusterContract {
  import opened Basics
  import opened Clustering

  const MAX_CLUSTER_ROWS := 512
  const MAX_EMBEDDING_DIMENSION := 4096
  const MAX_IDENTIFIER := 128

  datatype Mode = Full | Assign

  datatype Request = Request(mode: Mode, ids: seq<string>, embeddings: seq<Vector>, dim: nat, medoids: map<string, Vector>,
                             rejections: seq<(string, string)>, confirmed: seq<string>)

  predicate Control(c: char) { c < ' ' || 0x7F as char <= c <= 0x9F as char }

  /** Bytes of a scalar value in UTF-8. */
  function Utf8Bytes(c: char): nat {
    if c as int < 0x80 then 1 else if c as int < 0x800 then 2 else if c as int < 0x1_0000 then 3 else 4
  }

  function Utf8Length(s: string): (n: nat)
    ensures |s| <= n
  {
    if s == "" then 0 else Utf8Length(s[..|s| - 1]) + Utf8Bytes(s[|s| - 1])
  }

  /** The scalar values that `n` bytes can carry: 7 bits in one byte, 5 bits and 6 more for each byte after the first in several. */
  function Carried(n: nat): nat {
    if n <= 1 then 0x80 else if n == 2 then 0x20 * 0x40 else if n == 3 then 0x10 * 0x40 * 0x40 else 0x08 * 0x40 * 0x40 * 0x40
  }

  /** UTF-8 takes as few bytes as can carry the value. */
  lemma Utf8Least(c: char)
    ensures 1 <= Utf8Bytes(c) <= 4 && (c as int) < Carried(Utf8Bytes(c))
    ensures Utf8Bytes(c) > 1 ==> c as int >= Carried(Utf8Bytes(c) - 1)
  {
  }

  /** Plain letters and digits take one byte each. */
  lemma {:induction false} AsciiLength(s: string)
    requires forall i :: 0 <= i < |s| ==> s[i] as int < 0x80
    ensures Utf8Length(s) == |s|
  {
    if s != "" {
      AsciiLength(s[..|s| - 1]);
    }
  }

  /** `valid_text`: a limit in bytes and no control character. */
  predicate ValidText(s: string, maximum: nat) {
    s != "" && Utf8Length(s) <= maximum && forall i :: 0 <= i < |s| ==> !Control(s[i])
  }

  predicate Distinct(xs: seq<string>) {
    forall i, j :: 0 <= i < j < |xs| ==> xs[i] != xs[j]
  }

  /** The checks of `cluster` before it sends a request. */
  predicate WellFormed(q: Request) {
    && q.dim > 0 && |q.ids| == |q.embeddings|
    && (forall i :: 0 <= i < |q.ids| ==> ValidText(q.ids[i], MAX_IDENTIFIER)) && Distinct(q.ids)
    && SameDimension(q.embeddings, q.dim)
    && |q.medoids| <= MAX_CLUSTER_ROWS
    && (forall c :: c in q.medoids ==> ValidText(c, MAX_IDENTIFIER) && |q.medoids[c]| == q.dim)
    && |q.rejections| <= MAX_CLUSTER_ROWS
    && (forall i :: 0 <= i < |q.rejections| ==>
          ValidText(q.rejections[i].0, MAX_IDENTIFIER) && ValidText(q.rejections[i].1, MAX_IDENTIFIER))
    && |q.confirmed| <= MAX_CLUSTER_ROWS
    && (forall i :: 0 <= i < |q.confirmed| ==> ValidText(q.confirmed[i], MAX_IDENTIFIER))
    && |q.embeddings| <= MAX_CLUSTER_ROWS && q.dim <= MAX_EMBEDDING_DIMENSION
  }

  // ----- what the client accepts -----

  predicate AssignmentOk(a: Assignment, q: Request) {
    && a.id in q.ids && (a.cluster.Some? ==> ValidText(a.cluster.value, MAX_IDENTIFIER))
    && -1.0 <= a.similarity <= 1.0 && StateFits(a)
  }

  predicate NewClusterOk(c: NewCluster, q: Request) {
    && ValidText(c.tmpId, MAX_IDENTIFIER) && |c.memberIds| <= MAX_CLUSTER_ROWS && |c.medoidIds| <= MAX_CLUSTER_ROWS
    && (forall i :: 0 <= i < |c.memberIds| ==> c.memberIds[i] in q.ids)
    && (forall i :: 0 <= i < |c.medoidIds| ==> c.medoidIds[i] in q.ids && c.medoidIds[i] in c.memberIds)
  }

  function AllMembers(clusters: seq<NewCluster>): seq<string> {
    if clusters == [] then [] else AllMembers(clusters[..|clusters| - 1]) + clusters[|clusters| - 1].memberIds
  }

  function MedoidCount(clusters: seq<NewCluster>): nat {
    if clusters == [] then 0 else MedoidCount(clusters[..|clusters| - 1]) + |clusters[|clusters| - 1].medoidIds|
  }

  function AssignedIds(assignments: seq<Assignment>): (ids: seq<string>)
    ensures |ids| == |assignments| && forall i :: 0 <= i < |ids| ==> ids[i] == assignments[i].id
  {
    seq(|assignments|, i requires 0 <= i < |assignments| => assignments[i].id)
  }

  function TmpIds(clusters: seq<NewCluster>): (ids: seq<string>)
    ensures |ids| == |clusters| && forall i :: 0 <= i < |ids| ==> ids[i] == clusters[i].tmpId
  {
    seq(|clusters|, i requires 0 <= i < |clusters| => clusters[i].tmpId)
  }

  function StringSet(xs: seq<string>): set<string> { set x | x in xs }

  /** Each id is assigned once, clusters are disjoint and hold their medoids, and an assign response names known clusters only. */
  predicate Acceptable(r: Response, q: Request) {
    && |r.assignments| <= |q.embeddings| && |r.newClusters| <= |q.embeddings|
    && (forall i :: 0 <= i < |r.assignments| ==> AssignmentOk(r.assignments[i], q)) && Distinct(AssignedIds(r.assignments))
    && (forall k :: 0 <= k < |r.newClusters| ==> NewClusterOk(r.newClusters[k], q)) && Distinct(TmpIds(r.newClusters))
    && Distinct(AllMembers(r.newClusters))
    && |StringSet(AllMembers(r.newClusters))| <= |q.embeddings| && MedoidCount(r.newClusters) <= |q.embeddings|
    && (q.mode.Assign? ==>
          && r.newClusters == []
          && forall i :: 0 <= i < |r.assignments| && r.assignments[i].cluster.Some? ==> r.assignments[i].cluster.value in q.medoids)
  }

  lemma DistinctSnoc(xs: seq<string>, x: string)
    ensures Distinct(xs + [x]) <==> Distinct(xs) && x !in xs
  {
    var more := xs + [x];
    if Distinct(more) {
      forall i | 0 <= i < |xs| ensures xs[i] != x { assert more[i] != more[|xs|]; }
      forall i, j | 0 <= i < j < |xs| ensures xs[i] != xs[j] { assert more[i] != more[j]; }
    }
  }

  lemma {:induction false} DistinctPrefix(xs: seq<string>, ys: seq<string>)
    ensures Distinct(xs + ys) ==> Distinct(xs)
  {
    if Distinct(xs + ys) {
      forall i, j | 0 <= i < j < |xs| ensures xs[i] != xs[j] { assert (xs + ys)[i] != (xs + ys)[j]; }
    }
  }

  lemma {:induction false} MembersPrefix(clusters: seq<NewCluster>, k: nat)
    requires k <= |clusters|
    ensures Distinct(AllMembers(clusters)) ==> Distinct(AllMembers(clusters[..k]))
    decreases |clusters|
  {
    if k < |clusters| {
      var n := |clusters| - 1;
      MembersPrefix(clusters[..n], k);
      assert clusters[..n][..k] == clusters[..k];
      DistinctPrefix(AllMembers(clusters[..n]), clusters[n].memberIds);
    } else {
      assert clusters[..k] == clusters;
    }
  }

  // ----- validate_cluster_response -----

  method CheckAssignments(r: Response, q: Request) returns (ok: bool)
    ensures ok <==> (forall i :: 0 <= i < |r.assignments| ==> AssignmentOk(r.assignments[i], q)) && Distinct(AssignedIds(r.assignments))
  {
    var seen: set<string> := {};
    var ids := AssignedIds(r.assignments);
    for i := 0 to |r.assignments|
      invariant seen == StringSet(ids[..i]) && Distinct(ids[..i])
      invariant forall j :: 0 <= j < i ==> AssignmentOk(r.assignments[j], q)
    {
      var a := r.assignments[i];
      DistinctSnoc(ids[..i], a.id);
      assert ids[..i + 1] == ids[..i] + [a.id];
      if !AssignmentOk(a, q) || a.id in seen {
        if a.id in seen {
          assert !Distinct(ids[..i + 1]);
          assert ids == ids[..i + 1] + ids[i + 1..];
          DistinctPrefix(ids[..i + 1], ids[i + 1..]);
        }
        return false;
      }
      seen := seen + {a.id};
    }
    assert ids[..|ids|] == ids;
    ok := true;
  }

  /** The members of one cluster, against those of the clusters before it. */
  method CheckMembers(memberIds: seq<string>, q: Request, before: set<string>) returns (ok: bool, members: set<string>)
    ensures ok <==> (forall i :: 0 <= i < |memberIds| ==> memberIds[i] in q.ids && memberIds[i] !in before) && Distinct(memberIds)
    ensures ok ==> members == before + StringSet(memberIds)
  {
    members := before;
    for i := 0 to |memberIds|
      invariant members == before + StringSet(memberIds[..i]) && Distinct(memberIds[..i])
      invariant forall j :: 0 <= j < i ==> memberIds[j] in q.ids && memberIds[j] !in before
    {
      DistinctSnoc(memberIds[..i], memberIds[i]);
      assert memberIds[..i + 1] == memberIds[..i] + [memberIds[i]];
      if memberIds[i] !in q.ids || memberIds[i] in members {
        if memberIds[i] !in before {
          assert memberIds == memberIds[..i + 1] + memberIds[i + 1..];
          DistinctPrefix(memberIds[..i + 1], memberIds[i + 1..]);
        }
        return false, members;
      }
      members := members + {memberIds[i]};
    }
    assert memberIds[..|memberIds|] == memberIds;
    ok := true;
  }

  lemma DistinctConcat(xs: seq<string>, ys: seq<string>)
    ensures Distinct(xs + ys) <==> Distinct(xs) && Distinct(ys) && forall i :: 0 <= i < |ys| ==> ys[i] !in xs
    ensures StringSet(xs + ys) == StringSet(xs) + StringSet(ys)
  {
    var all := xs + ys;
    if Distinct(all) {
      DistinctPrefix(xs, ys);
      forall i, j | 0 <= i < j < |ys| ensures ys[i] != ys[j] { assert all[|xs| + i] != all[|xs| + j]; }
      forall i, k | 0 <= i < |ys| && 0 <= k < |xs| ensures xs[k] != ys[i] { assert all[k] != all[|xs| + i]; }
    }
  }

  method CheckCluster(c: NewCluster, q: Request, temporary: set<string>, before: set<string>) returns (ok: bool, members: set<string>)
    ensures ok <==>
      && NewClusterOk(c, q) && c.tmpId !in temporary
      && Distinct(c.memberIds) && forall i :: 0 <= i < |c.memberIds| ==> c.memberIds[i] !in before
    ensures ok ==> members == before + StringSet(c.memberIds)
  {
    hide ValidText, Distinct;
    members := before;
    if !ValidText(c.tmpId, MAX_IDENTIFIER) || c.tmpId in temporary
       || |c.memberIds| > MAX_CLUSTER_ROWS || |c.medoidIds| > MAX_CLUSTER_ROWS {
      return false, members;
    }
    ok, members := CheckMembers(c.memberIds, q, members);
    if !ok {
      return;
    }
    if i :| 0 <= i < |c.medoidIds| && (c.medoidIds[i] !in q.ids || c.medoidIds[i] !in c.memberIds) {
      ok := false;
    }
  }

  method CheckClusters(r: Response, q: Request) returns (ok: bool, members: set<string>, medoids: nat)
    ensures ok <==>
      && (forall k :: 0 <= k < |r.newClusters| ==> NewClusterOk(r.newClusters[k], q)) && Distinct(TmpIds(r.newClusters))
      && Distinct(AllMembers(r.newClusters))
    ensures ok ==> members == StringSet(AllMembers(r.newClusters)) && medoids == MedoidCount(r.newClusters)
  {
    hide NewClusterOk, Distinct, ValidText, AllMembers, MedoidCount;
    var cs := r.newClusters;
    var temporary: set<string> := {};
    var ids := TmpIds(cs);
    members, medoids := {}, 0;
    DistinctNone();
    for k := 0 to |cs|
      invariant temporary == StringSet(ids[..k]) && Distinct(ids[..k])
      invariant forall j :: 0 <= j < k ==> NewClusterOk(cs[j], q)
      invariant Distinct(AllMembers(cs[..k])) && members == StringSet(AllMembers(cs[..k])) && medoids == MedoidCount(cs[..k])
    {
      var c := cs[k];
      ClustersSnoc(cs, k);
      DistinctSnoc(ids[..k], c.tmpId);
      assert ids[..k + 1] == ids[..k] + [c.tmpId];
      DistinctConcat(AllMembers(cs[..k]), c.memberIds);
      medoids := medoids + |c.medoidIds|;
      var fine: bool;
      fine, members := CheckCluster(c, q, temporary, members);
      if !fine {
        EarlierFails(cs, k + 1);
        return false, members, medoids;
      }
      temporary := temporary + {c.tmpId};
    }
    assert cs[..|cs|] == cs && ids[..|ids|] == ids;
    ok := true;
  }

  lemma ClustersSnoc(clusters: seq<NewCluster>, k: nat)
    requires k < |clusters|
    ensures AllMembers(clusters[..k + 1]) == AllMembers(clusters[..k]) + clusters[k].memberIds
    ensures MedoidCount(clusters[..k + 1]) == MedoidCount(clusters[..k]) + |clusters[k].medoidIds|
  {
    assert clusters[..k + 1][..k] == clusters[..k];
  }

  /** Clusters that fail already among the first `k` fail as a whole. */
  lemma EarlierFails(clusters: seq<NewCluster>, k: nat)
    requires k <= |clusters|
    ensures Distinct(AllMembers(clusters)) ==> Distinct(AllMembers(clusters[..k]))
    ensures Distinct(TmpIds(clusters)) ==> Distinct(TmpIds(clusters)[..k])
  {
    hide Distinct;
    MembersPrefix(clusters, k);
    var ids := TmpIds(clusters);
    assert ids == ids[..k] + ids[k..];
    DistinctPrefix(ids[..k], ids[k..]);
  }

  lemma DistinctNone()
    ensures Distinct([]) && AllMembers([]) == [] && MedoidCount([]) == 0
  {
  }

  /** `validate_cluster_response`. */
  method ValidateClusterResponse(r: Response, q: Request) returns (ok: bool)
    ensures ok <==> Acceptable(r, q)
  {
    if |r.assignments| > |q.embeddings| || |r.newClusters| > |q.embeddings| {
      return false;
    }
    ok := CheckAssignments(r, q);
    if !ok {
      return false;
    }
    var members, medoids;
    ok, members, medoids := CheckClusters(r, q);
    if !ok || |members| > |q.embeddings| || medoids > |q.embeddings| {
      return false;
    }
    if q.mode.Assign? {
      if r.newClusters != [] {
        return false;
      }
      if i :| 0 <= i < |r.assignments| && r.assignments[i].cluster.Some? && r.assignments[i].cluster.value !in q.medoids {
        return false;
      }
    }
    ok := true;
  }
}
