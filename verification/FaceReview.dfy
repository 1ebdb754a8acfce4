/** The face tables: what analysis, clustering and review may do to a face. */
module FaceReview {
  import opened Basics
  import Clustering
  import ClusterContract

  type FaceId = string
  type ClusterId = string

  datatype FaceState = Auto | Confirmed | Candidate | Rejected | Unassigned

  datatype Face = Face(asset: AssetId, modelVersion: string, cluster: Option<ClusterId>, state: FaceState, similarity: Option<real>)

  datatype Instance = Instance(kind: string, qualityPassed: bool)

  predicate KnownKind(kind: string) { kind in {"person", "head", "face"} }

  datatype Error = InvalidMl | ClusterNotFound | FaceNotFound

  type Outcome<T> = Result<T, Error>

  function NewState(s: Clustering.State): FaceState {
    match s
    case Auto => Auto
    case Candidate => Candidate
    case Unassigned => Unassigned
  }

  /** The face has followed its assignment into the stored cluster `u`, unless that is unknown or rejected for it. */
  predicate Joined(face: Face, a: Clustering.Assignment, u: ClusterId, clusters: set<ClusterId>, rejections: set<(FaceId, ClusterId)>) {
    if u in clusters && (a.id, u) !in rejections
    then face.cluster == Some(u) && (face.state.Auto? <==> a.state.Auto?) && (face.state.Candidate? <==> a.state.Candidate?)
         && (face.state.Auto? || face.state.Candidate?)
    else face.cluster.None? && face.state.Unassigned?
  }

  /** What an assignment makes of an undecided face: a temporary id stands for the name it is mapped to, any other for itself. */
  predicate Followed(before: Face, face: Face, a: Clustering.Assignment, mapping: map<string, ClusterId>, clusters: set<ClusterId>,
                     rejections: set<(FaceId, ClusterId)>) {
    && face.asset == before.asset && face.modelVersion == before.modelVersion && face.similarity == Some(a.similarity)
    && (a.cluster.None? ==> face.cluster.None? && face.state.Unassigned?)
    && (a.cluster.Some? && a.cluster.value in mapping ==> Joined(face, a, mapping[a.cluster.value], clusters, rejections))
    && (a.cluster.Some? && a.cluster.value !in mapping ==> Joined(face, a, a.cluster.value, clusters, rejections))
  }

  /** A decided face stays, an undecided one follows. */
  predicate Stored(before: Face, face: Face, a: Clustering.Assignment, mapping: map<string, ClusterId>, clusters: set<ClusterId>,
                   rejections: set<(FaceId, ClusterId)>) {
    if before.state.Confirmed? || before.state.Rejected? then face == before
    else Followed(before, face, a, mapping, clusters, rejections)
  }

  /** The clusters stored for the first `k` of the response, and the names their temporary ids get. */
  function Kept(news: seq<Clustering.NewCluster>, minimum: nat, names: seq<ClusterId>, k: nat): set<ClusterId>
    requires k <= |news| == |names|
  {
    if k == 0 then {} else Kept(news, minimum, names, k - 1) + if |news[k - 1].memberIds| >= minimum then {names[k - 1]} else {}
  }

  function Mapping(news: seq<Clustering.NewCluster>, minimum: nat, names: seq<ClusterId>, k: nat): map<string, ClusterId>
    requires k <= |news| == |names|
  {
    if k == 0 then map[]
    else if |news[k - 1].memberIds| >= minimum then Mapping(news, minimum, names, k - 1)[news[k - 1].tmpId := names[k - 1]]
    else Mapping(news, minimum, names, k - 1)
  }

  /** A mapped id is the temporary id of a kept cluster. */
  lemma {:induction false} MappedIndex(news: seq<Clustering.NewCluster>, minimum: nat, names: seq<ClusterId>, k: nat, t: string)
    returns (j: nat)
    requires k <= |news| == |names| && t in Mapping(news, minimum, names, k)
    ensures j < k && |news[j].memberIds| >= minimum && news[j].tmpId == t
  {
    if |news[k - 1].memberIds| >= minimum && news[k - 1].tmpId == t {
      j := k - 1;
    } else {
      j := MappedIndex(news, minimum, names, k - 1, t);
    }
  }

  lemma {:induction false} KeptIsMapped(news: seq<Clustering.NewCluster>, minimum: nat, names: seq<ClusterId>, k: nat, j: nat)
    requires j < k <= |news| == |names| && |news[j].memberIds| >= minimum && ClusterContract.Distinct(ClusterContract.TmpIds(news))
    ensures news[j].tmpId in Mapping(news, minimum, names, k) && Mapping(news, minimum, names, k)[news[j].tmpId] == names[j]
  {
    if j < k - 1 {
      KeptIsMapped(news, minimum, names, k - 1, j);
      assert ClusterContract.TmpIds(news)[j] != ClusterContract.TmpIds(news)[k - 1];
    }
  }

  lemma {:induction false} KeptHas(news: seq<Clustering.NewCluster>, minimum: nat, names: seq<ClusterId>, k: nat, j: nat)
    requires j < k <= |news| == |names| && |news[j].memberIds| >= minimum
    ensures names[j] in Kept(news, minimum, names, k)
  {
    if j < k - 1 {
      KeptHas(news, minimum, names, k - 1, j);
    }
  }

  /** With distinct temporary ids each kept cluster gets its own name, and no other id gets one. */
  lemma MappingNames(news: seq<Clustering.NewCluster>, minimum: nat, names: seq<ClusterId>)
    requires |news| == |names| && ClusterContract.Distinct(ClusterContract.TmpIds(news))
    ensures var m := Mapping(news, minimum, names, |news|);
      && (forall j :: 0 <= j < |news| && |news[j].memberIds| >= minimum ==> news[j].tmpId in m && m[news[j].tmpId] == names[j])
      && (forall t :: t in m ==> exists j :: 0 <= j < |news| && |news[j].memberIds| >= minimum && news[j].tmpId == t)
  {
    hide Mapping, ClusterContract.Distinct;
    var m := Mapping(news, minimum, names, |news|);
    forall j | 0 <= j < |news| && |news[j].memberIds| >= minimum ensures news[j].tmpId in m && m[news[j].tmpId] == names[j] {
      KeptIsMapped(news, minimum, names, |news|, j);
    }
    forall t | t in m ensures exists j :: 0 <= j < |news| && |news[j].memberIds| >= minimum && news[j].tmpId == t {
      var j := MappedIndex(news, minimum, names, |news|, t);
    }
  }

  /** A response that the client accepts meets what the store asks of its assignments and temporary ids. */
  lemma AcceptedCanBeApplied(r: Clustering.Response, q: ClusterContract.Request)
    requires ClusterContract.Acceptable(r, q)
    ensures forall i :: 0 <= i < |r.assignments| ==> Clustering.StateFits(r.assignments[i])
    ensures ClusterContract.Distinct(ClusterContract.AssignedIds(r.assignments))
    ensures ClusterContract.Distinct(ClusterContract.TmpIds(r.newClusters))
  {
    hide ClusterContract.Distinct, ClusterContract.ValidText;
    forall i | 0 <= i < |r.assignments| ensures Clustering.StateFits(r.assignments[i]) {
      assert ClusterContract.AssignmentOk(r.assignments[i], q);
    }
  }

  lemma NotBefore(names: seq<string>, i: nat)
    requires ClusterContract.Distinct(names) && i < |names|
    ensures names[i] !in names[..i]
  {
  }

  /** An undecided face that was assigned to a cluster of the response ends in the cluster stored under `name`, with the state
      and the similarity it was assigned with. */
  predicate InKept(before: map<FaceId, Face>, after: map<FaceId, Face>, a: Clustering.Assignment, kept: Clustering.NewCluster,
                   name: ClusterId, rejections: set<(FaceId, ClusterId)>)
  {
    a.cluster == Some(kept.tmpId) && a.id in before && a.id in after && !before[a.id].state.Confirmed? && !before[a.id].state.Rejected?
    && (a.id, name) !in rejections ==>
      && after[a.id].cluster == Some(name) && after[a.id].similarity == Some(a.similarity)
      && (a.state.Auto? ==> after[a.id].state.Auto?) && (a.state.Candidate? ==> after[a.id].state.Candidate?)
  }

  lemma JoinsKept(before: map<FaceId, Face>, after: map<FaceId, Face>, a: Clustering.Assignment, kept: Clustering.NewCluster,
                  name: ClusterId, mapping: map<string, ClusterId>, clusters: set<ClusterId>, rejections: set<(FaceId, ClusterId)>)
    requires kept.tmpId in mapping && mapping[kept.tmpId] == name && name in clusters
    requires a.id in before && a.id in after ==> Stored(before[a.id], after[a.id], a, mapping, clusters, rejections)
    ensures InKept(before, after, a, kept, name, rejections)
  {
  }

  class FaceStore {
    var faces: map<FaceId, Face>
    var clusters: set<ClusterId>
    var rejections: set<(FaceId, ClusterId)>

    /** No face is in a cluster it was rejected from, and a face has no cluster exactly when it is
        unassigned or rejected.  Foreign keys hold. */
    ghost predicate Valid()
      reads this
    {
      && (forall f :: f in faces ==>
            && (faces[f].cluster.None? <==> faces[f].state.Unassigned? || faces[f].state.Rejected?)
            && (faces[f].cluster.Some? ==> faces[f].cluster.value in clusters && (f, faces[f].cluster.value) !in rejections))
      && (forall r :: r in rejections ==> r.0 in faces && r.1 in clusters)
    }

    constructor ()
      ensures Valid() && faces == map[]
    {
      faces, clusters, rejections := map[], {}, {};
    }

    predicate Analyzed(asset: AssetId, modelVersion: string)
      reads this
    {
      exists f :: f in faces && faces[f].asset == asset && faces[f].modelVersion == modelVersion
    }

    /** `persist_analysis`: `names` are the fresh ids, one an instance. */
    method PersistAnalysis(asset: AssetId, modelVersion: string, instances: seq<Instance>, strict: bool, names: seq<FaceId>)
      returns (r: Outcome<seq<FaceId>>)
      requires Valid() && |names| == |instances| && (forall i :: 0 <= i < |names| ==> names[i] !in faces)
      requires forall i, j :: 0 <= i < j < |names| ==> names[i] != names[j]
      modifies this`faces
      ensures Valid()
      ensures forall f :: f in old(faces) ==> f in faces && faces[f] == old(faces)[f]
      ensures r.Err? <==> (!old(Analyzed(asset, modelVersion)) &&
        exists i :: 0 <= i < |instances| && instances[i].kind != "person" && instances[i].kind != "head" && instances[i].kind != "face")
      ensures r.Err? ==> r.error.InvalidMl? && faces == old(faces)
      ensures old(Analyzed(asset, modelVersion)) ==> r == Ok([]) && faces == old(faces)
      ensures r.Ok? && !old(Analyzed(asset, modelVersion)) ==>
        && (forall i :: 0 <= i < |names| ==> (names[i] in faces <==> !strict || instances[i].qualityPassed))
        && (forall f :: f in faces && f !in old(faces) ==> f in names && faces[f] == Face(asset, modelVersion, None, Unassigned, None))
        && (forall f :: f in r.value <==> f in faces && f !in old(faces))
    {
      if Analyzed(asset, modelVersion) {
        return Ok([]);
      }
      var before := faces;
      var inserted: seq<FaceId> := [];
      for i := 0 to |instances|
        invariant Valid() && (forall f :: f in before ==> f in faces && faces[f] == before[f])
        invariant forall j :: 0 <= j < i ==> KnownKind(instances[j].kind)
        invariant forall j :: 0 <= j < i ==> (names[j] in faces <==> !strict || instances[j].qualityPassed)
        invariant forall j :: i <= j < |names| ==> names[j] !in faces
        invariant forall f :: f in faces && f !in before ==> f in names && faces[f] == Face(asset, modelVersion, None, Unassigned, None)
        invariant forall f :: f in inserted <==> f in faces && f !in before
      {
        if !KnownKind(instances[i].kind) {
          faces := before;
          return Err(InvalidMl);
        }
        if strict && !instances[i].qualityPassed {
          continue;
        }
        faces := faces[names[i] := Face(asset, modelVersion, None, Unassigned, None)];
        inserted := inserted + [names[i]];
      }
      r := Ok(inserted);
    }

    method ApplyOne(a: Clustering.Assignment, mapping: map<string, ClusterId>)
      requires Valid() && Clustering.StateFits(a)
      modifies this`faces
      ensures Valid() && faces.Keys == old(faces).Keys && forall f :: f in faces && f != a.id ==> faces[f] == old(faces)[f]
      ensures a.id in faces ==> Stored(old(faces)[a.id], faces[a.id], a, mapping, clusters, rejections)
    {
      if a.id !in faces {
        return;
      }
      if faces[a.id].state.Confirmed? || faces[a.id].state.Rejected? {
        return;
      }
      var cluster: Option<ClusterId> := None;
      if a.cluster.Some? {
        cluster := Some(if a.cluster.value in mapping then mapping[a.cluster.value] else a.cluster.value);
        if cluster.value !in clusters || (a.id, cluster.value) in rejections {
          cluster := None;
        }
      }
      var state := if cluster.None? then Unassigned else NewState(a.state);
      faces := faces[a.id := faces[a.id].(cluster := cluster, state := state, similarity := Some(a.similarity))];
    }

    /** `apply_assignments`. */
    method ApplyAssignments(assignments: seq<Clustering.Assignment>, mapping: map<string, ClusterId>)
      requires Valid() && forall i :: 0 <= i < |assignments| ==> Clustering.StateFits(assignments[i])
      requires ClusterContract.Distinct(ClusterContract.AssignedIds(assignments))
      modifies this`faces
      ensures Valid() && faces.Keys == old(faces).Keys
      ensures forall i :: 0 <= i < |assignments| && assignments[i].id in faces ==>
        Stored(old(faces)[assignments[i].id], faces[assignments[i].id], assignments[i], mapping, clusters, rejections)
      ensures forall f :: f in faces && f !in ClusterContract.AssignedIds(assignments) ==> faces[f] == old(faces)[f]
      ensures forall f :: f in faces && (old(faces)[f].state.Confirmed? || old(faces)[f].state.Rejected?) ==> faces[f] == old(faces)[f]
    {
      hide Followed, Valid, ClusterContract.Distinct, Clustering.StateFits;
      ghost var names := ClusterContract.AssignedIds(assignments);
      for i := 0 to |assignments|
        invariant Valid() && faces.Keys == old(faces).Keys
        invariant forall j :: 0 <= j < i && assignments[j].id in faces ==>
          Stored(old(faces)[assignments[j].id], faces[assignments[j].id], assignments[j], mapping, clusters, rejections)
        invariant forall f :: f in faces && f !in names[..i] ==> faces[f] == old(faces)[f]
      {
        var a := assignments[i];
        NotBefore(names, i);
        assert names[..i + 1] == names[..i] + [a.id];
        ApplyOne(a, mapping);
      }
      assert names[..|names|] == names;
      forall f | f in faces && (old(faces)[f].state.Confirmed? || old(faces)[f].state.Rejected?) ensures faces[f] == old(faces)[f] {
        if f in names {
          var i :| 0 <= i < |names| && names[i] == f;
          assert Stored(old(faces)[f], faces[f], assignments[i], mapping, clusters, rejections);
        }
      }
    }

    /** `apply_full_clustering`: `names` are the fresh ids of the clusters kept. */
    method ApplyFullClustering(assignments: seq<Clustering.Assignment>, news: seq<Clustering.NewCluster>, minimum: nat, names: seq<ClusterId>)
      returns (mapping: map<string, ClusterId>)
      requires Valid() && forall i :: 0 <= i < |assignments| ==> Clustering.StateFits(assignments[i])
      requires ClusterContract.Distinct(ClusterContract.AssignedIds(assignments))
      requires |names| == |news|
      modifies this`faces, this`clusters
      ensures Valid() && faces.Keys == old(faces).Keys
      ensures mapping == Mapping(news, minimum, names, |news|) && clusters == old(clusters) + Kept(news, minimum, names, |news|)
      ensures forall i :: 0 <= i < |assignments| && assignments[i].id in faces ==>
        Stored(old(faces)[assignments[i].id], faces[assignments[i].id], assignments[i], mapping, clusters, rejections)
      ensures forall f :: f in faces && f !in ClusterContract.AssignedIds(assignments) ==> faces[f] == old(faces)[f]
      ensures forall f :: f in faces && (old(faces)[f].state.Confirmed? || old(faces)[f].state.Rejected?) ==> faces[f] == old(faces)[f]
      ensures ClusterContract.Distinct(ClusterContract.TmpIds(news)) ==>
        forall i, j :: 0 <= i < |assignments| && 0 <= j < |news| && |news[j].memberIds| >= minimum ==>
          InKept(old(faces), faces, assignments[i], news[j], names[j], rejections)
    {
      hide Stored, ClusterContract.Distinct;
      mapping := map[];
      for k := 0 to |news|
        invariant Valid() && faces == old(faces)
        invariant mapping == Mapping(news, minimum, names, k) && clusters == old(clusters) + Kept(news, minimum, names, k)
      {
        if |news[k].memberIds| >= minimum {
          clusters := clusters + {names[k]};
          mapping := mapping[news[k].tmpId := names[k]];
        }
      }
      ApplyAssignments(assignments, mapping);
      if ClusterContract.Distinct(ClusterContract.TmpIds(news)) {
        MappingNames(news, minimum, names);
        hide Mapping, Kept;
        forall i, j | 0 <= i < |assignments| && 0 <= j < |news| && |news[j].memberIds| >= minimum
          ensures InKept(old(faces), faces, assignments[i], news[j], names[j], rejections)
        {
          KeptHas(news, minimum, names, |news|, j);
          JoinsKept(old(faces), faces, assignments[i], news[j], names[j], mapping, clusters, rejections);
        }
      }
    }

    /** `merge_clusters`. */
    method MergeClusters(from: ClusterId, into: ClusterId) returns (r: Outcome<()>)
      requires Valid()
      modifies this
      ensures Valid()
      ensures r == if from == into then Err(InvalidMl) else if from !in old(clusters) || into !in old(clusters) then Err(ClusterNotFound) else Ok(())
      ensures r.Err? ==> unchanged(this)
      ensures r.Ok? ==>
        && clusters == old(clusters) - {from} && faces.Keys == old(faces).Keys
        && (forall f :: f in faces ==> faces[f] == if old(faces)[f].cluster == Some(from) then old(faces)[f].(cluster := Some(into)) else old(faces)[f])
        && (forall x :: x in rejections <==>
              x in old(rejections) && x.1 != from && !(x.1 == into && old(faces)[x.0].cluster == Some(from)))
    {
      if from == into {
        return Err(InvalidMl);
      }
      if from !in clusters || into !in clusters {
        return Err(ClusterNotFound);
      }
      rejections := set x | x in rejections && !(x.1 == into && x.0 in faces && faces[x.0].cluster == Some(from));
      faces := map f | f in faces :: if faces[f].cluster == Some(from) then faces[f].(cluster := Some(into)) else faces[f];
      // DELETE FROM clusters, cascading to its rejections.
      clusters := clusters - {from};
      rejections := set x | x in rejections && x.1 != from;
      r := Ok(());
    }

    /** `split_cluster`: `name` is the fresh id of the new cluster. */
    method SplitCluster(cluster: ClusterId, faceIds: seq<FaceId>, name: ClusterId) returns (r: Outcome<()>)
      requires Valid() && name !in clusters
      modifies this
      ensures Valid()
      ensures r.Ok? <==>
        && faceIds != [] && |faceIds| <= ClusterContract.MAX_CLUSTER_ROWS && ClusterContract.Distinct(faceIds) && cluster in old(clusters)
        && forall i :: 0 <= i < |faceIds| ==> faceIds[i] in old(faces) && old(faces)[faceIds[i]].cluster == Some(cluster)
      ensures r.Err? ==> unchanged(this)
      ensures r.Ok? ==>
        && clusters == old(clusters) + {name} && rejections == old(rejections) && faces.Keys == old(faces).Keys
        && forall f :: f in faces ==>
             faces[f] == if f in faceIds then old(faces)[f].(cluster := Some(name), state := Confirmed, similarity := None) else old(faces)[f]
    {
      if faceIds == [] || |faceIds| > ClusterContract.MAX_CLUSTER_ROWS || !ClusterContract.Distinct(faceIds) {
        return Err(InvalidMl);
      }
      if cluster !in clusters {
        return Err(ClusterNotFound);
      }
      if i :| 0 <= i < |faceIds| && !(faceIds[i] in faces && faces[faceIds[i]].cluster == Some(cluster)) {
        return Err(InvalidMl);
      }
      clusters := clusters + {name};
      faces := map f | f in faces :: if f in faceIds then faces[f].(cluster := Some(name), state := Confirmed, similarity := None) else faces[f];
      r := Ok(());
    }

    /** `review_candidate`. */
    method ReviewCandidate(f: FaceId, accept: bool) returns (r: Outcome<Face>)
      requires Valid()
      modifies this
      ensures Valid() && clusters == old(clusters)
      ensures r.Ok? <==> f in old(faces) && old(faces)[f].state.Candidate?
      ensures r.Err? ==> unchanged(this) && r.error.FaceNotFound?
      ensures r.Ok? ==>
        && old(faces)[f].cluster.Some?
        && faces == old(faces)[f := r.value]
        && (if accept then r.value == old(faces)[f].(state := Confirmed) && rejections == old(rejections)
            else r.value == old(faces)[f].(state := Rejected, cluster := None)
                 && rejections == old(rejections) + {(f, old(faces)[f].cluster.value)})
    {
      if f !in faces || !faces[f].state.Candidate? {
        return Err(FaceNotFound);
      }
      if accept {
        faces := faces[f := faces[f].(state := Confirmed)];
      } else {
        rejections := rejections + {(f, faces[f].cluster.value)};
        faces := faces[f := faces[f].(state := Rejected, cluster := None)];
      }
      r := Ok(faces[f]);
    }
  }
}
