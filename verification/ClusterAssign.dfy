/** `cluster_assign`: each row goes to the nearest stored cluster it was not rejected from. */
module ClusterAssign {
  import opened Basics
  import opened Clustering
  import opened ClusterContract
  import ClusterService

  /** Python's order of strings. */
  predicate Before(s: string, t: string) {
    if t == "" then false
    else if s == "" then true
    else s[0] < t[0] || (s[0] == t[0] && Before(s[1..], t[1..]))
  }

  lemma {:induction false} BeforeTotal(s: string, t: string)
    ensures Before(s, t) || s == t || Before(t, s)
  {
    if s != "" && t != "" && s[0] == t[0] {
      BeforeTotal(s[1..], t[1..]);
      if s[1..] == t[1..] { assert s == [s[0]] + s[1..] && t == [t[0]] + t[1..]; }
    }
  }

  lemma {:induction false} BeforeTransitive(s: string, t: string, u: string)
    requires Before(s, t) && Before(t, u)
    ensures Before(s, u)
  {
    if s != "" && s[0] == t[0] == u[0] {
      BeforeTransitive(s[1..], t[1..], u[1..]);
    }
  }

  /** The first difference decides, and a proper prefix comes first. */
  lemma {:induction false} BeforeIff(s: string, t: string, k: nat)
    requires k <= |s| && k <= |t| && s[..k] == t[..k]
    requires k == |s| || k == |t| || s[k] != t[k]
    ensures Before(s, t) <==> k < |t| && (k == |s| || s[k] < t[k])
  {
    if k > 0 {
      assert s[0] == s[..k][0] == t[..k][0] == t[0];
      assert s[1..][..k - 1] == s[..k][1..] && t[1..][..k - 1] == t[..k][1..];
      BeforeIff(s[1..], t[1..], k - 1);
    }
  }

  /** The choice `c` is at most the choice `b`: by similarity, then by the cluster's name. */
  predicate AtMost(vector: Vector, medoids: map<string, Vector>, c: string, b: string)
    requires c in medoids && b in medoids && |medoids[c]| == |vector| && |medoids[b]| == |vector|
  {
    var s, t := Similarity(vector, medoids[c]), Similarity(vector, medoids[b]);
    s < t || (s == t && (c == b || Before(c, b)))
  }

  predicate Fits(medoids: map<string, Vector>, dim: nat) {
    forall c :: c in medoids ==> |medoids[c]| == dim
  }

  /** The best cluster the row was not rejected from, if there is one. */
  ghost predicate IsBest(id: string, vector: Vector, medoids: map<string, Vector>, rejected: set<(string, string)>, among: set<string>,
                         best: Option<string>)
    requires Fits(medoids, |vector|) && among <= medoids.Keys
  {
    match best
    case None => forall c :: c in among ==> (id, c) in rejected
    case Some(b) =>
      && b in among && (id, b) !in rejected
      && forall c :: c in among && (id, c) !in rejected ==> AtMost(vector, medoids, c, b)
  }

  method BestCluster(id: string, vector: Vector, medoids: map<string, Vector>, rejected: set<(string, string)>)
    returns (best: Option<string>, similarity: real)
    requires Fits(medoids, |vector|)
    ensures IsBest(id, vector, medoids, rejected, medoids.Keys, best)
    ensures similarity == if best.Some? then Similarity(vector, medoids[best.value]) else 0.0
  {
    hide Similarity;
    best, similarity := None, 0.0;
    var todo := medoids.Keys;
    while todo != {}
      invariant todo <= medoids.Keys && IsBest(id, vector, medoids, rejected, medoids.Keys - todo, best)
      invariant similarity == if best.Some? then Similarity(vector, medoids[best.value]) else 0.0
      decreases todo
    {
      var c :| c in todo;
      todo := todo - {c};
      if (id, c) !in rejected {
        var s := Similarity(vector, medoids[c]);
        if best.None? || s > similarity || (s == similarity && Before(best.value, c)) {
          if best.Some? { Supersedes(id, vector, medoids, rejected, medoids.Keys - todo - {c}, best.value, c); }
          best, similarity := Some(c), s;
        } else {
          BeforeTotal(best.value, c);
        }
      }
    }
    assert medoids.Keys - todo == medoids.Keys;
  }

  lemma Supersedes(id: string, vector: Vector, medoids: map<string, Vector>, rejected: set<(string, string)>, among: set<string>,
                   b: string, c: string)
    requires Fits(medoids, |vector|) && among <= medoids.Keys && IsBest(id, vector, medoids, rejected, among, Some(b))
    requires c in medoids && AtMost(vector, medoids, b, c)
    ensures forall d :: d in among && (id, d) !in rejected ==> AtMost(vector, medoids, d, c)
  {
    forall d | d in among && (id, d) !in rejected ensures AtMost(vector, medoids, d, c) {
      if d != b && b != c && Before(d, b) && Before(b, c) { BeforeTransitive(d, b, c); }
    }
  }

  /** One answer: what the source computes for one unconfirmed row. */
  ghost predicate Answers(a: Assignment, id: string, vector: Vector, medoids: map<string, Vector>, rejected: set<(string, string)>, p: Params)
    requires Fits(medoids, |vector|)
  {
    exists best: Option<string> ::
      && IsBest(id, vector, medoids, rejected, medoids.Keys, best)
      && Placed(a, id, best, if best.Some? then Similarity(vector, medoids[best.value]) else 0.0, p)
  }

  method NormalizeMedoids(medoids: map<string, Vector>, dim: nat, unit: Normaliser) returns (rows: Option<map<string, Vector>>)
    requires Fits(medoids, dim)
    ensures rows.None? <==> exists c :: c in medoids && unit(medoids[c]).None?
    ensures rows.Some? ==> rows.value.Keys == medoids.Keys && Fits(rows.value, dim)
    ensures rows.Some? ==> forall c :: c in medoids ==> unit(medoids[c]) == Some(rows.value[c])
  {
    var out: map<string, Vector> := map[];
    var todo := medoids.Keys;
    while todo != {}
      invariant todo <= medoids.Keys && out.Keys == medoids.Keys - todo && Fits(out, dim)
      invariant forall c :: c in out ==> unit(medoids[c]) == Some(out[c])
      decreases todo
    {
      var c :| c in todo;
      todo := todo - {c};
      var row := unit(medoids[c]);
      if row.None? {
        return None;
      }
      out := out[c := row.value];
    }
    rows := Some(out);
  }

  /** The response answers the unconfirmed rows in order; `order` lists their indices. */
  ghost predicate AnswersRows(q: Request, vectors: seq<Vector>, medoids: map<string, Vector>, p: Params, order: seq<nat>,
                              assignments: seq<Assignment>, upTo: nat)
    requires |vectors| == |q.ids| && SameDimension(vectors, q.dim) && Fits(medoids, q.dim)
  {
    && |order| == |assignments| <= upTo && (forall i, j :: 0 <= i < j < |order| ==> order[i] < order[j])
    && (forall j :: 0 <= j < |order| ==>
          && order[j] < upTo && order[j] < |q.ids| && q.ids[order[j]] !in StringSet(q.confirmed)
          && Answers(assignments[j], q.ids[order[j]], vectors[order[j]], medoids, Rejected(q), p))
    && (forall i :: 0 <= i < upTo && i < |q.ids| && q.ids[i] !in StringSet(q.confirmed) ==> i in order)
  }

  function Rejected(q: Request): set<(string, string)> {
    set i | 0 <= i < |q.rejections| :: q.rejections[i]
  }

  /** The rows and the stored medoids of a request, normalised. */
  ghost predicate Normalised(q: Request, unit: Normaliser, vectors: seq<Vector>, medoids: map<string, Vector>) {
    && |vectors| == |q.ids| == |q.embeddings| && SameDimension(vectors, q.dim) && Fits(medoids, q.dim)
    && (forall i :: 0 <= i < |vectors| ==> unit(q.embeddings[i]) == Some(vectors[i]))
    && medoids.Keys == q.medoids.Keys && (forall c :: c in medoids ==> unit(q.medoids[c]) == Some(medoids[c]))
  }

  ghost predicate CannotNormalise(q: Request, unit: Normaliser) {
    || (exists i :: 0 <= i < |q.embeddings| && unit(q.embeddings[i]).None?)
    || (exists c :: c in q.medoids && unit(q.medoids[c]).None?)
  }

  method ClusterAssign(q: Request, p: Params, unit: Normaliser)
    returns (r: Result<Response, Error>, ghost vectors: seq<Vector>, ghost medoids: map<string, Vector>, ghost order: seq<nat>)
    requires WellFormed(q) && q.mode.Assign? && ValidParams(p)
    ensures r.Err? <==> CannotNormalise(q, unit)
    ensures r.Ok? ==>
      && Acceptable(r.value, q) && r.value.newClusters == []
      && (forall j :: 0 <= j < |r.value.assignments| ==> AboveThresholds(r.value.assignments[j], p))
      && Normalised(q, unit, vectors, medoids)
      && AnswersRows(q, vectors, medoids, p, order, r.value.assignments, |q.ids|)
      && (forall j :: 0 <= j < |r.value.assignments| ==> Sound(r.value.assignments[j], p))
      && (forall i :: 0 <= i < |q.ids| ==> (q.ids[i] in AssignedIds(r.value.assignments) <==> q.ids[i] !in StringSet(q.confirmed)))
  {
    hide WellFormed, Answers, AnswersRows, IsBest, Acceptable, Sound, AboveThresholds, MakeAssignment, Placed, Similarity;
    vectors, medoids, order := [], map[], [];
    RowsFit(q);
    var rows := ClusterService.NormalizeAll(q.embeddings, q.dim, unit);
    if rows.None? {
      return Err(ValueError), vectors, medoids, order;
    }
    var known := NormalizeMedoids(q.medoids, q.dim, unit);
    if known.None? {
      return Err(ValueError), vectors, medoids, order;
    }
    vectors, medoids := rows.value, known.value;
    NoAnswers(q, vectors, medoids, p);
    var confirmed, rejected := StringSet(q.confirmed), Rejected(q);
    var assignments: seq<Assignment> := [];
    for i := 0 to |q.ids|
      invariant AnswersRows(q, vectors, medoids, p, order, assignments, i)
    {
      NextRow(q, vectors, medoids, p, order, assignments, i);
      if q.ids[i] !in confirmed {
        var best, similarity := BestCluster(q.ids[i], rows.value[i], known.value, rejected);
        var a := MakeAssignment(q.ids[i], best, similarity, p);
        MakesPlaced(q.ids[i], best, similarity, p);
        AnswersNext(q, vectors, medoids, p, order, assignments, i, a, best);
        assignments, order := assignments + [a], order + [i];
      }
    }
    AnswersAcceptable(q, vectors, medoids, p, order, assignments);
    r := Ok(Response(assignments, []));
  }

  lemma RowsFit(q: Request)
    requires WellFormed(q)
    ensures |q.ids| == |q.embeddings| && SameDimension(q.embeddings, q.dim) && Fits(q.medoids, q.dim)
  {
  }

  /** A confirmed row is passed over. */
  lemma NextRow(q: Request, vectors: seq<Vector>, medoids: map<string, Vector>, p: Params, order: seq<nat>,
                assignments: seq<Assignment>, i: nat)
    requires |vectors| == |q.ids| && SameDimension(vectors, q.dim) && Fits(medoids, q.dim) && i < |q.ids|
    requires AnswersRows(q, vectors, medoids, p, order, assignments, i)
    ensures |vectors[i]| == q.dim
    ensures q.ids[i] in StringSet(q.confirmed) ==> AnswersRows(q, vectors, medoids, p, order, assignments, i + 1)
  {
    hide Answers;
  }

  lemma NoAnswers(q: Request, vectors: seq<Vector>, medoids: map<string, Vector>, p: Params)
    requires |vectors| == |q.ids| && SameDimension(vectors, q.dim) && Fits(medoids, q.dim)
    ensures AnswersRows(q, vectors, medoids, p, [], [], 0)
  {
  }

  lemma AnswersNext(q: Request, vectors: seq<Vector>, medoids: map<string, Vector>, p: Params, order: seq<nat>,
                    assignments: seq<Assignment>, i: nat, a: Assignment, best: Option<string>)
    requires |vectors| == |q.ids| && SameDimension(vectors, q.dim) && Fits(medoids, q.dim) && i < |q.ids|
    requires AnswersRows(q, vectors, medoids, p, order, assignments, i) && q.ids[i] !in StringSet(q.confirmed)
    requires IsBest(q.ids[i], vectors[i], medoids, Rejected(q), medoids.Keys, best)
    requires Placed(a, q.ids[i], best, if best.Some? then Similarity(vectors[i], medoids[best.value]) else 0.0, p)
    ensures AnswersRows(q, vectors, medoids, p, order + [i], assignments + [a], i + 1)
  {
    assert Answers(a, q.ids[i], vectors[i], medoids, Rejected(q), p);
    hide Answers;
    var more := order + [i];
    forall l | 0 <= l < i + 1 && l < |q.ids| && q.ids[l] !in StringSet(q.confirmed) ensures l in more {
      if l < i { assert l in order; } else { assert more[|order|] == l; }
    }
  }

  lemma AnswerSound(a: Assignment, id: string, vector: Vector, medoids: map<string, Vector>, rejected: set<(string, string)>, p: Params)
    requires Fits(medoids, |vector|) && Answers(a, id, vector, medoids, rejected, p)
    ensures a.id == id && Sound(a, p) && (a.cluster.Some? ==> a.cluster.value in medoids)
  {
    var best: Option<string> :|
      && IsBest(id, vector, medoids, rejected, medoids.Keys, best)
      && Placed(a, id, best, if best.Some? then Similarity(vector, medoids[best.value]) else 0.0, p);
    AssignmentSound(a, id, best, if best.Some? then Similarity(vector, medoids[best.value]) else 0.0, p);
  }

  lemma AnswersAcceptable(q: Request, vectors: seq<Vector>, medoids: map<string, Vector>, p: Params, order: seq<nat>,
                          assignments: seq<Assignment>)
    requires WellFormed(q) && q.mode.Assign? && medoids.Keys == q.medoids.Keys
    requires |vectors| == |q.ids| && SameDimension(vectors, q.dim) && Fits(medoids, q.dim)
    requires AnswersRows(q, vectors, medoids, p, order, assignments, |q.ids|)
    ensures Acceptable(Response(assignments, []), q)
    ensures forall j :: 0 <= j < |assignments| ==> Sound(assignments[j], p) && AboveThresholds(assignments[j], p)
    ensures forall i :: 0 <= i < |q.ids| ==> (q.ids[i] in AssignedIds(assignments) <==> q.ids[i] !in StringSet(q.confirmed))
  {
    hide Answers, ValidText, AboveThresholds, Sound, StateFits;
    forall j | 0 <= j < |assignments|
      ensures assignments[j].id == q.ids[order[j]] && Sound(assignments[j], p) && AboveThresholds(assignments[j], p) && AssignmentOk(assignments[j], q)
      ensures assignments[j].cluster.Some? ==> assignments[j].cluster.value in q.medoids
    {
      AnswerSound(assignments[j], q.ids[order[j]], vectors[order[j]], medoids, Rejected(q), p);
      SoundIsAbove(assignments[j], p);
    }
    var names := AssignedIds(assignments);
    forall i, j | 0 <= i < j < |names| ensures names[i] != names[j] {
      ClusterService.SameIndex(q.ids, order[i], order[j]);
    }
    forall i | 0 <= i < |q.ids| ensures q.ids[i] in names <==> q.ids[i] !in StringSet(q.confirmed) {
      if q.ids[i] !in StringSet(q.confirmed) {
        var j :| 0 <= j < |order| && order[j] == i;
        assert names[j] == q.ids[i];
      }
    }
  }
}
