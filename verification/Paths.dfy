/** Paths and reachability in the dependency graph: the specification of the searches. */
module Paths {
  type Edges = map<string, seq<string>>

  function Succ(e: Edges, n: string): seq<string> {
    if n in e then e[n] else []
  }

  ghost predicate IsPath(e: Edges, p: seq<string>) {
    && p != []
    && forall i, j :: 0 <= i && j == i + 1 < |p| ==> Linked(e, p[i], p[j])
  }

  ghost predicate Linked(e: Edges, a: string, b: string) { b in Succ(e, a) }

  ghost predicate PathBetween(e: Edges, p: seq<string>, a: string, b: string) {
    IsPath(e, p) && p[0] == a && p[|p| - 1] == b
  }

  ghost predicate Reaches(e: Edges, a: string, b: string) {
    exists p :: PathBetween(e, p, a, b)
  }

  ghost predicate ReachesAny(e: Edges, starts: seq<string>, b: string) {
    exists a :: a in starts && Reaches(e, a, b)
  }

  /** p is a path from a to b and no path from a to b is shorter. */
  ghost predicate Shortest(e: Edges, p: seq<string>, a: string, b: string) {
    PathBetween(e, p, a, b) && forall q :: PathBetween(e, q, a, b) ==> |p| <= |q|
  }

  ghost function Nodes(e: Edges): set<string> {
    e.Keys + set k, v | k in e.Keys && v in e[k] :: v
  }

  /** The nodes a search from starts can meet. */
  ghost function ReachSet(e: Edges, starts: seq<string>): set<string> {
    set n | n in Nodes(e) + (set s | s in starts) && ReachesAny(e, starts, n)
  }

  ghost predicate SubGraph(e: Edges, f: Edges) {
    forall a, b :: Linked(e, a, b) ==> Linked(f, a, b)
  }

  lemma ReachesSelf(e: Edges, a: string)
    ensures Reaches(e, a, a)
  {
    assert PathBetween(e, [a], a, a);
  }

  lemma Extend(e: Edges, p: seq<string>, a: string, b: string, c: string)
    requires PathBetween(e, p, a, b) && c in Succ(e, b)
    ensures PathBetween(e, p + [c], a, c)
  {
    var q := p + [c];
    forall i, j | 0 <= i && j == i + 1 < |q| ensures Linked(e, q[i], q[j]) {
      if j < |p| { assert Linked(e, p[i], p[j]); }
    }
  }

  lemma ReachesStep(e: Edges, a: string, b: string, c: string)
    requires Reaches(e, a, b) && c in Succ(e, b)
    ensures Reaches(e, a, c)
  {
    var p :| PathBetween(e, p, a, b);
    Extend(e, p, a, b, c);
  }

  /** A set that holds a path's first node and is closed along the path holds all of it. */
  lemma {:induction false} ClosedHoldsPath(e: Edges, s: set<string>, p: seq<string>, k: nat)
    requires IsPath(e, p) && k < |p| && p[0] in s
    requires forall u, v :: u in s && v in Succ(e, u) ==> v in s
    ensures p[k] in s
  {
    if k > 0 {
      ClosedHoldsPath(e, s, p, k - 1);
      assert Linked(e, p[k - 1], p[k]);
    }
  }

  /** The last step of a path: a node other than the start is entered through some edge. */
  lemma ReachedThroughPredecessor(e: Edges, a: string, b: string)
    requires Reaches(e, a, b) && a != b
    ensures exists u :: Reaches(e, a, u) && b in Succ(e, u)
  {
    var p :| PathBetween(e, p, a, b);
    var n := |p| - 1;
    var q := p[..n];
    assert Linked(e, p[n - 1], p[n]);
    forall i, j | 0 <= i && j == i + 1 < |q| ensures Linked(e, q[i], q[j]) {
      assert Linked(e, p[i], p[j]);
    }
    assert PathBetween(e, q, a, p[n - 1]);
  }

  lemma ReachSetHolds(e: Edges, starts: seq<string>, a: string, b: string)
    requires a in starts && Reaches(e, a, b)
    ensures b in ReachSet(e, starts)
  {
    if a != b {
      ReachedThroughPredecessor(e, a, b);
      assert b in Nodes(e);
    }
    assert ReachesAny(e, starts, b);
  }

  /** A path of the larger graph stays in the smaller one, or leaves it by a first step that the smaller one lacks. */
  lemma {:induction false} FirstStepOut(e: Edges, f: Edges, p: seq<string>, a: string, b: string)
    requires PathBetween(f, p, a, b)
    ensures || Reaches(e, a, b)
            || exists u, v :: Reaches(e, a, u) && Linked(f, u, v) && !Linked(e, u, v) && Reaches(f, v, b)
    decreases |p|
  {
    hide Linked;
    if |p| == 1 {
      ReachesSelf(e, a);
    } else {
      var n := |p| - 1;
      var q, u := p[..n], p[n - 1];
      assert Linked(f, u, b);
      assert PathBetween(f, q, a, u) by {
        forall i, j | 0 <= i && j == i + 1 < |q| ensures Linked(f, q[i], q[j]) { assert Linked(f, p[i], p[j]); }
      }
      FirstStepOut(e, f, q, a, u);
      LastStep(e, f, a, u, b);
    }
  }

  lemma ReachesOut(e: Edges, f: Edges, a: string, b: string)
    requires Reaches(f, a, b)
    ensures || Reaches(e, a, b)
            || exists u, v :: Reaches(e, a, u) && Linked(f, u, v) && !Linked(e, u, v) && Reaches(f, v, b)
  {
    hide Linked;
    var p :| PathBetween(f, p, a, b);
    FirstStepOut(e, f, p, a, b);
  }

  lemma LastStep(e: Edges, f: Edges, a: string, u: string, b: string)
    requires Linked(f, u, b)
    requires || Reaches(e, a, u)
             || exists x, v :: Reaches(e, a, x) && Linked(f, x, v) && !Linked(e, x, v) && Reaches(f, v, u)
    ensures || Reaches(e, a, b)
            || exists x, v :: Reaches(e, a, x) && Linked(f, x, v) && !Linked(e, x, v) && Reaches(f, v, b)
  {
    if Reaches(e, a, u) {
      if Linked(e, u, b) {
        ReachesStep(e, a, u, b);
      } else {
        ReachesSelf(f, b);
      }
    } else {
      var x, v :| Reaches(e, a, x) && Linked(f, x, v) && !Linked(e, x, v) && Reaches(f, v, u);
      ReachesStep(f, v, u, b);
    }
  }

  lemma SameLinks(e: Edges, f: Edges, a: string, b: string)
    requires forall x, y :: Linked(e, x, y) <==> Linked(f, x, y)
    ensures Reaches(e, a, b) <==> Reaches(f, a, b)
  {
    if Reaches(e, a, b) { ReachesMonotone(e, f, a, b); }
    if Reaches(f, a, b) { ReachesMonotone(f, e, a, b); }
  }

  lemma ReachesFromStep(e: Edges, a: string, b: string, c: string)
    requires Linked(e, a, b) && Reaches(e, b, c)
    ensures Reaches(e, a, c)
  {
    var p :| PathBetween(e, p, b, c);
    var q := [a] + p;
    forall i, j | 0 <= i && j == i + 1 < |q| ensures Linked(e, q[i], q[j]) {
      if i > 0 { assert Linked(e, p[i - 1], p[i]); }
    }
    assert PathBetween(e, q, a, c);
  }

  /** Two paths end to end. */
  lemma ReachesThrough(e: Edges, a: string, b: string, c: string)
    requires Reaches(e, a, b) && Reaches(e, b, c)
    ensures Reaches(e, a, c)
  {
    var p, q :| PathBetween(e, p, a, b) && PathBetween(e, q, b, c);
    var r := p[..|p| - 1] + q;
    forall i, j | 0 <= i && j == i + 1 < |r| ensures Linked(e, r[i], r[j]) {
      if j < |p| {
        assert Linked(e, p[i], p[j]);
      } else {
        assert Linked(e, q[i - (|p| - 1)], q[j - (|p| - 1)]);
      }
    }
    assert PathBetween(e, r, a, c);
  }

  lemma ReachesMonotone(e: Edges, f: Edges, a: string, b: string)
    requires SubGraph(e, f) && Reaches(e, a, b)
    ensures Reaches(f, a, b)
  {
    var p :| PathBetween(e, p, a, b);
    forall i, j | 0 <= i && j == i + 1 < |p| ensures Linked(f, p[i], p[j]) {
      assert Linked(e, p[i], p[j]);
    }
    assert PathBetween(f, p, a, b);
  }
}
