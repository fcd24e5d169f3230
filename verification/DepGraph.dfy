/** The lockfile dependency graph: its list helpers, how edges are added, and its searches.
    The graph object keeps the fields that the loaders fill step by step. */
module DepGraphs {
  import opened Options
  import opened Text
  import opened Sorting
  import opened Paths
  import opened BreadthFirst

  // ---- list helpers ----

  predicate NoDup(s: seq<string>) {
    forall i, j :: 0 <= i < j < |s| ==> s[i] != s[j]
  }

  function AppendUnique(list: seq<string>, s: string): seq<string> {
    if s == "" || s in list then list else list + [s]
  }

  function AllAppended(list: seq<string>, more: seq<string>): (r: seq<string>)
    ensures forall x :: x in r <==> x in list || (x in more && x != "")
    ensures NoDup(list) ==> NoDup(r)
    ensures list <= r
  {
    if more == [] then
      list
    else
      var n := |more| - 1;
      assert more == more[..n] + [more[n]];
      AppendUnique(AllAppended(list, more[..n]), more[n])
  }

  function Without(list: seq<string>, remove: seq<string>): (r: seq<string>)
    ensures forall x :: x in r <==> x in list && x !in remove
    ensures NoDup(list) ==> NoDup(r)
  {
    if list == [] then
      []
    else
      var n := |list| - 1;
      assert list == list[..n] + [list[n]];
      Without(list[..n], remove) + if list[n] in remove then [] else [list[n]]
  }

  method AppendUniqueAll(list: seq<string>, more: seq<string>) returns (r: seq<string>)
    ensures r == AllAppended(list, more)
  {
    r := list;
    for i := 0 to |more|
      invariant r == AllAppended(list, more[..i])
    {
      assert more[..i + 1][..i] == more[..i];
      r := AppendUnique(r, more[i]);
    }
    assert more[..|more|] == more;
  }

  method Minus(list: seq<string>, remove: seq<string>) returns (out: seq<string>)
    ensures out == Without(list, remove)
  {
    out := [];
    for i := 0 to |list|
      invariant out == Without(list[..i], remove)
    {
      assert list[..i + 1][..i] == list[..i];
      if list[i] !in remove {
        out := out + [list[i]];
      }
    }
    assert list[..|list|] == list;
  }

  lemma SameElements(a: seq<string>, b: seq<string>)
    requires multiset(a) == multiset(b) && NoDup(a)
    ensures NoDup(b) && forall x :: x in b <==> x in a
  {
    forall x ensures x in b <==> x in a {
      assert x in multiset(a) <==> x in multiset(b);
    }
    forall i, j | 0 <= i < j < |b| ensures b[i] != b[j] {
      if b[i] == b[j] {
        Twice(b, i, j);
        NotTwice(a, b[i]);
        assert false;
      }
    }
  }

  lemma Twice(s: seq<string>, i: int, j: int)
    requires 0 <= i < j < |s| && s[i] == s[j]
    ensures multiset(s)[s[i]] >= 2
  {
    assert s == s[..j] + s[j..];
    assert s[i] in s[..j] && s[i] in s[j..];
    assert multiset(s) == multiset(s[..j]) + multiset(s[j..]);
  }

  lemma {:induction false} NotTwice(s: seq<string>, x: string)
    requires NoDup(s)
    ensures multiset(s)[x] <= 1
  {
    if s != [] {
      NotTwice(s[1..], x);
      assert s == [s[0]] + s[1..];
      assert s[0] !in s[1..];
    }
  }

  // ---- edges ----

  /** Every edge list is free of duplicates and holds normalised non-empty names other than its own package. */
  ghost predicate WellFormed(e: Edges, norm: Norm) {
    forall a :: a in e ==>
      Key(norm, a) == a && NoDup(e[a]) && forall b :: b in e[a] ==> b != "" && b != a && Key(norm, b) == b
  }

  ghost predicate Names(norm: Norm, deps: seq<string>, b: string) {
    exists d :: d in deps && Key(norm, d) == b
  }

  function MapKeys(norm: Norm, names: seq<string>): (r: seq<string>)
    ensures forall x :: x in r <==> Names(norm, names, x)
  {
    var r := seq(|names|, i requires 0 <= i < |names| => Key(norm, names[i]));
    assert forall i :: 0 <= i < |names| ==> r[i] == Key(norm, names[i]) && names[i] in names;
    r
  }

  lemma NeverEmpty(e: Edges, norm: Norm, a: string, b: string)
    requires WellFormed(e, norm) && b in Succ(e, a)
    ensures b != ""
  {
  }

  function Added(e: Edges, norm: Norm, k: string, deps: seq<string>): Edges {
    if deps == [] then
      e
    else
      var f := Added(e, norm, k, deps[..|deps| - 1]);
      var dk := Key(norm, deps[|deps| - 1]);
      if dk == "" || dk == k then f else f[k := AppendUnique(Succ(f, k), dk)]
  }

  lemma AddedEdge(f: Edges, norm: Norm, k: string, b: string)
    requires WellFormed(f, norm) && Key(norm, k) == k && Key(norm, b) == b && b != "" && b != k
    ensures var g := f[k := AppendUnique(Succ(f, k), b)];
            WellFormed(g, norm) && forall x, y :: Linked(g, x, y) <==> Linked(f, x, y) || (x == k && y == b)
  {
    hide Key;
    var g := f[k := AppendUnique(Succ(f, k), b)];
    assert NoDup(Succ(f, k)) && NoDup(Succ(g, k));
    assert forall y :: y in Succ(g, k) <==> y in Succ(f, k) || y == b;
  }

  lemma NamesSnoc(norm: Norm, rest: seq<string>, d: string)
    ensures forall b :: Names(norm, rest + [d], b) <==> Names(norm, rest, b) || Key(norm, d) == b
  {
    hide Key;
    var deps := rest + [d];
    forall b ensures Names(norm, deps, b) <==> Names(norm, rest, b) || Key(norm, d) == b {
      if Key(norm, d) == b { assert d in deps; }
      if Names(norm, rest, b) {
        var x :| x in rest && Key(norm, x) == b;
        assert x in deps;
      }
    }
  }

  /** Adding a package keeps the graph well formed and adds exactly the edges to its named dependencies. */
  lemma {:induction false} AddedEdges(e: Edges, norm: Norm, k: string, deps: seq<string>)
    requires Key(norm, k) == k && WellFormed(e, norm)
    ensures WellFormed(Added(e, norm, k, deps), norm)
    ensures forall a, b :: Linked(Added(e, norm, k, deps), a, b) <==>
                           Linked(e, a, b) || (a == k && b != "" && b != k && Names(norm, deps, b))
  {
    hide Key, WellFormed, Linked;
    if deps != [] {
      var n := |deps| - 1;
      var rest, d := deps[..n], deps[n];
      assert deps == rest + [d];
      AddedEdges(e, norm, k, rest);
      NamesSnoc(norm, rest, d);
      KeyIdempotent(norm, d);
      if Key(norm, d) != "" && Key(norm, d) != k {
        AddedEdge(Added(e, norm, k, rest), norm, k, Key(norm, d));
      }
    }
  }

  // ---- the graph object ----

  class DepGraph {
    const norm: Norm
    /** How many nodes a search visits before it gives up. */
    const cap: nat

    var edges: Edges
    var present: set<string>
    var hasEdges: bool
    var root: seq<string>
    var rootDev: seq<string>
    var rootKnown: bool
    var devSplit: bool
    var devOnlyFlag: map<string, bool>
    var devFlags: bool

    ghost predicate Valid()
      reads this
    {
      WellFormed(edges, norm) && forall k :: k in present ==> Key(norm, k) == k
    }

    constructor (norm: Norm, cap: nat)
      ensures this.norm == norm && this.cap == cap
      ensures Valid()
      ensures edges == map[] && present == {} && root == [] && rootDev == [] && devOnlyFlag == map[]
      ensures !hasEdges && !rootKnown && !devSplit && !devFlags
    {
      this.norm, this.cap := norm, cap;
      edges, present, root, rootDev, devOnlyFlag := map[], {}, [], [], map[];
      hasEdges, rootKnown, devSplit, devFlags := false, false, false, false;
    }

    method Add(name: string, deps: seq<string>)
      requires Valid()
      modifies this`edges, this`present
      ensures Valid()
      ensures present == old(present) + {Key(norm, name)}
      ensures forall a, b :: Linked(edges, a, b) <==>
                             Linked(old(edges), a, b) ||
                             (a == Key(norm, name) && b != "" && b != a && Names(norm, deps, b))
      ensures edges == Added(old(edges), norm, Key(norm, name), deps)
    {
      var k := Key(norm, name);
      KeyIdempotent(norm, name);
      present := present + {k};
      for i := 0 to |deps|
        invariant edges == Added(old(edges), norm, k, deps[..i]) && present == old(present) + {k}
      {
        assert deps[..i + 1][..i] == deps[..i];
        var dk := Key(norm, deps[i]);
        if dk == "" || dk == k { continue; }
        edges := edges[k := AppendUnique(Succ(edges, k), dk)];
      }
      assert deps[..|deps|] == deps;
      AddedEdges(old(edges), norm, k, deps);
    }

    /** Add without dependencies. */
    method AddName(name: string)
      requires Valid()
      modifies this`edges, this`present
      ensures Valid() && edges == old(edges) && present == old(present) + {Key(norm, name)}
    {
      Add(name, []);
    }

    predicate Has(name: string)
      reads this`present
    {
      Key(norm, name) in present
    }

    predicate IsRoot(name: string)
      reads this`root, this`rootDev
    {
      Key(norm, name) in root || Key(norm, name) in rootDev
    }

    ghost function DependentSet(name: string): set<string>
      reads this`edges
    {
      set p | p in edges && p != Key(norm, name) && Key(norm, name) in edges[p]
    }

    /** The packages that depend on name, sorted; nothing when the lockfile has no edges. */
    method Dependents(name: string) returns (out: seq<string>)
      ensures !hasEdges ==> out == []
      ensures hasEdges ==> (set p | p in out) == DependentSet(name)
      ensures SortedBy(LexLe, out) && NoDup(out)
    {
      out := [];
      LexIsTotalPreorder();
      if !hasEdges { return; }
      var k := Key(norm, name);
      var keys := edges.Keys;
      while keys != {}
        invariant keys <= edges.Keys
        invariant NoDup(out)
        invariant forall p :: p in out <==> p in edges.Keys - keys && p != k && k in edges[p]
      {
        var p :| p in keys;
        keys := keys - {p};
        if p != k && k in edges[p] {
          out := out + [p];
        }
      }
      ghost var unsorted := out;
      out := SortStrings(out);
      SortSorts(LexLe, unsorted);
      SameElements(unsorted, out);
    }

    method ShortestPath(from: string, to: string) returns (r: Option<seq<string>>)
      requires Valid()
      ensures from == to ==> r == Some([from])
      ensures r.Some? && from != "" ==> Shortest(edges, r.value, from, to)
      ensures r.Some? && from == "" && to != "" ==> r.value != [] && Shortest(edges, [""] + r.value, from, to)
      ensures r.None? && |ReachSet(edges, [from])| <= cap ==> !Reaches(edges, from, to)
      ensures r.None? || from == to || cap > 1
    {
      hide SearchTree, Frontier, Shortest, WellFormed, ReachSet, Reaches, Walked, MinimalDepth, Nodes, Key;
      SearchStarts(edges, from);
      if from == to {
        return Some([from]);
      }
      var prev: map<string, string> := map[from := ""];
      var queue := [from];
      ghost var depth: map<string, nat> := map[from := 0];
      ghost var nodes := Nodes(edges) + {from};
      while queue != [] && |prev| < cap
        invariant SearchTree(edges, from, prev, depth) && Frontier(edges, depth, queue)
        invariant to !in prev && |prev| >= 1
        decreases |nodes - prev.Keys| + |queue|
      {
        HeadAndTail(queue);
        var cur := queue[0];
        prev, queue, depth := Expand(from, to, cur, prev, queue[1..], depth);
        if to in prev {
          var path := WalkBack(from, to, prev, depth);
          WalkedIsShortest(edges, from, to, depth, path);
          return Some(path);
        }
      }
      if |ReachSet(edges, [from])| <= cap {
        UnfoundIsUnreachable(edges, from, prev, depth, queue, to, cap);
      }
      return None;
    }

    /** The inner loop of the search: discovers the successors of cur, stopping at to. */
    method Expand(from: string, to: string, cur: string, prev: map<string, string>, queue: seq<string>,
                  ghost depth: map<string, nat>)
      returns (prev': map<string, string>, queue': seq<string>, ghost depth': map<string, nat>)
      requires WellFormed(edges, norm)
      requires SearchTree(edges, from, prev, depth) && Frontier(edges, depth, [cur] + queue) && to !in prev
      ensures SearchTree(edges, from, prev', depth') && |prev'| >= |prev|
      ensures to in prev' ==> |prev'| > |prev| && MinimalDepth(edges, from, to, depth')
      ensures to !in prev' ==>
                && Frontier(edges, depth', queue')
                && |(Nodes(edges) + {from}) - prev'.Keys| + |queue'| == |(Nodes(edges) + {from}) - prev.Keys| + |queue|
    {
      prev', queue', depth' := prev, queue, depth;
      ghost var nodes := Nodes(edges) + {from};
      var succs := Succ(edges, cur);
      for j := 0 to |succs|
        invariant SearchTree(edges, from, prev', depth') && Expanding(edges, depth', cur, j, queue')
        invariant to !in prev' && |prev'| >= |prev|
        invariant |nodes - prev'.Keys| + |queue'| == |nodes - prev.Keys| + |queue|
      {
        var next := succs[j];
        if next in prev' {
          SkipKnown(edges, depth', cur, j, queue');
          continue;
        }
        NeverEmpty(edges, norm, cur, next);
        GrowTree(edges, from, prev', depth', cur, next);
        if next == to {
          DiscoveryIsMinimal(edges, from, prev', depth', cur, queue', to);
          prev', depth' := prev'[next := cur], depth'[next := depth'[cur] + 1];
          return;
        }
        GrowFrontier(edges, depth', cur, j, queue', next);
        FewerUnseen(nodes, prev', next, cur);
        prev', depth', queue' := prev'[next := cur], depth'[next := depth'[cur] + 1], queue' + [next];
      }
      Expanded(edges, depth', cur, queue');
    }

    /** Follows the parent map from to back to from; a start with the empty name is dropped from the path. */
    method WalkBack(from: string, to: string, prev: map<string, string>, ghost depth: map<string, nat>)
      returns (path: seq<string>)
      requires SearchTree(edges, from, prev, depth) && to in prev && to != from
      ensures path != [] && Walked(edges, from, to, depth[to], path)
    {
      hide SearchTree, Walking, Walked;
      WalkBegins(edges, from, to, prev, depth);
      path := [];
      var n := to;
      while n != ""
        invariant Walking(edges, from, to, prev, depth, n, path) && (path == [] ==> n != "")
        invariant n != "" ==> n in prev && n in depth
        decreases if n == "" then 0 else depth[n] + 1
      {
        WalkGoesOn(edges, from, to, prev, depth, n, path);
        path := [n] + path;
        n := prev[n];
      }
      WalkEnds(edges, from, to, prev, depth, path);
    }

    /** Up to max shortest paths from direct dependencies to name. */
    method PathsTo(name: string, max: nat) returns (paths: seq<seq<string>>)
      requires Valid()
      ensures !hasEdges || !rootKnown ==> paths == []
      ensures |paths| <= max
      ensures "" !in root + rootDev ==> forall p :: p in paths ==> IsShortestFromRoot(p, Key(norm, name))
      ensures hasEdges && rootKnown && |paths| < max ==>
                forall s :: (s in root + rootDev && s != "" && Reaches(edges, s, Key(norm, name)) &&
                             |ReachSet(edges, [s])| <= cap) ==>
                  StartsSome(paths, s)
    {
      paths := [];
      if !hasEdges || !rootKnown { return; }
      var k := Key(norm, name);
      var starts := root + rootDev;
      for i := 0 to |starts|
        invariant |paths| <= max
        invariant "" !in root + rootDev ==> forall p :: p in paths ==> IsShortestFromRoot(p, k)
        invariant |paths| < max ==>
                    forall s :: s in starts[..i] && s != "" && Reaches(edges, s, k) && |ReachSet(edges, [s])| <= cap ==>
                      StartsSome(paths, s)
      {
        if |paths| >= max { break; }
        var p := ShortestPath(starts[i], k);
        assert starts[..i + 1] == starts[..i] + [starts[i]];
        if p.Some? {
          assert starts[i] in root + rootDev;
          ghost var earlier := paths;
          paths := paths + [p.value];
          assert forall s :: StartsSome(earlier, s) ==> StartsSome(paths, s) by {
            assert forall q :: q in earlier ==> q in paths;
          }
          assert p.value in paths;
        }
      }
    }

    ghost predicate IsShortestFromRoot(p: seq<string>, k: string)
      reads this
    {
      p != [] && p[0] in root + rootDev && Shortest(edges, p, p[0], k)
    }

    method ReachableFrom(starts: seq<string>, name: string) returns (r: bool)
      ensures r <==> MetWithin(edges, starts, Key(norm, name), cap)
      ensures r ==> ReachesAny(edges, starts, Key(norm, name))
      ensures !r && |ReachSet(edges, starts)| <= cap ==> !ReachesAny(edges, starts, Key(norm, name))
    {
      var k := Key(norm, name);
      DistanceIsReach(edges, starts, k);
      hide ReachesAny, ReachSet, Nodes;
      var seen: set<string> := {};
      var queue := starts;
      ghost var all := Universe(edges, starts);
      while queue != [] && |seen| < cap
        invariant seen <= all && forall q :: q in queue ==> q in all
        invariant VisitedBefore(edges, all, k, seen, queue) == Distance(edges, starts, k)
        decreases all - seen, |queue|
      {
        HeadAndTail(queue);
        var cur := queue[0];
        assert cur in all;
        SuccInNodes(edges, cur);
        queue := queue[1..];
        if cur == k {
          return true;
        }
        if cur in seen { continue; }
        seen := seen + {cur};
        queue := queue + Succ(edges, cur);
      }
      return false;
    }

    /** Whether name is outside the runtime closure, and whether the lockfile can say so. */
    method DevOnly(name: string) returns (dev: bool, known: bool)
      requires Valid()
      ensures known <==> Has(name) && (devFlags || (hasEdges && rootKnown && devSplit))
      ensures !known ==> !dev
      ensures known && devFlags ==> dev == (Key(norm, name) in devOnlyFlag && devOnlyFlag[Key(norm, name)])
      ensures known && !devFlags ==>
                (dev <==> !MetWithin(edges, root, Key(norm, name), cap) &&
                          MetWithin(edges, rootDev, Key(norm, name), cap))
      ensures known && !devFlags && dev ==> ReachesAny(edges, rootDev, Key(norm, name))
      ensures known && !devFlags && |ReachSet(edges, root)| <= cap && |ReachSet(edges, rootDev)| <= cap ==>
                (dev <==> OutsideRuntime(edges, root, rootDev, Key(norm, name)))
    {
      if !Has(name) { return false, false; }
      var k := Key(norm, name);
      if devFlags {
        return k in devOnlyFlag && devOnlyFlag[k], true;
      }
      if hasEdges && rootKnown && devSplit {
        var runtime := ReachableFrom(root, k);
        if runtime { return false, true; }
        dev := ReachableFrom(rootDev, k);
        return dev, true;
      }
      return false, false;
    }
  }

  /** Reached by development dependencies and by no runtime dependency. */
  ghost predicate OutsideRuntime(e: Edges, root: seq<string>, rootDev: seq<string>, k: string) {
    ReachesAny(e, rootDev, k) && !ReachesAny(e, root, k)
  }

  ghost predicate StartsSome(paths: seq<seq<string>>, s: string) {
    exists p :: p in paths && p != [] && p[0] == s
  }
}
