/** Why breadth-first search finds shortest paths: the invariants of its parent map and queue. */
module BreadthFirst {
  import opened Options
  import opened Paths

  /** prev is a tree of discovered nodes rooted at from, one edge per parent step. */
  ghost predicate SearchTree(e: Edges, from: string, prev: map<string, string>, depth: map<string, nat>) {
    && prev.Keys == depth.Keys
    && from in prev && prev[from] == "" && depth[from] == 0
    && forall n :: n in prev && n != from ==> TreeEdge(e, prev, depth, n)
  }

  ghost predicate TreeEdge(e: Edges, prev: map<string, string>, depth: map<string, nat>, n: string)
    requires n in prev && prev.Keys == depth.Keys
  {
    n != "" && prev[n] in prev && n in Succ(e, prev[n]) && depth[n] == depth[prev[n]] + 1
  }

  /** Depths never fall along the queue and span at most one level beyond its head. */
  ghost predicate Ordered(depth: map<string, nat>, queue: seq<string>) {
    && (forall n :: n in queue ==> n in depth)
    && (queue != [] ==> forall n :: n in depth ==> depth[n] <= depth[queue[0]] + 1)
    && forall i, j :: 0 <= i <= j < |queue| ==> depth[queue[i]] <= depth[queue[j]]
  }

  /** Discovered nodes that are not waiting have all their successors discovered, one level down at most. */
  ghost predicate Explored(e: Edges, depth: map<string, nat>, waiting: seq<string>) {
    forall u, v :: u in depth && u !in waiting && v in Succ(e, u) ==> v in depth && depth[v] <= depth[u] + 1
  }

  ghost predicate Frontier(e: Edges, depth: map<string, nat>, queue: seq<string>) {
    Ordered(depth, queue) && Explored(e, depth, queue)
  }

  /** The same while the successors of cur are being visited, j of them done. */
  ghost predicate Expanding(e: Edges, depth: map<string, nat>, cur: string, j: nat, queue: seq<string>) {
    && Ordered(depth, [cur] + queue)
    && Explored(e, depth, [cur] + queue)
    && j <= |Succ(e, cur)|
    && forall i :: 0 <= i < j ==> Succ(e, cur)[i] in depth
  }

  lemma SearchStarts(e: Edges, from: string)
    ensures SearchTree(e, from, map[from := ""], map[from := 0]) && Frontier(e, map[from := 0], [from])
    ensures Shortest(e, [from], from, from)
  {
    assert PathBetween(e, [from], from, from);
  }

  lemma GrowTree(e: Edges, from: string, prev: map<string, string>, depth: map<string, nat>, cur: string, next: string)
    requires SearchTree(e, from, prev, depth) && cur in prev && next !in prev
    requires next != "" && next in Succ(e, cur)
    ensures SearchTree(e, from, prev[next := cur], depth[next := depth[cur] + 1])
    ensures |prev[next := cur]| == |prev| + 1
  {
    var p, d := prev[next := cur], depth[next := depth[cur] + 1];
    assert p.Keys == d.Keys == prev.Keys + {next};
    forall n | n in p && n != from ensures TreeEdge(e, p, d, n) {
      if n != next { assert TreeEdge(e, prev, depth, n); }
    }
  }

  lemma ExpandedInOrder(depth: map<string, nat>, cur: string, queue: seq<string>)
    requires Ordered(depth, [cur] + queue)
    ensures Ordered(depth, queue)
  {
    var all := [cur] + queue;
    forall i | 0 <= i < |queue| ensures queue[i] == all[i + 1] {}
    forall i, j | 0 <= i <= j < |queue| ensures depth[queue[i]] <= depth[queue[j]] {
      assert depth[all[i + 1]] <= depth[all[j + 1]];
    }
    forall n | n in queue ensures n in depth { assert n in all; }
    if queue != [] {
      assert depth[all[0]] <= depth[all[1]];
    }
  }

  lemma Expanded(e: Edges, depth: map<string, nat>, cur: string, queue: seq<string>)
    requires Expanding(e, depth, cur, |Succ(e, cur)|, queue)
    ensures Frontier(e, depth, queue)
  {
    ExpandedInOrder(depth, cur, queue);
    var all := [cur] + queue;
    forall u, v | u in depth && u !in queue && v in Succ(e, u) ensures v in depth && depth[v] <= depth[u] + 1 {
      if u == cur {
        var i :| 0 <= i < |Succ(e, cur)| && Succ(e, cur)[i] == v;
        assert depth[v] <= depth[all[0]] + 1;
      } else {
        assert u !in all;
      }
    }
  }

  lemma GrowFrontier(e: Edges, depth: map<string, nat>, cur: string, j: nat, queue: seq<string>, next: string)
    requires Expanding(e, depth, cur, j, queue) && next !in depth
    requires j < |Succ(e, cur)| && next == Succ(e, cur)[j]
    ensures Expanding(e, depth[next := depth[cur] + 1], cur, j + 1, queue + [next])
  {
    var d := depth[next := depth[cur] + 1];
    var old_, all := [cur] + queue, [cur] + (queue + [next]);
    assert all == old_ + [next];
    assert cur in old_;
    forall i, k | 0 <= i <= k < |all| ensures d[all[i]] <= d[all[k]] {
      if k < |old_| {
        assert depth[old_[i]] <= depth[old_[k]];
      } else if i < |old_| {
        assert old_[i] in depth;
        assert depth[old_[i]] <= depth[old_[0]] + 1;
      }
    }
    assert all[0] == cur;
    forall n | n in d ensures d[n] <= d[all[0]] + 1 {
      if n != next { assert depth[n] <= depth[old_[0]] + 1; }
    }
  }

  lemma SkipKnown(e: Edges, depth: map<string, nat>, cur: string, j: nat, queue: seq<string>)
    requires Expanding(e, depth, cur, j, queue)
    requires j < |Succ(e, cur)| && Succ(e, cur)[j] in depth
    ensures Expanding(e, depth, cur, j + 1, queue)
  {
  }

  /** Every path from the start to an undiscovered node passes through a waiting node, late enough. */
  lemma {:induction false} PassesWaiting(e: Edges, depth: map<string, nat>, waiting: seq<string>, q: seq<string>,
                                         k: nat)
    returns (i: nat)
    requires Explored(e, depth, waiting) && IsPath(e, q)
    requires k < |q| && q[k] in depth && depth[q[k]] <= k && q[|q| - 1] !in depth
    ensures i < |q| - 1 && q[i] in depth && q[i] in waiting && depth[q[i]] <= i
    decreases |q| - k
  {
    if q[k] in waiting {
      i := k;
    } else {
      assert Linked(e, q[k], q[k + 1]);
      i := PassesWaiting(e, depth, waiting, q, k + 1);
    }
  }

  /** No path to a discovered node has fewer steps than its depth. */
  ghost predicate MinimalDepth(e: Edges, from: string, to: string, depth: map<string, nat>) {
    to in depth && forall q :: PathBetween(e, q, from, to) ==> |q| >= depth[to] + 1
  }

  lemma DiscoveryIsMinimal(e: Edges, from: string, prev: map<string, string>, depth: map<string, nat>,
                           cur: string, queue: seq<string>, to: string)
    requires SearchTree(e, from, prev, depth) && to !in prev
    requires Ordered(depth, [cur] + queue) && Explored(e, depth, [cur] + queue)
    ensures MinimalDepth(e, from, to, depth[to := depth[cur] + 1])
  {
    var all := [cur] + queue;
    forall q | PathBetween(e, q, from, to) ensures |q| >= depth[cur] + 2 {
      var i := PassesWaiting(e, depth, all, q, 0);
      var w :| 0 <= w < |all| && all[w] == q[i];
      assert depth[all[0]] <= depth[all[w]];
    }
  }

  /** The walked path: from start to to, or without its first node when that node's name is empty. */
  ghost predicate Walked(e: Edges, from: string, to: string, len: nat, path: seq<string>) {
    && path != [] && path[|path| - 1] == to && IsPath(e, path)
    && (from != "" ==> path[0] == from && |path| == len + 1)
    && (from == "" ==> path[0] in Succ(e, from) && |path| == len)
  }

  /** Walking the parents back from to: n comes next, path is what lies after it. */
  ghost predicate Walking(e: Edges, from: string, to: string, prev: map<string, string>, depth: map<string, nat>,
                          n: string,
                          path: seq<string>)
  {
    && prev.Keys == depth.Keys && to in prev
    && (n != "" ==> n in prev)
    && (path == [] ==> n == to)
    && (path != [] ==> && path[0] in prev && path[0] != "" && prev[path[0]] == n
                       && path[|path| - 1] == to && IsPath(e, path) && |path| + depth[path[0]] == depth[to] + 1)
    && (path != [] && path[0] == from ==> n == "")
  }

  lemma WalkBegins(e: Edges, from: string, to: string, prev: map<string, string>, depth: map<string, nat>)
    requires SearchTree(e, from, prev, depth) && to in prev && to != from
    ensures to != "" && to in depth && Walking(e, from, to, prev, depth, to, [])
  {
  }

  lemma PathGrows(e: Edges, n: string, path: seq<string>)
    requires path == [] || (IsPath(e, path) && path[0] in Succ(e, n))
    ensures IsPath(e, [n] + path)
  {
    var p := [n] + path;
    forall i, j | 0 <= i && j == i + 1 < |p| ensures Linked(e, p[i], p[j]) {
      if i > 0 { assert Linked(e, path[i - 1], path[j - 1]); }
    }
  }

  lemma WalkGoesOn(e: Edges, from: string, to: string, prev: map<string, string>, depth: map<string, nat>, n: string,
                   path: seq<string>)
    requires SearchTree(e, from, prev, depth) && Walking(e, from, to, prev, depth, n, path)
    requires n != "" && n in prev && to != from
    ensures n in depth && Walking(e, from, to, prev, depth, prev[n], [n] + path)
    ensures prev[n] != "" ==> prev[n] in prev && prev[n] in depth && depth[prev[n]] < depth[n]
  {
    if path != [] { assert TreeEdge(e, prev, depth, path[0]); }
    PathGrows(e, n, path);
    if n != from { assert TreeEdge(e, prev, depth, n); }
    hide IsPath;
  }

  lemma WalkEnds(e: Edges, from: string, to: string, prev: map<string, string>, depth: map<string, nat>,
                 path: seq<string>)
    requires SearchTree(e, from, prev, depth) && Walking(e, from, to, prev, depth, "", path) && path != [] && to != from
    ensures path != [] && Walked(e, from, to, depth[to], path)
  {
    if path[0] != from { assert TreeEdge(e, prev, depth, path[0]); }
    hide IsPath;
  }

  lemma WalkedIsShortest(e: Edges, from: string, to: string, depth: map<string, nat>, path: seq<string>)
    requires MinimalDepth(e, from, to, depth) && Walked(e, from, to, depth[to], path)
    ensures from != "" ==> Shortest(e, path, from, to)
    ensures from == "" ==> Shortest(e, [""] + path, from, to)
  {
    if from == "" {
      var p := [""] + path;
      forall i, j | 0 <= i && j == i + 1 < |p| ensures Linked(e, p[i], p[j]) {
        if i > 0 { assert Linked(e, path[i - 1], path[j - 1]); }
      }
    }
  }

  lemma NothingLeft(e: Edges, from: string, prev: map<string, string>, depth: map<string, nat>, to: string)
    requires SearchTree(e, from, prev, depth) && to !in prev && Explored(e, depth, [])
    ensures !Reaches(e, from, to)
  {
    if Reaches(e, from, to) {
      var q :| PathBetween(e, q, from, to);
      var i := PassesWaiting(e, depth, [], q, 0);
      assert false;
    }
  }

  lemma {:induction false} TreeNodeReachable(e: Edges, from: string, prev: map<string, string>, depth: map<string, nat>,
                                             n: string)
    requires SearchTree(e, from, prev, depth) && n in prev
    ensures Reaches(e, from, n)
    decreases depth[n]
  {
    if n == from {
      ReachesSelf(e, from);
    } else {
      assert TreeEdge(e, prev, depth, n);
      TreeNodeReachable(e, from, prev, depth, prev[n]);
      ReachesStep(e, from, prev[n], n);
    }
  }

  lemma TreeIsReachable(e: Edges, from: string, prev: map<string, string>, depth: map<string, nat>)
    requires SearchTree(e, from, prev, depth)
    ensures prev.Keys <= ReachSet(e, [from])
  {
    forall n | n in prev ensures n in ReachSet(e, [from]) {
      TreeNodeReachable(e, from, prev, depth, n);
      ReachSetHolds(e, [from], from, n);
    }
  }

  lemma {:induction false} SubsetSize(a: set<string>, b: set<string>)
    requires a <= b
    ensures |a| <= |b|
  {
    if a != {} {
      var x :| x in a;
      SubsetSize(a - {x}, b - {x});
    }
  }

  /** What an unfinished search proves: nil is final when the cap covers the reachable nodes. */
  lemma UnfoundIsUnreachable(e: Edges, from: string, prev: map<string, string>, depth: map<string, nat>,
                             queue: seq<string>, to: string, cap: nat)
    requires SearchTree(e, from, prev, depth) && Frontier(e, depth, queue) && to !in prev
    requires queue == [] || |prev| >= cap
    requires |ReachSet(e, [from])| <= cap
    ensures !Reaches(e, from, to)
  {
    if queue == [] {
      NothingLeft(e, from, prev, depth, to);
    } else if Reaches(e, from, to) {
      var all := ReachSet(e, [from]);
      ReachSetHolds(e, [from], from, to);
      TreeIsReachable(e, from, prev, depth);
      assert |prev.Keys| == |prev|;
      SubsetSize(prev.Keys, all - {to});
      assert false;
    }
  }

  lemma SetLosesOne(nodes: set<string>, seen: set<string>, next: string)
    requires next in nodes && next !in seen
    ensures |nodes - (seen + {next})| + 1 == |nodes - seen|
  {
    assert nodes - seen == (nodes - (seen + {next})) + {next};
  }

  lemma FewerUnseen(nodes: set<string>, prev: map<string, string>, next: string, cur: string)
    requires next in nodes && next !in prev
    ensures |nodes - prev[next := cur].Keys| + 1 == |nodes - prev.Keys|
  {
    assert prev[next := cur].Keys == prev.Keys + {next};
    SetLosesOne(nodes, prev.Keys, next);
  }

  lemma HeadAndTail(s: seq<string>)
    requires s != []
    ensures s == [s[0]] + s[1..]
  {
  }

  // ---- closure search ----

  /** The successors of every visited node, and every start, are visited or queued; the queue stays reachable. */
  ghost predicate Closing(e: Edges, starts: seq<string>, seen: set<string>, queue: seq<string>) {
    && (forall n :: n in queue ==> ReachesAny(e, starts, n) && n in ReachSet(e, starts))
    && (forall s :: s in starts ==> s in seen || s in queue)
    && (forall u, v :: u in seen && v in Succ(e, u) ==> v in seen || v in queue)
  }

  lemma StartsReachable(e: Edges, starts: seq<string>)
    ensures Closing(e, starts, {}, starts)
  {
    forall s | s in starts ensures ReachesAny(e, starts, s) && s in ReachSet(e, starts) {
      ReachesSelf(e, s);
      ReachSetHolds(e, starts, s, s);
    }
  }

  lemma CloseOne(e: Edges, starts: seq<string>, seen: set<string>, cur: string, queue: seq<string>)
    requires Closing(e, starts, seen, [cur] + queue)
    ensures Closing(e, starts, seen + {cur}, queue + Succ(e, cur))
  {
    var all := [cur] + queue;
    assert cur in all;
    forall n | n in queue ensures ReachesAny(e, starts, n) && n in ReachSet(e, starts) { assert n in all; }
    forall v | v in Succ(e, cur) ensures ReachesAny(e, starts, v) && v in ReachSet(e, starts) {
      var s :| s in starts && Reaches(e, s, cur);
      ReachesStep(e, s, cur, v);
      ReachSetHolds(e, starts, s, v);
    }
    forall n | n in all ensures n == cur || n in queue {}
  }

  lemma SkipSeen(e: Edges, starts: seq<string>, seen: set<string>, cur: string, queue: seq<string>)
    requires Closing(e, starts, seen, [cur] + queue) && cur in seen
    ensures Closing(e, starts, seen, queue)
  {
    var all := [cur] + queue;
    forall n | n in queue ensures n in all {}
    forall n | n in all ensures n == cur || n in queue {}
  }

  // ---- how far the cap lets a closure search look ----

  /** How many distinct nodes a search without cap visits before it meets k; none if it never does. */
  ghost function VisitedBefore(e: Edges, universe: set<string>, k: string, seen: set<string>, queue: seq<string>)
    : (r: Option<nat>)
    requires Nodes(e) <= universe && (forall q :: q in queue ==> q in universe)
    ensures r.Some? ==> r.value >= |seen|
    decreases universe - seen, |queue|
  {
    if queue == [] then None
    else if queue[0] == k then Some(|seen|)
    else if queue[0] in seen then VisitedBefore(e, universe, k, seen, queue[1..])
    else
      SuccInNodes(e, queue[0]);
      VisitedBefore(e, universe, k, seen + {queue[0]}, queue[1..] + Succ(e, queue[0]))
  }

  lemma SuccInNodes(e: Edges, n: string)
    ensures forall q :: q in Succ(e, n) ==> q in Nodes(e)
  {
  }

  ghost function Universe(e: Edges, starts: seq<string>): set<string> { Nodes(e) + set s | s in starts }

  /** The same from the start of a search. */
  ghost function Distance(e: Edges, starts: seq<string>, k: string): Option<nat> {
    VisitedBefore(e, Universe(e, starts), k, {}, starts)
  }

  lemma DistanceMet(e: Edges, starts: seq<string>, universe: set<string>, k: string, seen: set<string>,
                    queue: seq<string>)
    requires Nodes(e) <= universe && (forall q :: q in queue ==> q in universe)
    requires Closing(e, starts, seen, queue) && k !in seen && seen <= ReachSet(e, starts)
    ensures var d := VisitedBefore(e, universe, k, seen, queue);
            && (d.Some? <==> ReachesAny(e, starts, k))
            && (d.Some? ==> d.value < |ReachSet(e, starts)|)
    decreases universe - seen, |queue|
  {
    hide ReachesAny, Closing, ReachSet, Nodes;
    if queue == [] {
      NothingToMeet(e, starts, seen, k);
    } else {
      HeadAndTail(queue);
      HeadIsReached(e, starts, seen, queue);
      if queue[0] == k {
        SubsetSize(seen, ReachSet(e, starts) - {k});
        assert ReachSet(e, starts) == (ReachSet(e, starts) - {k}) + {k};
      } else if queue[0] in seen {
        SkipSeen(e, starts, seen, queue[0], queue[1..]);
        DistanceMet(e, starts, universe, k, seen, queue[1..]);
      } else {
        SuccInNodes(e, queue[0]);
        CloseOne(e, starts, seen, queue[0], queue[1..]);
        DistanceMet(e, starts, universe, k, seen + {queue[0]}, queue[1..] + Succ(e, queue[0]));
      }
    }
  }

  /** A search along a node with one successor. */
  lemma VisitOne(e: Edges, universe: set<string>, k: string, seen: set<string>, x: string, y: string)
    requires Nodes(e) <= universe && x in universe && Succ(e, x) == [y] && x !in seen && x != k
    ensures y in universe && VisitedBefore(e, universe, k, seen, [x]) == VisitedBefore(e, universe, k, seen + {x}, [y])
  {
    SuccInNodes(e, x);
    assert Succ(e, x)[0] in Succ(e, x);
    hide Nodes;
    assert [x][1..] + Succ(e, x) == [y];
  }

  lemma NothingToMeet(e: Edges, starts: seq<string>, seen: set<string>, k: string)
    requires Closing(e, starts, seen, []) && k !in seen
    ensures !ReachesAny(e, starts, k)
  {
    if s :| s in starts && Reaches(e, s, k) {
      var p :| PathBetween(e, p, s, k);
      ClosedHoldsPath(e, seen, p, |p| - 1);
      assert false;
    }
  }

  lemma HeadIsReached(e: Edges, starts: seq<string>, seen: set<string>, queue: seq<string>)
    requires queue != [] && Closing(e, starts, seen, queue)
    ensures ReachesAny(e, starts, queue[0]) && queue[0] in ReachSet(e, starts)
  {
    assert queue[0] in queue;
  }

  /** A node has a distance exactly when some start reaches it, and it is less than the number of reachable nodes. */
  lemma DistanceIsReach(e: Edges, starts: seq<string>, k: string)
    ensures Distance(e, starts, k).Some? <==> ReachesAny(e, starts, k)
    ensures Distance(e, starts, k).Some? ==> Distance(e, starts, k).value < |ReachSet(e, starts)|
  {
    StartsReachable(e, starts);
    hide ReachesAny, Closing, ReachSet;
    DistanceMet(e, starts, Universe(e, starts), k, {}, starts);
  }

  /** Met by a search that gives up after cap nodes. */
  ghost predicate MetWithin(e: Edges, starts: seq<string>, k: string, cap: nat) {
    Distance(e, starts, k).Some? && Distance(e, starts, k).value < cap
  }

  // ---- nearer nodes are met first ----

  /** At most h steps from some start. */
  ghost predicate Steps(e: Edges, starts: seq<string>, h: nat, n: string) {
    if h == 0 then n in starts
    else Steps(e, starts, h - 1, n) || exists u :: Steps(e, starts, h - 1, u) && n in Succ(e, u)
  }

  ghost predicate AtHops(e: Edges, starts: seq<string>, h: nat, n: string) {
    Steps(e, starts, h, n) && (h > 0 ==> !Steps(e, starts, h - 1, n))
  }

  /** How many nodes are at most h steps away. */
  ghost function Near(e: Edges, starts: seq<string>, h: nat): set<string> {
    set n | n in Universe(e, starts) && Steps(e, starts, h, n)
  }

  /** The search works at level l: the first w of the queue are at most l steps away and the others one more; all nodes
      of the level are visited or among those first, and all nearer ones are visited. */
  ghost predicate Level(e: Edges, starts: seq<string>, seen: set<string>, queue: seq<string>, w: nat, l: nat) {
    && w <= |queue|
    && (forall i :: 0 <= i < w ==> Steps(e, starts, l, queue[i]))
    && (forall i :: w <= i < |queue| ==> Steps(e, starts, l + 1, queue[i]))
    && (forall n :: n in seen ==> Steps(e, starts, l, n))
    && (forall n :: Steps(e, starts, l, n) ==> n in seen || n in queue[..w])
    && (forall u, v :: u in seen && v in Succ(e, u) ==> v in seen || v in queue)
    && (l > 0 ==> forall n :: Steps(e, starts, l - 1, n) ==> n in seen)
  }

  lemma NextLevel(e: Edges, starts: seq<string>, seen: set<string>, queue: seq<string>, l: nat)
    requires Level(e, starts, seen, queue, 0, l)
    ensures Level(e, starts, seen, queue, |queue|, l + 1)
  {
    assert queue[..|queue|] == queue && queue[..0] == [];
    forall n | Steps(e, starts, l + 1, n) ensures n in seen || n in queue {
      if !Steps(e, starts, l, n) {
        var u :| Steps(e, starts, l, u) && n in Succ(e, u);
        assert u in seen;
      }
    }
  }

  lemma SkipInLevel(e: Edges, starts: seq<string>, seen: set<string>, queue: seq<string>, w: nat, l: nat)
    requires w > 0 && Level(e, starts, seen, queue, w, l) && queue[0] in seen
    ensures Level(e, starts, seen, queue[1..], w - 1, l)
  {
    hide Steps, Succ;
    assert queue == [queue[0]] + queue[1..] && queue[..w] == [queue[0]] + queue[1..][..w - 1];
  }

  lemma VisitInLevel(e: Edges, starts: seq<string>, seen: set<string>, queue: seq<string>, w: nat, l: nat)
    requires w > 0 && Level(e, starts, seen, queue, w, l)
    ensures Level(e, starts, seen + {queue[0]}, queue[1..] + Succ(e, queue[0]), w - 1, l)
  {
    var cur, more := queue[0], queue[1..] + Succ(e, queue[0]);
    assert queue == [cur] + queue[1..] && queue[..w] == [cur] + more[..w - 1];
    forall i | w - 1 <= i < |more| ensures Steps(e, starts, l + 1, more[i]) {
      if i >= |queue| - 1 {
        assert more[i] in Succ(e, cur) && Steps(e, starts, l, cur);
      } else {
        assert more[i] == queue[i + 1];
      }
    }
    hide Steps, Succ;
  }

  /** What the search has visited when it meets k: everything nearer, and nothing farther. */
  ghost predicate MetInOrder(e: Edges, starts: seq<string>, k: string, h: nat, visited: nat) {
    && AtHops(e, starts, h, k) && visited < |Near(e, starts, h)|
    && (h > 0 ==> |Near(e, starts, h - 1)| <= visited)
  }

  lemma MeetsNow(e: Edges, starts: seq<string>, k: string, seen: set<string>, queue: seq<string>, w: nat, l: nat)
    requires w > 0 && Level(e, starts, seen, queue, w, l) && k !in seen && queue[0] == k
    requires seen <= Universe(e, starts) && k in Universe(e, starts)
    ensures MetInOrder(e, starts, k, l, |seen|)
  {
    hide Steps, Universe, Succ;
    assert Steps(e, starts, l, k);
    SubsetSize(seen + {k}, Near(e, starts, l));
    if l > 0 { SubsetSize(Near(e, starts, l - 1), seen); }
  }

  lemma SearchInOrder(e: Edges, starts: seq<string>, k: string, seen: set<string>, queue: seq<string>, w: nat, l: nat)
    requires seen <= Universe(e, starts) && (forall q :: q in queue ==> q in Universe(e, starts)) && k !in seen
    requires Level(e, starts, seen, queue, w, l)
    ensures var d := VisitedBefore(e, Universe(e, starts), k, seen, queue);
            d.Some? ==> exists h: nat :: MetInOrder(e, starts, k, h, d.value)
    decreases Universe(e, starts) - seen, |queue|, if w == 0 then 1 else 0
  {
    hide Level, MetInOrder, Universe;
    if queue != [] {
      HeadAndTail(queue);
      if w == 0 {
        NextLevel(e, starts, seen, queue, l);
        SearchInOrder(e, starts, k, seen, queue, |queue|, l + 1);
      } else if queue[0] == k {
        assert k in queue;
        MeetsNow(e, starts, k, seen, queue, w, l);
      } else if queue[0] in seen {
        SkipInLevel(e, starts, seen, queue, w, l);
        SearchInOrder(e, starts, k, seen, queue[1..], w - 1, l);
      } else {
        StepsInUniverse(e, starts, queue[0]);
        VisitInLevel(e, starts, seen, queue, w, l);
        SearchInOrder(e, starts, k, seen + {queue[0]}, queue[1..] + Succ(e, queue[0]), w - 1, l);
      }
    }
  }

  lemma StepsInUniverse(e: Edges, starts: seq<string>, n: string)
    ensures Nodes(e) <= Universe(e, starts) && forall q :: q in Succ(e, n) ==> q in Universe(e, starts)
  {
    SuccInNodes(e, n);
  }

  lemma {:induction false} HopsAreUnique(e: Edges, starts: seq<string>, n: string, g: nat, h: nat)
    requires AtHops(e, starts, g, n) && Steps(e, starts, h, n)
    ensures g <= h
    decreases h
  {
    if h < g { StepsGrow(e, starts, n, h, g - 1); }
  }

  lemma {:induction false} StepsGrow(e: Edges, starts: seq<string>, n: string, h: nat, g: nat)
    requires Steps(e, starts, h, n) && h <= g
    ensures Steps(e, starts, g, n)
  {
    if h < g { StepsGrow(e, starts, n, h, g - 1); }
  }

  lemma {:induction false} StepsReach(e: Edges, starts: seq<string>, h: nat, n: string)
    requires Steps(e, starts, h, n)
    ensures ReachesAny(e, starts, n)
  {
    hide Reaches;
    if h == 0 {
      ReachesSelf(e, n);
    } else if Steps(e, starts, h - 1, n) {
      StepsReach(e, starts, h - 1, n);
    } else {
      var u :| Steps(e, starts, h - 1, u) && n in Succ(e, u);
      StepsReach(e, starts, h - 1, u);
      var a :| a in starts && Reaches(e, a, u);
      ReachesStep(e, a, u, n);
    }
  }

  lemma FirstLevel(e: Edges, starts: seq<string>)
    ensures Level(e, starts, {}, starts, |starts|, 0) && forall q :: q in starts ==> q in Universe(e, starts)
  {
    assert starts[..|starts|] == starts;
  }

  /** The search is breadth first: a node h steps away is met after all nodes that are nearer and before any that is
      farther. */
  lemma NearestFirst(e: Edges, starts: seq<string>, k: string, h: nat)
    requires AtHops(e, starts, h, k)
    ensures Distance(e, starts, k).Some? && Distance(e, starts, k).value < |Near(e, starts, h)|
    ensures h > 0 ==> |Near(e, starts, h - 1)| <= Distance(e, starts, k).value
  {
    hide Steps, Near, VisitedBefore, Universe, Level, ReachSet, ReachesAny;
    StepsReach(e, starts, h, k);
    DistanceIsReach(e, starts, k);
    FirstLevel(e, starts);
    SearchInOrder(e, starts, k, {}, starts, |starts|, 0);
    var g: nat :| MetInOrder(e, starts, k, g, Distance(e, starts, k).value);
    HopsAreUnique(e, starts, k, g, h);
    HopsAreUnique(e, starts, k, h, g);
  }
}
