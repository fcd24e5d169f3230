/** What every loader builds: the quotient of the installed copies by normalised name. */
module Quotient {
  import opened Text
  import opened Paths
  import opened DepGraphs

  /** One installed copy as a lockfile records it: the name it is installed under, and its package's own. */
  datatype Copy = Copy(name: string, package: string, dev: bool, deps: seq<string>)

  function Unaliased(name: string, dev: bool, deps: seq<string>): Copy { Copy(name, name, dev, deps) }

  ghost predicate DependsOn(norm: Norm, c: Copy, a: string, b: string) {
    Key(norm, c.name) == a && Names(norm, c.deps, b)
  }

  ghost predicate SomeCopyDepends(norm: Norm, copies: seq<Copy>, a: string, b: string) {
    exists c :: c in copies && DependsOn(norm, c, a, b)
  }

  ghost predicate HasCopy(norm: Norm, copies: seq<Copy>, a: string) {
    exists c :: c in copies && Key(norm, c.name) == a
  }

  /** A package is present when some copy has its name, and depends on another when some copy of it does. */
  ghost predicate Recorded(e: Edges, present: set<string>, norm: Norm, copies: seq<Copy>) {
    && (forall a :: a in present <==> HasCopy(norm, copies, a))
    && (forall a, b :: Linked(e, a, b) <==> a != b && b != "" && SomeCopyDepends(norm, copies, a, b))
  }

  lemma NothingRecorded(norm: Norm)
    ensures Recorded(map[], {}, norm, [])
    ensures Counted(map[], map[], [])
  {
  }

  lemma RecordOne(e: Edges, present: set<string>, e': Edges, present': set<string>, norm: Norm,
                  copies: seq<Copy>, c: Copy)
    requires Recorded(e, present, norm, copies)
    requires present' == present + {Key(norm, c.name)}
    requires forall a, b :: Linked(e', a, b) <==>
                            Linked(e, a, b) || (a == Key(norm, c.name) && b != "" && b != a && Names(norm, c.deps, b))
    ensures Recorded(e', present', norm, copies + [c])
  {
    var more := copies + [c];
    forall x ensures x in more <==> x in copies || x == c {}
    forall a ensures a in present' <==> HasCopy(norm, more, a) {
      if a == Key(norm, c.name) { assert c in more; }
      if HasCopy(norm, copies, a) {
        var x :| x in copies && Key(norm, x.name) == a;
        assert x in more;
      }
    }
    OneCopyMore(norm, copies, c);
  }

  /** The graph that a list of copies makes, without a loader. */
  function Graph(norm: Norm, copies: seq<Copy>): Edges {
    if copies == [] then map[]
    else
      var c := copies[|copies| - 1];
      Added(Graph(norm, copies[..|copies| - 1]), norm, Key(norm, c.name), c.deps)
  }

  lemma {:induction false} GraphLinks(norm: Norm, copies: seq<Copy>)
    ensures WellFormed(Graph(norm, copies), norm)
    ensures forall a, b :: Linked(Graph(norm, copies), a, b) <==>
            a != b && b != "" && SomeCopyDepends(norm, copies, a, b)
  {
    hide Key, WellFormed, Linked, Added;
    if copies == [] {
      EmptyGraph(norm);
    } else {
      var n := |copies| - 1;
      var c, k := copies[n], Key(norm, copies[n].name);
      GraphLinks(norm, copies[..n]);
      KeyIdempotent(norm, c.name);
      AddedEdges(Graph(norm, copies[..n]), norm, k, c.deps);
      assert copies == copies[..n] + [c];
      OneCopyMore(norm, copies[..n], c);
    }
  }

  lemma EmptyGraph(norm: Norm)
    ensures WellFormed(map[], norm) && forall a, b :: !Linked(map[], a, b)
  {
  }

  lemma OneCopyMore(norm: Norm, copies: seq<Copy>, c: Copy)
    ensures forall a, b :: SomeCopyDepends(norm, copies + [c], a, b) <==>
            SomeCopyDepends(norm, copies, a, b) || DependsOn(norm, c, a, b)
  {
    var more := copies + [c];
    forall a, b ensures SomeCopyDepends(norm, more, a, b) <==>
           SomeCopyDepends(norm, copies, a, b) || DependsOn(norm, c, a, b) {
      if DependsOn(norm, c, a, b) { assert c in more; }
      if SomeCopyDepends(norm, copies, a, b) {
        var x :| x in copies && DependsOn(norm, x, a, b);
        assert x in more;
      }
    }
  }

  /** Copies, each depending on the next one's name. */
  ghost predicate Chain(norm: Norm, copies: seq<Copy>, chain: seq<Copy>) {
    && chain != []
    && (forall c :: c in chain ==> c in copies && Key(norm, c.name) != "")
    && forall i, j :: 0 <= i && j == i + 1 < |chain| ==>
       DependsOn(norm, chain[i], Key(norm, chain[i].name), Key(norm, chain[j].name))
  }

  lemma ChainFront(norm: Norm, copies: seq<Copy>, chain: seq<Copy>)
    requires Chain(norm, copies, chain) && |chain| > 1
    ensures Chain(norm, copies, chain[..|chain| - 1])
  {
    hide Key;
    var front := chain[..|chain| - 1];
    assert chain == front + [chain[|chain| - 1]];
    forall i, j | 0 <= i && j == i + 1 < |front|
      ensures DependsOn(norm, front[i], Key(norm, front[i].name), Key(norm, front[j].name))
    {
      assert DependsOn(norm, chain[i], Key(norm, chain[i].name), Key(norm, chain[j].name));
    }
  }

  /** Merging copies never loses a dependency: a chain of installed copies is a path between their names. */
  lemma {:induction false} ChainIsPath(e: Edges, present: set<string>, norm: Norm, copies: seq<Copy>, chain: seq<Copy>)
    requires Recorded(e, present, norm, copies) && Chain(norm, copies, chain)
    ensures Reaches(e, Key(norm, chain[0].name), Key(norm, chain[|chain| - 1].name))
    decreases |chain|
  {
    hide Key, Reaches;
    var n := |chain| - 1;
    if n == 0 {
      ReachesSelf(e, Key(norm, chain[0].name));
    } else {
      ChainFront(norm, copies, chain);
      ChainIsPath(e, present, norm, copies, chain[..n]);
      var a, b := Key(norm, chain[n - 1].name), Key(norm, chain[n].name);
      assert chain[n - 1] in chain && chain[n] in chain;
      assert DependsOn(norm, chain[n - 1], a, b);
      if a != b {
        assert SomeCopyDepends(norm, copies, a, b);
        assert Linked(e, a, b);
        ReachesStep(e, Key(norm, chain[0].name), a, b);
      }
    }
  }

  // ---- every copy of a name is dev ----

  ghost predicate AllDev(norm: Norm, copies: seq<Copy>, k: string) {
    forall c :: c in copies && Key(norm, c.name) == k ==> c.dev
  }

  /** A name is flagged dev-only exactly when every copy of it is dev. */
  ghost predicate FlagsAllDev(norm: Norm, devOnly: map<string, bool>, copies: seq<Copy>) {
    && (forall k :: k in devOnly <==> HasCopy(norm, copies, k))
    && (forall k :: k in devOnly ==> (devOnly[k] <==> AllDev(norm, copies, k)))
  }

  function CountName(copies: seq<Copy>, name: string): nat {
    if copies == [] then 0
    else CountName(copies[..|copies| - 1], name) + if copies[|copies| - 1].name == name then 1 else 0
  }

  function CountDev(copies: seq<Copy>, name: string): (n: nat)
    ensures n <= CountName(copies, name)
  {
    if copies == [] then 0
    else CountDev(copies[..|copies| - 1], name) +
         if copies[|copies| - 1].name == name && copies[|copies| - 1].dev then 1 else 0
  }

  /** The two counters of a name are equal exactly when every copy of it is dev. */
  lemma {:induction false} CountersAgree(copies: seq<Copy>, name: string)
    ensures CountName(copies, name) > 0 <==> HasCopy(Exact, copies, name)
    ensures CountDev(copies, name) == CountName(copies, name) <==> AllDev(Exact, copies, name)
  {
    if copies != [] {
      var n := |copies| - 1;
      CountersAgree(copies[..n], name);
      assert copies == copies[..n] + [copies[n]];
      assert forall c :: c in copies <==> c in copies[..n] || c == copies[n];
      if CountName(copies[..n], name) > 0 {
        var c :| c in copies[..n] && Key(Exact, c.name) == name;
        assert c in copies;
      }
    }
  }

  /** total and devCount hold the two counters of every recorded name. */
  ghost predicate Counted(total: map<string, nat>, devCount: map<string, nat>, copies: seq<Copy>) {
    && (forall n :: n in total <==> CountName(copies, n) > 0)
    && (forall n :: n in total ==> total[n] == CountName(copies, n))
    && (forall n :: CountOf(devCount, n) == CountDev(copies, n))
  }

  /** Reading a Go map of counters: a missing key counts zero. */
  function CountOf(m: map<string, nat>, n: string): nat {
    if n in m then m[n] else 0
  }

  lemma CountOne(total: map<string, nat>, devCount: map<string, nat>, copies: seq<Copy>, c: Copy)
    requires Counted(total, devCount, copies)
    ensures Counted(total[c.name := CountOf(total, c.name) + 1],
                    if c.dev then devCount[c.name := CountOf(devCount, c.name) + 1] else devCount,
                    copies + [c])
  {
    var more := copies + [c];
    assert more[..|more| - 1] == copies;
    forall n ensures CountName(more, n) == CountName(copies, n) + if c.name == n then 1 else 0 {}
    forall n ensures CountDev(more, n) == CountDev(copies, n) + if c.name == n && c.dev then 1 else 0 {}
  }
}

/** package-lock.json and npm-shrinkwrap.json, both layouts. */
module NpmLock {
  import opened Options
  import opened Text
  import opened Paths
  import opened DepGraphs
  import opened Quotient

  /** One entry of the flat layout; the dependency fields are the sorted keys of its maps. declared is its name field,
      which is there when the copy is installed under another name; the loader does not read it. */
  datatype Package = Package(key: string, declared: Option<string>, dev: bool, link: bool, dependencies: seq<string>,
                             devDependencies: seq<string>,
                             optionalDependencies: seq<string>, peerDependencies: seq<string>)
  {
    function Runtime(): seq<string> { dependencies + optionalDependencies + peerDependencies }

    function As(installed: string): Copy { Copy(installed, OrElse(declared, installed), dev, Runtime()) }
  }

  /** One entry of the nested layout; declared is the package that an npm: version names, which the loader does not
      read. */
  datatype Nested = Nested(name: string, declared: Option<string>, dev: bool, requires_: seq<string>,
                           children: seq<Nested>)
  {
    function Self(): Copy { Copy(name, OrElse(declared, name), dev, requires_) }
  }

  function OrElse(declared: Option<string>, name: string): string {
    if declared.Some? then declared.value else name
  }

  const NODE_MODULES := "node_modules/"

  function AfterLast(s: string, sub: string, i: nat): Option<string>
    requires i <= |s|
  {
    if i + |sub| <= |s| && s[i..i + |sub|] == sub then Some(s[i + |sub|..])
    else if i == 0 then None
    else AfterLast(s, sub, i - 1)
  }

  /** The package name of an installed copy; None for the root and workspace entries. */
  function InstalledName(key: string): Option<string> { AfterLast(key, NODE_MODULES, |key|) }

  /** The key has the marker at i. */
  ghost predicate Marked(key: string, i: nat) {
    i + |NODE_MODULES| <= |key| && key[i..i + |NODE_MODULES|] == NODE_MODULES
  }

  /** name is what follows the last marker of the key. */
  ghost predicate InstalledAs(key: string, name: string) {
    exists i: nat ::
      && Marked(key, i) && name == key[i + |NODE_MODULES|..]
      && forall j: nat :: i < j ==> !Marked(key, j)
  }

  lemma {:induction false} AfterLastIs(key: string, i: nat, name: string)
    requires i <= |key| && forall j: nat :: i < j ==> !Marked(key, j)
    ensures AfterLast(key, NODE_MODULES, i) == Some(name) <==> InstalledAs(key, name)
    ensures AfterLast(key, NODE_MODULES, i).None? <==> forall j: nat :: !Marked(key, j)
  {
    if Marked(key, i) {
      assert forall j: nat :: Marked(key, j) && (forall l: nat :: j < l ==> !Marked(key, l)) ==> j == i;
    } else if i > 0 {
      AfterLastIs(key, i - 1, name);
    }
  }

  /** The name of an installed copy is what follows the last marker; an entry without one is no copy. */
  lemma InstalledNameIs(key: string, name: string)
    ensures InstalledName(key) == Some(name) <==> InstalledAs(key, name)
    ensures InstalledName(key).None? <==> forall i: nat :: !Marked(key, i)
  {
    AfterLastIs(key, |key|, name);
    hide Marked;
  }

  /** However deep a copy is nested, its name is its own. */
  lemma NestedName(pre: string, name: string)
    requires forall i: nat :: !Marked(name, i)
    ensures InstalledName(pre + NODE_MODULES + name) == Some(name)
  {
    var key, at, n := pre + NODE_MODULES + name, |pre|, |NODE_MODULES|;
    assert key[at..at + n] == NODE_MODULES && key[at + n..] == name;
    forall j: nat | at < j ensures !Marked(key, j) { NoLaterMarker(pre, name, j); }
    assert Marked(key, at);
    hide Marked;
    InstalledNameIs(key, name);
  }

  lemma NoLaterMarker(pre: string, name: string, j: nat)
    requires |pre| < j && forall i: nat :: !Marked(name, i)
    ensures !Marked(pre + NODE_MODULES + name, j)
  {
    var key, at, n := pre + NODE_MODULES + name, |pre|, |NODE_MODULES|;
    if j + n <= |key| {
      if j < at + n {
        assert key[at + n - 1] == '/';
        assert key[j..j + n][at + n - 1 - j] == '/' && NODE_MODULES[at + n - 1 - j] != '/';
      } else {
        assert key[j..j + n] == name[j - at - n..j - at];
        assert !Marked(name, j - at - n);
      }
    }
  }

  lemma InstalledUnder(name: string)
    requires '/' !in name
    ensures InstalledName(NODE_MODULES + name) == Some(name)
  {
    forall i: nat ensures !Marked(name, i) {
      if i + |NODE_MODULES| <= |name| {
        assert name[i..i + |NODE_MODULES|][|NODE_MODULES| - 1] in name;
        assert NODE_MODULES[|NODE_MODULES| - 1] == '/';
      }
    }
    NestedName("", name);
    assert "" + NODE_MODULES + name == NODE_MODULES + name;
  }

  function FlatCopies(packages: seq<Package>): seq<Copy> {
    if packages == [] then []
    else
      var p := packages[|packages| - 1];
      var n := InstalledName(p.key);
      FlatCopies(packages[..|packages| - 1]) + if !p.link && n.Some? then [p.As(n.value)] else []
  }

  function TreeCopies(tree: seq<Nested>): seq<Copy> {
    if tree == [] then []
    else
      var t := tree[|tree| - 1];
      TreeCopies(tree[..|tree| - 1]) + [t.Self()] + TreeCopies(t.children)
  }

  /** c is the copy that the entry stands for. */
  ghost predicate IsCopyOf(c: Copy, p: Package) {
    && !p.link && InstalledAs(p.key, c.name) && c.dev == p.dev
    && c.package == (if p.declared.Some? then p.declared.value else c.name)
    && forall d :: d in c.deps <==> d in p.dependencies || d in p.optionalDependencies || d in p.peerDependencies
  }

  lemma CopyOfEntry(p: Package, name: string)
    requires !p.link && InstalledName(p.key) == Some(name)
    ensures IsCopyOf(p.As(name), p)
  {
    InstalledNameIs(p.key, name);
    hide InstalledName, InstalledAs;
  }

  /** Exactly the entries with a marker that are no links are copies, and each is read with its own fields. */
  lemma {:induction false} FlatCopiesExactly(packages: seq<Package>)
    ensures forall c :: c in FlatCopies(packages) ==> exists p :: p in packages && IsCopyOf(c, p)
    ensures forall p, name :: p in packages && !p.link && InstalledAs(p.key, name) ==>
              exists c :: c in FlatCopies(packages) && c.name == name && IsCopyOf(c, p)
  {
    if packages != [] {
      var n := |packages| - 1;
      var p := packages[n];
      assert packages == packages[..n] + [p];
      FlatCopiesExactly(packages[..n]);
      var installed := InstalledName(p.key);
      forall name { InstalledNameIs(p.key, name); }
      if !p.link && installed.Some? { CopyOfEntry(p, installed.value); }
      LastCopy(packages);
      hide IsCopyOf, InstalledName, InstalledAs, FlatCopies, Package.As;
      assert forall q :: q in packages <==> q in packages[..n] || q == p;
    }
  }

  lemma LastCopy(packages: seq<Package>)
    requires packages != []
    ensures var n := |packages| - 1;
            var p, installed := packages[n], InstalledName(packages[n].key);
            && (forall c :: c in FlatCopies(packages) <==>
                  c in FlatCopies(packages[..n]) || (!p.link && installed.Some? && c == p.As(installed.value)))
            && (installed.Some? ==> p.As(installed.value).name == installed.value)
  {
  }

  /** Somewhere in the nested layout. */
  ghost predicate Within(t: Nested, tree: seq<Nested>)
    decreases tree
  {
    exists i :: 0 <= i < |tree| && (tree[i] == t || Within(t, tree[i].children))
  }

  ghost predicate IsCopyIn(c: Copy, t: Nested) {
    && c.name == t.name && c.dev == t.dev && c.deps == t.requires_
    && c.package == (if t.declared.Some? then t.declared.value else t.name)
  }

  /** Every entry of the nested layout is a copy, at any depth, and nothing else is. */
  lemma {:induction false} TreeCopiesExactly(tree: seq<Nested>, c: Copy)
    ensures c in TreeCopies(tree) <==> exists t :: Within(t, tree) && IsCopyIn(c, t)
    decreases tree
  {
    if tree != [] {
      var n := |tree| - 1;
      var front, last := tree[..n], tree[n];
      TreeCopiesExactly(front, c);
      TreeCopiesExactly(last.children, c);
      forall t ensures Within(t, tree) <==> Within(t, front) || t == last || Within(t, last.children) {
        WithinSnoc(t, tree);
      }
      hide Within;
      assert IsCopyIn(c, last) <==> c == last.Self();
      assert c in TreeCopies(tree) <==> c in TreeCopies(front) || c == last.Self() || c in TreeCopies(last.children);
      hide TreeCopies, IsCopyIn;
    }
  }

  lemma WithinSnoc(t: Nested, tree: seq<Nested>)
    requires tree != []
    ensures var n := |tree| - 1;
            Within(t, tree) <==> Within(t, tree[..n]) || t == tree[n] || Within(t, tree[n].children)
  {
    var n := |tree| - 1;
    if i :| 0 <= i < |tree| && (tree[i] == t || Within(t, tree[i].children)) {
      if i < n { assert tree[..n][i] == tree[i]; }
    }
    if i :| 0 <= i < n && (tree[..n][i] == t || Within(t, tree[..n][i].children)) { assert tree[i] == tree[..n][i]; }
  }

  ghost predicate IsProject(p: Package) { !p.link && InstalledName(p.key).None? }

  ghost predicate Declares(packages: seq<Package>, x: string) {
    exists p :: p in packages && IsProject(p) && x in p.Runtime()
  }

  ghost predicate DeclaresDev(packages: seq<Package>, x: string) {
    exists p :: p in packages && IsProject(p) && x in p.devDependencies
  }

  ghost predicate HasMarker(key: string) {
    exists i: nat :: Marked(key, i)
  }

  /** The project's own dependencies are those of the entries without a marker that are no links. */
  lemma DeclaresExactly(packages: seq<Package>, x: string)
    ensures Declares(packages, x) <==>
            exists p :: p in packages && !p.link && !HasMarker(p.key) &&
                        (x in p.dependencies || x in p.optionalDependencies || x in p.peerDependencies)
    ensures DeclaresDev(packages, x) <==>
            exists p :: p in packages && !p.link && !HasMarker(p.key) && x in p.devDependencies
  {
    forall p: Package { InstalledNameIs(p.key, ""); }
    hide InstalledName, Marked;
  }

  lemma {:induction false} FlatCopiesHolds(packages: seq<Package>, p: Package)
    requires p in packages && !p.link && InstalledName(p.key).Some?
    ensures p.As(InstalledName(p.key).value) in FlatCopies(packages)
  {
    var n := |packages| - 1;
    assert packages == packages[..n] + [packages[n]];
    if packages[n] != p {
      FlatCopiesHolds(packages[..n], p);
    }
  }

  lemma OneMore(packages: seq<Package>, p: Package)
    ensures forall x :: Declares(packages + [p], x) <==> Declares(packages, x) || (IsProject(p) && x in p.Runtime())
    ensures forall x :: DeclaresDev(packages + [p], x) <==>
                        DeclaresDev(packages, x) || (IsProject(p) && x in p.devDependencies)
  {
    var more := packages + [p];
    assert p in more;
    forall q ensures q in more <==> q in packages || q == p {}
    forall x | Declares(packages, x) ensures Declares(more, x) {
      var q :| q in packages && IsProject(q) && x in q.Runtime();
      assert q in more;
    }
    forall x | DeclaresDev(packages, x) ensures DeclaresDev(more, x) {
      var q :| q in packages && IsProject(q) && x in q.devDependencies;
      assert q in more;
    }
  }

  /** Adds one copy to the graph and to the two counters of its name. */
  method Record(g: DepGraph, c: Copy, total: map<string, nat>, devCount: map<string, nat>, ghost copies: seq<Copy>)
    returns (total': map<string, nat>, devCount': map<string, nat>)
    requires g.Valid() && g.norm == Exact
    requires Recorded(g.edges, g.present, Exact, copies) && Counted(total, devCount, copies)
    modifies g`edges, g`present
    ensures g.Valid() && Recorded(g.edges, g.present, Exact, copies + [c]) && Counted(total', devCount', copies + [c])
  {
    ghost var e, present := g.edges, g.present;
    g.Add(c.name, c.deps);
    RecordOne(e, present, g.edges, g.present, Exact, copies, c);
    CountOne(total, devCount, copies, c);
    total' := total[c.name := CountOf(total, c.name) + 1];
    devCount' := if c.dev then devCount[c.name := CountOf(devCount, c.name) + 1] else devCount;
  }

  lemma TreeCopiesStep(copies: seq<Copy>, tree: seq<Nested>, i: nat)
    requires i < |tree|
    ensures copies + TreeCopies(tree[..i + 1]) ==
            copies + TreeCopies(tree[..i]) + [tree[i].Self()] +
            TreeCopies(tree[i].children)
  {
    assert tree[..i + 1][..i] == tree[..i];
  }

  /** The recursive walk over the nested layout. */
  method Walk(g: DepGraph, tree: seq<Nested>, total: map<string, nat>, devCount: map<string, nat>,
              ghost copies: seq<Copy>)
    returns (total': map<string, nat>, devCount': map<string, nat>)
    requires g.Valid() && g.norm == Exact
    requires Recorded(g.edges, g.present, Exact, copies) && Counted(total, devCount, copies)
    modifies g`edges, g`present
    ensures g.Valid() && Recorded(g.edges, g.present, Exact, copies + TreeCopies(tree))
    ensures Counted(total', devCount', copies + TreeCopies(tree))
    decreases tree
  {
    total', devCount' := total, devCount;
    assert copies + [] == copies;
    ghost var done := copies;
    for i := 0 to |tree|
      invariant done == copies + TreeCopies(tree[..i])
      invariant g.Valid() && Recorded(g.edges, g.present, Exact, done) && Counted(total', devCount', done)
    {
      var d := tree[i];
      TreeCopiesStep(copies, tree, i);
      total', devCount' := Record(g, d.Self(), total', devCount', done);
      done := done + [d.Self()];
      total', devCount' := Walk(g, d.children, total', devCount', done);
      done := done + TreeCopies(d.children);
    }
    assert tree[..|tree|] == tree;
  }

  /** The last loop of the loader: a name is dev-only when both counters agree. */
  method FlagDevOnly(g: DepGraph, total: map<string, nat>, devCount: map<string, nat>, ghost copies: seq<Copy>)
    requires g.devOnlyFlag == map[] && Counted(total, devCount, copies)
    modifies g`devOnlyFlag
    ensures FlagsAllDev(Exact, g.devOnlyFlag, copies)
  {
    var names := total.Keys;
    while names != {}
      invariant names <= total.Keys
      invariant forall n :: n in g.devOnlyFlag <==> n in total && n !in names
      invariant forall n :: n in g.devOnlyFlag ==> (g.devOnlyFlag[n] <==> CountDev(copies, n) == CountName(copies, n))
    {
      var n :| n in names;
      names := names - {n};
      g.devOnlyFlag := g.devOnlyFlag[n := CountOf(devCount, n) == total[n]];
    }
    forall n ensures n in total <==> HasCopy(Exact, copies, n) { CountersAgree(copies, n); }
    forall n | n in g.devOnlyFlag ensures g.devOnlyFlag[n] <==> AllDev(Exact, copies, n) { CountersAgree(copies, n); }
  }

  function Copies(packages: seq<Package>, tree: seq<Nested>): seq<Copy> {
    if packages != [] then FlatCopies(packages) else TreeCopies(tree)
  }

  /** The loop over the flat layout: installed copies become packages, the other entries the project's own
      dependencies. */
  method ReadPackages(g: DepGraph, packages: seq<Package>) returns (total: map<string, nat>, devCount: map<string, nat>)
    requires g.Valid() && g.norm == Exact
    requires g.edges == map[] && g.present == {} && g.root == [] && g.rootDev == []
    modifies g`edges, g`present, g`root, g`rootDev
    ensures g.Valid() && Recorded(g.edges, g.present, Exact, FlatCopies(packages))
    ensures Counted(total, devCount, FlatCopies(packages))
    ensures forall x :: x in g.root <==> x != "" && Declares(packages, x)
    ensures forall x :: x in g.rootDev <==> x != "" && DeclaresDev(packages, x)
    ensures NoDup(g.root) && NoDup(g.rootDev)
  {
    total, devCount := map[], map[];
    ghost var copies: seq<Copy> := [];
    for i := 0 to |packages|
      invariant copies == FlatCopies(packages[..i])
      invariant g.Valid() && Recorded(g.edges, g.present, Exact, copies) && Counted(total, devCount, copies)
      invariant forall x :: x in g.root <==> x != "" && Declares(packages[..i], x)
      invariant forall x :: x in g.rootDev <==> x != "" && DeclaresDev(packages[..i], x)
      invariant NoDup(g.root) && NoDup(g.rootDev)
    {
      var p := packages[i];
      FlatCopiesStep(packages, i);
      OneMore(packages[..i], p);
      if p.link { continue; }
      var installed := InstalledName(p.key);
      if installed.Some? {
        total, devCount := Record(g, p.As(installed.value), total, devCount, copies);
        copies := copies + [p.As(installed.value)];
        continue;
      }
      g.root := AppendUniqueAll(g.root, p.Runtime());
      g.rootDev := AppendUniqueAll(g.rootDev, p.devDependencies);
    }
    assert packages[..|packages|] == packages;
  }

  lemma FlatCopiesStep(packages: seq<Package>, i: nat)
    requires i < |packages|
    ensures packages[..i + 1] == packages[..i] + [packages[i]]
    ensures var p := packages[i];
            var n := InstalledName(p.key);
            FlatCopies(packages[..i + 1]) ==
            FlatCopies(packages[..i]) + if !p.link && n.Some? then [p.As(n.value)] else []
  {
    assert packages[..i + 1][..i] == packages[..i];
  }

  method ParsePackageLock(packages: seq<Package>, tree: seq<Nested>, cap: nat) returns (g: DepGraph)
    ensures fresh(g) && g.Valid() && g.cap == cap && g.norm == Exact
    ensures g.hasEdges && g.devFlags && g.rootKnown == g.devSplit == (packages != [])
    ensures Recorded(g.edges, g.present, Exact, if packages == [] then TreeCopies(tree) else FlatCopies(packages))
    ensures Recorded(g.edges, g.present, Exact, Copies(packages, tree))
    ensures forall x :: x in g.root <==> x != "" && Declares(packages, x)
    ensures forall x :: x in g.rootDev <==> x != "" && DeclaresDev(packages, x) && !Declares(packages, x)
    ensures NoDup(g.root) && NoDup(g.rootDev)
    ensures FlagsAllDev(Exact, g.devOnlyFlag, Copies(packages, tree))
  {
    hide Recorded, Counted, FlatCopies, TreeCopies, FlagsAllDev, WellFormed;
    g := new DepGraph(Exact, cap);
    NothingRecorded(Exact);
    g.hasEdges, g.devFlags := true, true;
    var devCount: map<string, nat>, total: map<string, nat> := map[], map[];
    if packages != [] {
      g.rootKnown, g.devSplit := true, true;
      total, devCount := ReadPackages(g, packages);
    } else {
      total, devCount := Walk(g, tree, total, devCount, []);
      assert [] + TreeCopies(tree) == TreeCopies(tree);
    }
    FlagDevOnly(g, total, devCount, Copies(packages, tree));
    g.rootDev := Minus(g.rootDev, g.root);
  }

  /** The split by package.json, for a lockfile that does not record the project's own lists. Workspace members declare
      theirs elsewhere, so with them the split is not used. */
  method RootFromManifest(g: DepGraph, runtime: seq<string>, dev: seq<string>, workspaces: bool)
    requires g.Valid()
    modifies g`root, g`rootDev, g`rootKnown, g`devSplit
    ensures g.rootKnown && (g.devSplit <==> !workspaces)
    ensures forall x :: x in g.root <==> x != "" && x in runtime
    ensures forall x :: x in g.rootDev <==> x in dev && x !in g.root
  {
    g.root := AppendUniqueAll([], runtime);
    g.rootDev := Minus(dev, g.root);
    g.rootKnown, g.devSplit := true, !workspaces;
  }

  /** Installed copies, each depending on the next one's name through any of its runtime dependency maps. */
  ghost predicate InstalledChain(packages: seq<Package>, chain: seq<Package>) {
    && chain != []
    && (forall p :: p in chain ==>
        p in packages && !p.link && InstalledName(p.key).Some? && InstalledName(p.key).value != "")
    && forall i, j :: 0 <= i && j == i + 1 < |chain| ==> InstalledName(chain[j].key).value in chain[i].Runtime()
  }

  /** A dependency chain between installed copies, whatever copies the package manager resolved,
      is a path between their names in the loaded graph. */
  lemma InstalledChainIsPath(packages: seq<Package>, chain: seq<Package>, e: Edges, present: set<string>)
    requires Recorded(e, present, Exact, FlatCopies(packages)) && InstalledChain(packages, chain)
    ensures Reaches(e, InstalledName(chain[0].key).value, InstalledName(chain[|chain| - 1].key).value)
  {
    var copies := seq(|chain|, i requires 0 <= i < |chain| =>
      assert chain[i] in chain;
      chain[i].As(InstalledName(chain[i].key).value));
    forall c | c in copies ensures c in FlatCopies(packages) && Key(Exact, c.name) != "" {
      var i :| 0 <= i < |copies| && copies[i] == c;
      assert chain[i] in chain;
      FlatCopiesHolds(packages, chain[i]);
    }
    forall i, j | 0 <= i && j == i + 1 < |copies|
      ensures DependsOn(Exact, copies[i], Key(Exact, copies[i].name), Key(Exact, copies[j].name))
    {
      var d := InstalledName(chain[j].key).value;
      assert d in chain[i].Runtime();
      assert d in copies[i].deps && Key(Exact, d) == Key(Exact, copies[j].name);
    }
    ChainIsPath(e, present, Exact, FlatCopies(packages), copies);
  }
}
