/** pnpm-lock.yaml. */
module PnpmLock {
  import opened Options
  import opened Text
  import opened Paths
  import opened DepGraphs
  import opened Quotient

  /** One line of a dependency map: its key, and the package that it resolves to. The loader reads the key alone. */
  datatype Dep = Dep(key: string, package: string)
  {
    predicate IsRenamed() { key != package }
  }

  /** A packages or snapshots entry, under the name in its own key: its deps are its dependencies and
      optionalDependencies. */
  datatype Package = Package(name: string, deps: seq<Dep>, dev: Option<bool>)

  /** An importer, or the top level of an old file, which is the first of them. */
  datatype Importer = Importer(runtime: seq<Dep>, dev: seq<Dep>)

  /** Three ways to read dependencies: by their keys as the loader does, by what they resolve to, and those alone for
      which it is the same. */
  datatype View = Keys | Resolved | Unrenamed

  function Read(deps: seq<Dep>, v: View): seq<string> {
    if deps == [] then []
    else
      var d := deps[|deps| - 1];
      Read(deps[..|deps| - 1], v) +
      match v
      case Keys => [d.key]
      case Resolved => [d.package]
      case Unrenamed => if d.IsRenamed() then [] else [d.key]
  }

  lemma {:induction false} ReadHolds(deps: seq<Dep>, x: string)
    ensures x in Read(deps, Keys) <==> exists d :: d in deps && d.key == x
    ensures x in Read(deps, Resolved) <==> exists d :: d in deps && d.package == x
    ensures x in Read(deps, Unrenamed) <==> exists d :: d in deps && d.key == x && !d.IsRenamed()
  {
    if deps != [] {
      var n := |deps| - 1;
      ReadHolds(deps[..n], x);
      assert deps == deps[..n] + [deps[n]];
      assert forall d :: d in deps <==> d in deps[..n] || d == deps[n];
    }
  }

  function Copies(packages: seq<Package>, v: View): seq<Copy> {
    seq(|packages|, i requires 0 <= i < |packages| =>
      Unaliased(packages[i].name, packages[i].dev == Some(true), Read(packages[i].deps, v)))
  }

  ghost predicate Flagged(packages: seq<Package>, k: string) {
    exists p :: p in packages && p.name == k && p.dev.Some?
  }

  ghost predicate FlaggedAllDev(packages: seq<Package>, k: string) {
    forall p :: p in packages && p.name == k && p.dev.Some? ==> p.dev.value
  }

  ghost predicate Imports(importers: seq<Importer>, v: View, x: string) {
    exists m :: m in importers && x in Read(m.runtime, v)
  }

  ghost predicate ImportsDev(importers: seq<Importer>, x: string) {
    exists m :: m in importers && x in Read(m.dev, Keys)
  }

  lemma FlagStep(packages: seq<Package>, p: Package)
    ensures forall k :: Flagged(packages + [p], k) <==> Flagged(packages, k) || (p.name == k && p.dev.Some?)
    ensures forall k :: FlaggedAllDev(packages + [p], k) <==>
                        FlaggedAllDev(packages, k) && (p.name == k && p.dev.Some? ==> p.dev.value)
  {
    var more := packages + [p];
    assert p in more;
    forall q ensures q in more <==> q in packages || q == p {}
    forall k | Flagged(packages, k) ensures Flagged(more, k) {
      var q :| q in packages && q.name == k && q.dev.Some?;
      assert q in more;
    }
  }

  method AddAll(g: DepGraph, packages: seq<Package>, ghost before: seq<Copy>)
    requires g.Valid() && g.norm == Exact && Recorded(g.edges, g.present, Exact, before)
    modifies g`edges, g`present
    ensures g.Valid() && Recorded(g.edges, g.present, Exact, before + Copies(packages, Keys))
  {
    ghost var copies := before;
    for i := 0 to |packages|
      invariant copies == before + Copies(packages[..i], Keys)
      invariant g.Valid() && Recorded(g.edges, g.present, Exact, copies)
    {
      ghost var e, present := g.edges, g.present;
      ghost var c := Unaliased(packages[i].name, packages[i].dev == Some(true), Read(packages[i].deps, Keys));
      g.Add(packages[i].name, Read(packages[i].deps, Keys));
      RecordOne(e, present, g.edges, g.present, Exact, copies, c);
      assert Copies(packages[..i + 1], Keys) == Copies(packages[..i], Keys) + [c];
      copies := copies + [c];
    }
    assert packages[..|packages|] == packages;
  }

  /** The flags read so far: a name is dev-only while every flag seen for it says so. */
  ghost predicate FlagsRead(devOnly: map<string, bool>, packages: seq<Package>) {
    && (forall k :: k in devOnly <==> Flagged(packages, k))
    && (forall k :: k in devOnly ==> (devOnly[k] <==> FlaggedAllDev(packages, k)))
  }

  lemma ReadOne(devOnly: map<string, bool>, packages: seq<Package>, p: Package)
    requires FlagsRead(devOnly, packages)
    ensures p.dev.Some? ==>
              FlagsRead(devOnly[p.name := p.dev.value && (p.name !in devOnly || devOnly[p.name])], packages + [p])
    ensures p.dev.None? ==> FlagsRead(devOnly, packages + [p])
  {
    FlagStep(packages, p);
    assert !Flagged(packages, p.name) ==> FlaggedAllDev(packages, p.name);
  }

  method ReadFlags(packages: seq<Package>) returns (devOnly: map<string, bool>, all: bool)
    ensures FlagsRead(devOnly, packages)
    ensures all <==> packages != [] && forall p :: p in packages ==> p.dev.Some?
  {
    devOnly := map[];
    var flags := 0;
    for i := 0 to |packages|
      invariant FlagsRead(devOnly, packages[..i])
      invariant 0 <= flags <= i && (flags == i <==> forall j :: 0 <= j < i ==> packages[j].dev.Some?)
    {
      var p := packages[i];
      assert packages[..i + 1] == packages[..i] + [p];
      ReadOne(devOnly, packages[..i], p);
      if p.dev.Some? {
        flags := flags + 1;
        devOnly := devOnly[p.name := p.dev.value && (p.name !in devOnly || devOnly[p.name])];
      }
    }
    assert packages[..|packages|] == packages;
    all := flags > 0 && flags == |packages|;
  }

  method ReadImporters(importers: seq<Importer>) returns (root: seq<string>, rootDev: seq<string>)
    ensures NoDup(root) && forall x :: x in root <==> x != "" && Imports(importers, Keys, x)
    ensures forall x :: x in rootDev <==> x != "" && ImportsDev(importers, x) && x !in root
  {
    root, rootDev := [], [];
    for i := 0 to |importers|
      invariant NoDup(root) && forall x :: x in root <==> x != "" && Imports(importers[..i], Keys, x)
      invariant forall x :: x in rootDev <==> x != "" && ImportsDev(importers[..i], x)
    {
      var m := importers[i];
      assert importers[..i + 1] == importers[..i] + [m];
      forall x ensures Imports(importers[..i + 1], Keys, x) <==>
                       Imports(importers[..i], Keys, x) || x in Read(m.runtime, Keys) {}
      forall x ensures ImportsDev(importers[..i + 1], x) <==> ImportsDev(importers[..i], x) || x in Read(m.dev, Keys) {}
      root := AppendUniqueAll(root, Read(m.runtime, Keys));
      rootDev := AppendUniqueAll(rootDev, Read(m.dev, Keys));
    }
    assert importers[..|importers|] == importers;
    rootDev := Minus(rootDev, root);
  }

  /** The dev flags count only when every package carries one; then a name is dev-only when all its packages are. */
  method ParsePnpmLock(importers: seq<Importer>, packages: seq<Package>, snapshots: seq<Package>, cap: nat)
    returns (g: DepGraph)
    ensures fresh(g) && g.Valid() && g.cap == cap && g.norm == Exact
    ensures g.hasEdges && g.rootKnown && g.devSplit
    ensures Recorded(g.edges, g.present, Exact, Copies(packages, Keys) + Copies(snapshots, Keys))
    ensures NoDup(g.root) && forall x :: x in g.root <==> x != "" && Imports(importers, Keys, x)
    ensures forall x :: x in g.rootDev <==> x != "" && ImportsDev(importers, x) && x !in g.root
    ensures g.devFlags <==> packages != [] && forall p :: p in packages ==> p.dev.Some?
    ensures FlagsRead(g.devOnlyFlag, packages)
  {
    hide WellFormed, Copies, Imports, ImportsDev, FlagsRead;
    g := new DepGraph(Exact, cap);
    g.hasEdges, g.rootKnown, g.devSplit := true, true, true;
    g.root, g.rootDev := ReadImporters(importers);
    AddAll(g, packages, []);
    assert [] + Copies(packages, Keys) == Copies(packages, Keys);
    g.devOnlyFlag, g.devFlags := ReadFlags(packages);
    AddAll(g, snapshots, Copies(packages, Keys));
  }

  // ---- renamed dependencies ----

  function Dependencies(entries: seq<Package>, snapshots: seq<Package>, v: View): Edges {
    Graph(Exact, Copies(entries, v) + Copies(snapshots, v))
  }

  /** A runtime import leads to k, reading dependencies in one way. */
  ghost predicate Needed(importers: seq<Importer>, entries: seq<Package>, snapshots: seq<Package>, v: View, k: string) {
    exists x :: x != "" && Imports(importers, v, x) && Reaches(Dependencies(entries, snapshots, v), x, k)
  }

  ghost predicate ImportsDep(importers: seq<Importer>, d: Dep) {
    exists m :: m in importers && d in m.runtime
  }

  /** A renamed dependency of a runtime importer, or of a package that one leads to without renaming, resolves to a
      package that leads to k. */
  ghost predicate RenamedOnTheWay(importers: seq<Importer>, entries: seq<Package>, snapshots: seq<Package>, k: string) {
    exists d: Dep ::
      && d.IsRenamed() && d.package != "" && Reaches(Dependencies(entries, snapshots, Resolved), d.package, k)
      && (ImportsDep(importers, d) || DependsOnRenamed(importers, entries, snapshots, d))
  }

  ghost predicate DependsOnRenamed(importers: seq<Importer>, entries: seq<Package>, snapshots: seq<Package>, d: Dep) {
    exists q :: q in entries + snapshots && d in q.deps && Needed(importers, entries, snapshots, Unrenamed, q.name)
  }

  ghost predicate Declares(entries: seq<Package>, snapshots: seq<Package>, v: View, a: string, b: string) {
    exists q :: q in entries + snapshots && q.name == a && b in Read(q.deps, v)
  }

  lemma CopyOf(entries: seq<Package>, v: View, c: Copy)
    requires c in Copies(entries, v)
    ensures exists q :: q in entries && c.name == q.name && c.deps == Read(q.deps, v)
  {
    hide Read;
    var i :| 0 <= i < |entries| && Copies(entries, v)[i] == c;
    assert entries[i] in entries;
  }

  lemma HasCopyOf(entries: seq<Package>, v: View, q: Package)
    requires q in entries
    ensures Unaliased(q.name, q.dev == Some(true), Read(q.deps, v)) in Copies(entries, v)
  {
    hide Read;
    var i :| 0 <= i < |entries| && entries[i] == q;
    assert Copies(entries, v)[i] in Copies(entries, v);
  }

  lemma CopiesDeclare(entries: seq<Package>, snapshots: seq<Package>, v: View, a: string, b: string)
    ensures SomeCopyDepends(Exact, Copies(entries, v) + Copies(snapshots, v), a, b) <==>
            Declares(entries, snapshots, v, a, b)
  {
    var copies := Copies(entries, v) + Copies(snapshots, v);
    hide Copies, Read;
    if SomeCopyDepends(Exact, copies, a, b) {
      var c :| c in copies && DependsOn(Exact, c, a, b);
      if c in Copies(entries, v) { CopyOf(entries, v, c); } else { CopyOf(snapshots, v, c); }
    }
    if q :| q in entries + snapshots && q.name == a && b in Read(q.deps, v) {
      if q in entries { HasCopyOf(entries, v, q); } else { HasCopyOf(snapshots, v, q); }
      assert DependsOn(Exact, Unaliased(q.name, q.dev == Some(true), Read(q.deps, v)), a, b);
    }
  }

  lemma DependencyLinks(entries: seq<Package>, snapshots: seq<Package>, v: View)
    ensures WellFormed(Dependencies(entries, snapshots, v), Exact)
    ensures forall a, b :: Linked(Dependencies(entries, snapshots, v), a, b) <==>
            a != b && b != "" && Declares(entries, snapshots, v, a, b)
  {
    GraphLinks(Exact, Copies(entries, v) + Copies(snapshots, v));
    hide WellFormed, Graph, Linked, Read, Copies, Declares, SomeCopyDepends;
    forall a, b { CopiesDeclare(entries, snapshots, v, a, b); }
  }

  /** The loaded graph, entry by entry, read by the keys of the dependency maps. */
  lemma EntriesExactly(e: Edges, present: set<string>, entries: seq<Package>, snapshots: seq<Package>)
    requires Recorded(e, present, Exact, Copies(entries, Keys) + Copies(snapshots, Keys))
    ensures forall k :: k in present <==> exists q :: (q in entries || q in snapshots) && q.name == k
    ensures forall x, y :: Linked(e, x, y) <==>
            && x != y && y != ""
            && exists q, d :: (q in entries || q in snapshots) && d in q.deps && q.name == x && d.key == y
  {
    var a, b := Copies(entries, Keys), Copies(snapshots, Keys);
    forall x, y { CopiesDeclare(entries, snapshots, Keys, x, y); }
    forall x, y
      ensures Declares(entries, snapshots, Keys, x, y) <==>
              exists q, d :: (q in entries || q in snapshots) && d in q.deps && q.name == x && d.key == y
    {
      forall q | q in entries + snapshots { ReadHolds(q.deps, y); }
      hide Read;
      if q, d :| (q in entries || q in snapshots) && d in q.deps && q.name == x && d.key == y {
        assert q in entries + snapshots;
      }
    }
    hide Read, Linked, Declares, SomeCopyDepends;
    forall c | c in a ensures exists q :: q in entries && c.name == q.name { CopyOf(entries, Keys, c); }
    forall c | c in b ensures exists q :: q in snapshots && c.name == q.name { CopyOf(snapshots, Keys, c); }
    forall q | q in entries ensures HasCopy(Exact, a + b, q.name) { HasCopyOf(entries, Keys, q); }
    forall q | q in snapshots ensures HasCopy(Exact, a + b, q.name) { HasCopyOf(snapshots, Keys, q); }
    hide Copies;
  }

  /** A renamed dependency is read differently by key and by what it resolves to; any other is read alike. */
  lemma ReadUnrenamed(deps: seq<Dep>, x: string)
    ensures x in Read(deps, Unrenamed) ==> x in Read(deps, Keys) && x in Read(deps, Resolved)
    ensures x in Read(deps, Resolved) && x !in Read(deps, Unrenamed) ==>
            exists d :: d in deps && d.package == x && d.IsRenamed()
  {
    ReadHolds(deps, x);
    hide Read;
  }

  lemma UnrenamedLinks(entries: seq<Package>, snapshots: seq<Package>)
    ensures SubGraph(Dependencies(entries, snapshots, Unrenamed), Dependencies(entries, snapshots, Keys))
    ensures SubGraph(Dependencies(entries, snapshots, Unrenamed), Dependencies(entries, snapshots, Resolved))
  {
    forall v { DependencyLinks(entries, snapshots, v); }
    hide WellFormed, Dependencies, Linked, Read;
    forall a, b | Declares(entries, snapshots, Unrenamed, a, b)
      ensures Declares(entries, snapshots, Keys, a, b) && Declares(entries, snapshots, Resolved, a, b)
    {
      var q :| q in entries + snapshots && q.name == a && b in Read(q.deps, Unrenamed);
      ReadUnrenamed(q.deps, b);
    }
  }

  lemma UnrenamedImports(importers: seq<Importer>, x: string)
    ensures Imports(importers, Unrenamed, x) ==> Imports(importers, Keys, x) && Imports(importers, Resolved, x)
    ensures Imports(importers, Resolved, x) && !Imports(importers, Unrenamed, x) ==>
            exists d :: ImportsDep(importers, d) && d.package == x && d.IsRenamed()
  {
    hide Read;
    if m :| m in importers && x in Read(m.runtime, Unrenamed) { ReadUnrenamed(m.runtime, x); }
    if Imports(importers, Resolved, x) && !Imports(importers, Unrenamed, x) {
      var m :| m in importers && x in Read(m.runtime, Resolved);
      ReadUnrenamed(m.runtime, x);
      var d :| d in m.runtime && d.package == x && d.IsRenamed();
      assert ImportsDep(importers, d);
    }
  }

  /** What needs no renaming is needed, and the loader sees it. */
  lemma NeededUnrenamed(importers: seq<Importer>, entries: seq<Package>, snapshots: seq<Package>, k: string)
    requires Needed(importers, entries, snapshots, Unrenamed, k)
    ensures Needed(importers, entries, snapshots, Keys, k) && Needed(importers, entries, snapshots, Resolved, k)
  {
    hide Dependencies, Linked, Reaches, Imports;
    var x :| x != "" && Imports(importers, Unrenamed, x) && Reaches(Dependencies(entries, snapshots, Unrenamed), x, k);
    UnrenamedImports(importers, x);
    UnrenamedLinks(entries, snapshots);
    ReachesMonotone(Dependencies(entries, snapshots, Unrenamed), Dependencies(entries, snapshots, Keys), x, k);
    ReachesMonotone(Dependencies(entries, snapshots, Unrenamed), Dependencies(entries, snapshots, Resolved), x, k);
  }

  lemma StepOutIsRenamed(importers: seq<Importer>, entries: seq<Package>, snapshots: seq<Package>, u: string, v: string,
                         k: string)
    requires Needed(importers, entries, snapshots, Unrenamed, u)
    requires Linked(Dependencies(entries, snapshots, Resolved), u, v)
    requires !Linked(Dependencies(entries, snapshots, Unrenamed), u, v)
    requires Reaches(Dependencies(entries, snapshots, Resolved), v, k)
    ensures RenamedOnTheWay(importers, entries, snapshots, k)
  {
    DependencyLinks(entries, snapshots, Resolved);
    DependencyLinks(entries, snapshots, Unrenamed);
    hide WellFormed, Dependencies, Linked, Read, Reaches, Needed;
    var q :| q in entries + snapshots && q.name == u && v in Read(q.deps, Resolved);
    assert v !in Read(q.deps, Unrenamed);
    ReadUnrenamed(q.deps, v);
    var d :| d in q.deps && d.package == v && d.IsRenamed();
    assert DependsOnRenamed(importers, entries, snapshots, d);
  }

  /** A package is needed at run time exactly when it is without renaming or a renamed dependency is on the way. */
  lemma NeededExactly(importers: seq<Importer>, entries: seq<Package>, snapshots: seq<Package>, k: string)
    ensures Needed(importers, entries, snapshots, Resolved, k) <==>
            || Needed(importers, entries, snapshots, Unrenamed, k)
            || RenamedOnTheWay(importers, entries, snapshots, k)
  {
    if Needed(importers, entries, snapshots, Resolved, k) {
      NeededOneWay(importers, entries, snapshots, k);
    }
    if Needed(importers, entries, snapshots, Unrenamed, k) {
      NeededUnrenamed(importers, entries, snapshots, k);
    }
    hide Needed, Dependencies, Reaches, ImportsDep, DependsOnRenamed;
    if RenamedOnTheWay(importers, entries, snapshots, k) {
      var d: Dep :|
        && d.IsRenamed() && d.package != "" && Reaches(Dependencies(entries, snapshots, Resolved), d.package, k)
        && (ImportsDep(importers, d) || DependsOnRenamed(importers, entries, snapshots, d));
      RenamedIsNeeded(importers, entries, snapshots, d, k);
    }
  }

  lemma NeededOneWay(importers: seq<Importer>, entries: seq<Package>, snapshots: seq<Package>, k: string)
    requires Needed(importers, entries, snapshots, Resolved, k)
    ensures || Needed(importers, entries, snapshots, Unrenamed, k)
            || RenamedOnTheWay(importers, entries, snapshots, k)
  {
    hide Dependencies, Linked, Reaches, Imports, ImportsDep, DependsOnRenamed;
    var e, f := Dependencies(entries, snapshots, Unrenamed), Dependencies(entries, snapshots, Resolved);
    var x :| x != "" && Imports(importers, Resolved, x) && Reaches(f, x, k);
    UnrenamedImports(importers, x);
    if Imports(importers, Unrenamed, x) {
      ReachesOut(e, f, x, k);
      if !Reaches(e, x, k) {
        var u, v :| Reaches(e, x, u) && Linked(f, u, v) && !Linked(e, u, v) && Reaches(f, v, k);
        StepOutIsRenamed(importers, entries, snapshots, u, v, k);
      }
    }
  }

  lemma RenamedIsNeeded(importers: seq<Importer>, entries: seq<Package>, snapshots: seq<Package>, d: Dep, k: string)
    requires d.package != "" && Reaches(Dependencies(entries, snapshots, Resolved), d.package, k)
    requires ImportsDep(importers, d) || DependsOnRenamed(importers, entries, snapshots, d)
    ensures Needed(importers, entries, snapshots, Resolved, k)
  {
    hide Reaches, Read, Dependencies, Linked;
    if ImportsDep(importers, d) {
      var m :| m in importers && d in m.runtime;
      ReadHolds(m.runtime, d.package);
      assert Imports(importers, Resolved, d.package);
    } else {
      var q :| q in entries + snapshots && d in q.deps && Needed(importers, entries, snapshots, Unrenamed, q.name);
      NeededUnrenamed(importers, entries, snapshots, q.name);
      NeededThroughDep(importers, entries, snapshots, q, d, k);
    }
  }

  lemma NeededThroughDep(importers: seq<Importer>, entries: seq<Package>, snapshots: seq<Package>, q: Package, d: Dep,
                         k: string)
    requires q in entries + snapshots && d in q.deps && Needed(importers, entries, snapshots, Resolved, q.name)
    requires d.package != "" && Reaches(Dependencies(entries, snapshots, Resolved), d.package, k)
    ensures Needed(importers, entries, snapshots, Resolved, k)
  {
    DependencyLinks(entries, snapshots, Resolved);
    ReadHolds(q.deps, d.package);
    hide Reaches, Read, Dependencies, Linked, WellFormed, Imports;
    var e := Dependencies(entries, snapshots, Resolved);
    var x :| x != "" && Imports(importers, Resolved, x) && Reaches(e, x, q.name);
    if d.package != q.name {
      assert Declares(entries, snapshots, Resolved, q.name, d.package);
      ReachesFromStep(e, q.name, d.package, k);
    }
    ReachesThrough(e, x, q.name, k);
  }
}
