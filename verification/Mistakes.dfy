/** Exactly when the loaded graph calls a package dev-only that is part of the product at run time. */
module Mistakes {
  import opened Options
  import opened Text
  import opened Paths
  import opened BreadthFirst
  import opened DepGraphs
  import opened Closure
  import opened Quotient
  import opened Ecosystem
  import opened Runtimes
  import opened Loading
  import NpmLock
  import PnpmLock
  import CargoLock
  import PoetryLock
  import PipfileLock
  import ComposerLock
  import GradleLock

  // ---- the mistakes ----

  /** All copies installed as k are development ones, and a runtime copy of the package k has another name. */
  ghost predicate InstalledElsewhere(copies: seq<Copy>, k: string) {
    && HasCopy(Exact, copies, k) && AllDev(Exact, copies, k)
    && exists c :: c in copies && !c.dev && c.package == k && c.name != k
  }

  /** The development imports lead to k by the keys of their dependencies and the runtime imports do not, only because
      their dependencies are renamed; or the search ends too early. */
  ghost predicate LostByRenaming(importers: seq<PnpmLock.Importer>, entries: seq<PnpmLock.Package>,
                                 snapshots: seq<PnpmLock.Package>, g: DepGraph, k: string)
    reads g
  {
    || (PnpmLock.Needed(importers, entries, snapshots, PnpmLock.Unrenamed, k) &&
        BeyondCap(g.edges, g.root, g.rootDev, k, g.cap))
    || (PnpmLock.RenamedOnTheWay(importers, entries, snapshots, k) &&
        MetWithin(g.edges, g.rootDev, k, g.cap) && !MetWithin(g.edges, g.root, k, g.cap))
  }

  /** The mistakes: npm and pnpm take a renamed dependency for the package of that name, Cargo loses respelled roots,
      poetry lets a later block overwrite, Pipfile compares spellings, Gradle goes by words in names; and searches end
      at their cap. Composer makes none. */
  ghost predicate Mistaken(p: Project, g: DepGraph, name: string)
    reads g
  {
    var k := p.KeyOf(name);
    match p.lockfile
    case Npm(packages, tree) => InstalledElsewhere(NpmLock.Copies(packages, tree), k)
    case Pnpm(importers, entries, snapshots) =>
      !AllFlagged(entries) && Answers(g, name) && LostByRenaming(importers, entries, snapshots, g, k)
    case Cargo(_) =>
      && Answers(g, name)
      && (BeyondCap(g.edges, g.root, g.rootDev, k, g.cap) ||
          OnlyRespelled(g.edges, Crate, g.root, g.rootDev, RuntimeNames(p.manifest), DevNames(p.manifest), k, g.cap))
    case Poetry(locked) =>
      && Answers(g, name)
      && if SomeFlagged(locked) then PoetryLock.Overwritten(locked, k)
         else BeyondCap(g.edges, g.root, g.rootDev, k, g.cap)
    case Pipfile(runtime, develop) => PipfileLock.SpelledTwoWays(runtime, develop, k)
    case Composer(_, _) => false
    case Gradle(rows) => GradleLock.TakenForTest(rows, p.tests, k)
  }

  // ---- format by format ----

  lemma NpmAnswer(p: Project, g: DepGraph, name: string)
    requires p.lockfile.Npm? && LoadedFrom(p, g)
    ensures AnswersDev(g, name) && IsRuntime(p, name) <==> Mistaken(p, g, name)
  {
    var copies := NpmLock.Copies(p.lockfile.packages, p.lockfile.tree);
    hide WellFormed, NpmLock.Copies, SomeCopyDepends, Linked, CalledDev;
    assert RuntimeCopy(Exact, copies, name) && AllDev(Exact, copies, name) ==>
           exists c :: c in copies && !c.dev && c.package == name && c.name != name;
  }

  lemma ComposerAnswer(p: Project, g: DepGraph, name: string)
    requires p.lockfile.Composer? && LoadedFrom(p, g)
    ensures !(AnswersDev(g, name) && IsRuntime(p, name)) && !Mistaken(p, g, name)
  {
    var a, b := ComposerLock.Copies(p.lockfile.required, false), ComposerLock.Copies(p.lockfile.requiredDev, true);
    assert forall c :: c in a ==> c.name == c.package;
    hide WellFormed, Key, ComposerLock.Copies, SomeCopyDepends, Linked, CalledDev;
    if c :| c in a && Key(LowerCase, c.package) == p.KeyOf(name) && !c.dev { assert c in a + b; }
  }

  lemma PnpmFlaggedAnswer(p: Project, g: DepGraph, name: string)
    requires p.lockfile.Pnpm? && LoadedFrom(p, g) && AllFlagged(p.lockfile.entries)
    ensures !(AnswersDev(g, name) && IsRuntime(p, name)) && !Mistaken(p, g, name)
  {
    hide WellFormed, Recorded, PnpmLock.Copies, PnpmLock.Imports, PnpmLock.ImportsDev, CalledDev;
  }

  lemma GradleAnswer(p: Project, g: DepGraph, name: string)
    requires p.lockfile.Gradle? && LoadedFrom(p, g)
    ensures AnswersDev(g, name) && IsRuntime(p, name) <==> Mistaken(p, g, name)
  {
    var rows, k := p.lockfile.rows, p.KeyOf(name);
    GradleLock.FlaggedThoughInProduct(rows, p.tests, k);
    assert GradleLock.InProduct(rows, p.tests, k) ==> GradleLock.Listed(rows, k);
    hide Key, WellFormed, GradleLock.InProduct, GradleLock.TakenForTest, GradleLock.Listed, GradleLock.InRuntime,
         CalledDev;
  }

  lemma PipfileAnswer(p: Project, g: DepGraph, name: string)
    requires p.lockfile.Pipfile? && LoadedFrom(p, g)
    ensures AnswersDev(g, name) && IsRuntime(p, name) <==> Mistaken(p, g, name)
  {
    PipfileLock.FlaggedThoughRuntime(g.devOnlyFlag, g.present, p.lockfile.runtime, p.lockfile.develop);
    hide Key, WellFormed, PipfileLock.Spells, PipfileLock.SpelledTwoWays, CalledDev;
  }

  /** Searches that go by the right roots are wrong only beyond the cap. */
  lemma SearchAnswer(e: Edges, f: Edges, root: seq<string>, rootDev: seq<string>, roots: seq<string>, k: string,
                     cap: nat)
    requires (forall a, b :: Linked(e, a, b) <==> Linked(f, a, b)) && forall r :: r in root <==> r in roots
    ensures CalledDev(e, root, rootDev, k, cap) && ReachesAny(f, roots, k) <==> BeyondCap(e, root, rootDev, k, cap)
  {
    CapHidesRuntimeExactly(e, root, rootDev, k, cap);
    forall a { SameLinks(e, f, a, k); }
    hide Linked, Reaches, Distance;
  }

  lemma PoetryAnswer(p: Project, g: DepGraph, name: string)
    requires p.lockfile.Poetry? && LoadedFrom(p, g)
    ensures AnswersDev(g, name) && IsRuntime(p, name) <==> Mistaken(p, g, name)
  {
    var locked, k := p.lockfile.locked, p.KeyOf(name);
    if SomeFlagged(locked) {
      PoetryLock.FlaggedThoughSaid(g.devOnlyFlag, locked);
      hide Key, WellFormed, Recorded, PoetryLock.LastFlags, PoetryLock.SomeSays, PoetryLock.Overwritten, CalledDev;
    } else {
      if g.devSplit { PoetrySearch(p, g, k); }
      hide Key, WellFormed, Recorded, PoetryLock.LastFlags, CalledDev, BeyondCap, ReachesAny, Graph;
    }
  }

  lemma PoetrySearch(p: Project, g: DepGraph, k: string)
    requires p.lockfile.Poetry? && LoadedFrom(p, g) && g.devSplit
    ensures var e := Graph(Python, PoetryLock.Copies(p.lockfile.locked));
            CalledDev(g.edges, g.root, g.rootDev, k, g.cap) &&
            ReachesAny(e, MapKeys(Python, p.manifest.value.runtime), k) <==>
            BeyondCap(g.edges, g.root, g.rootDev, k, g.cap)
  {
    var e := Graph(Python, PoetryLock.Copies(p.lockfile.locked));
    GraphLinks(Python, PoetryLock.Copies(p.lockfile.locked));
    hide Key, WellFormed, Graph, Linked, HasCopy, SomeCopyDepends, PoetryLock.LastFlags, PoetryLock.Copies, Names,
         CalledDev, BeyondCap, ReachesAny;
    SearchAnswer(g.edges, e, g.root, g.rootDev, MapKeys(Python, p.manifest.value.runtime), k, g.cap);
  }

  lemma CrateNeededAsLoaded(p: Project, g: DepGraph, k: string)
    requires p.lockfile.Cargo? && LoadedFrom(p, g)
    ensures CrateNeeded(CargoLock.Flushed(p.lockfile.blocks, false, []), RuntimeNames(p.manifest), DevNames(p.manifest),
                        k) <==>
            NeededAtRunTime(g.edges, Crate, g.root + g.rootDev, RuntimeNames(p.manifest), DevNames(p.manifest), k)
  {
    var f, roots := CargoLock.Flushed(p.lockfile.blocks, false, []), g.root + g.rootDev;
    var runtime, dev := RuntimeNames(p.manifest), DevNames(p.manifest);
    CargoLock.DependencyLinks(f);
    hide Key, WellFormed, Linked, CargoLock.Flushed, CargoLock.Members, CargoLock.IsRoot, CargoLock.DevDeclared,
         HasCopy, SomeCopyDepends, CargoLock.Copies, CargoLock.Dependencies, CargoSplit, RuntimeNames, DevNames;
    forall a { SameLinks(g.edges, CargoLock.Dependencies(f), a, k); }
    hide Reaches;
    if r :| CargoLock.IsRoot(f, r) && !CargoLock.DevDeclared(Crate, runtime, dev, Key(Crate, r)) &&
            Reaches(CargoLock.Dependencies(f), Key(Crate, r), k) {
      assert RuntimeRoot(Crate, roots, runtime, dev, r);
    }
    if r :| RuntimeRoot(Crate, roots, runtime, dev, r) && Reaches(g.edges, Key(Crate, r), k) {
      assert CargoLock.IsRoot(f, r);
    }
  }

  lemma CargoAnswer(p: Project, g: DepGraph, name: string)
    requires p.lockfile.Cargo? && LoadedFrom(p, g)
    ensures AnswersDev(g, name) && IsRuntime(p, name) <==> Mistaken(p, g, name)
  {
    var runtime, dev := RuntimeNames(p.manifest), DevNames(p.manifest);
    KeyIdempotent(Crate, name);
    CrateNeededAsLoaded(p, g, p.KeyOf(name));
    if g.devSplit {
      assert SplitAsWritten(Crate, g.root, g.rootDev, runtime, dev);
      HiddenRuntimePackage(g.edges, Crate, g.root, g.rootDev, runtime, dev, p.KeyOf(name), g.cap);
    }
    hide Key, WellFormed, CargoLock.LoadedCargo, CargoLock.Flushed, CargoLock.DevDeclared, CargoLock.Members,
         CalledDev, NeededAtRunTime, BeyondCap, OnlyRespelled, CrateNeeded, RuntimeNames, DevNames;
  }

  /** By keys, the runtime imports lead to what the loaded search can find. */
  lemma NeededByKeys(p: Project, g: DepGraph, k: string)
    requires p.lockfile.Pnpm? && LoadedFrom(p, g)
    ensures PnpmLock.Needed(p.lockfile.importers, p.lockfile.entries, p.lockfile.snapshots, PnpmLock.Keys, k) <==>
            ReachesAny(g.edges, g.root, k)
  {
    var Pnpm(importers, entries, snapshots) := p.lockfile;
    GraphLinks(Exact, PnpmLock.Copies(entries, PnpmLock.Keys) + PnpmLock.Copies(snapshots, PnpmLock.Keys));
    hide WellFormed, Graph, Linked, HasCopy, SomeCopyDepends, PnpmLock.Copies, PnpmLock.Imports, PnpmLock.ImportsDev,
         PnpmLock.FlagsRead, Key;
    forall a { SameLinks(g.edges, PnpmLock.Dependencies(entries, snapshots, PnpmLock.Keys), a, k); }
    hide Reaches;
  }

  lemma NotFlagged(p: Project, g: DepGraph)
    requires p.lockfile.Pnpm? && LoadedFrom(p, g) && !AllFlagged(p.lockfile.entries)
    ensures !g.devFlags && g.norm == Exact
  {
    hide WellFormed, Recorded, PnpmLock.Imports, PnpmLock.ImportsDev, PnpmLock.FlagsRead, PnpmLock.Copies;
  }

  lemma PnpmSearchAnswer(p: Project, g: DepGraph, name: string)
    requires p.lockfile.Pnpm? && LoadedFrom(p, g) && !AllFlagged(p.lockfile.entries)
    ensures AnswersDev(g, name) && IsRuntime(p, name) <==> Mistaken(p, g, name)
  {
    hide LoadedFrom, Distance, ReachesAny, ReachSet, PnpmLock.Needed, PnpmLock.RenamedOnTheWay;
    var Pnpm(importers, entries, snapshots) := p.lockfile;
    NotFlagged(p, g);
    PnpmLock.NeededExactly(importers, entries, snapshots, name);
    NeededByKeys(p, g, name);
    DistanceIsReach(g.edges, g.root, name);
    if PnpmLock.Needed(importers, entries, snapshots, PnpmLock.Unrenamed, name) {
      PnpmLock.NeededUnrenamed(importers, entries, snapshots, name);
    }
  }

  /** The graph calls a runtime package dev-only exactly through one of the mistakes. */
  lemma RuntimeCalledDevExactly(p: Project, g: DepGraph, name: string)
    requires LoadedFrom(p, g)
    ensures AnswersDev(g, name) && IsRuntime(p, name) <==> Mistaken(p, g, name)
  {
    hide LoadedFrom, AnswersDev, IsRuntime, Mistaken;
    match p.lockfile {
      case Npm(_, _) => NpmAnswer(p, g, name);
      case Pnpm(_, entries, _) =>
        if AllFlagged(entries) {
          PnpmFlaggedAnswer(p, g, name);
        } else {
          PnpmSearchAnswer(p, g, name);
        }
      case Cargo(_) => CargoAnswer(p, g, name);
      case Poetry(_) => PoetryAnswer(p, g, name);
      case Pipfile(_, _) => PipfileAnswer(p, g, name);
      case Composer(_, _) => ComposerAnswer(p, g, name);
      case Gradle(_) => GradleAnswer(p, g, name);
    }
  }

  // ---- callers ----

  /** No copy but those installed as k asks for k, yet some copy of another package asks for a copy of k: by the name
      that it is installed under, or while being installed as k itself. */
  ghost predicate CopyCallsUnseen(copies: seq<Copy>, k: string) {
    && (forall c :: c in copies && k in c.deps ==> c.name == k)
    && exists c, t :: c in copies && t in copies && Calls(c, t, k) && (t.name != k || c.name == k)
  }

  /** No other package has a dependency with k as its key, and some other package has one that resolves to k. */
  ghost predicate EntryCallsUnseen(all: seq<PnpmLock.Package>, k: string) {
    && (forall q, d :: q in all && d in q.deps && d.key == k ==> q.name == k)
    && exists q, d :: q in all && d in q.deps && q.name != k && d.package == k && d.IsRenamed()
  }

  /** The package has callers, all of which know it under other names. */
  ghost predicate CallersUnseen(p: Project, name: string) {
    var k := p.KeyOf(name);
    match p.lockfile
    case Npm(packages, tree) => k != "" && CopyCallsUnseen(NpmLock.Copies(packages, tree), k)
    case Pnpm(_, entries, snapshots) => k != "" && EntryCallsUnseen(entries + snapshots, k)
    case _ => false
  }

  lemma NoDependentsMeans(g: DepGraph, name: string)
    requires g.Valid()
    ensures NoDependents(g, name) <==> g.hasEdges && g.Has(name) && !SomeLink(g.edges, Key(g.norm, name))
  {
    hide Key, DepGraph.Has;
    var k := Key(g.norm, name);
    if a :| Linked(g.edges, a, k) { assert a in g.DependentSet(name); }
    if a :| a in g.DependentSet(name) { assert Linked(g.edges, a, k); }
  }

  lemma SameSomeLink(e: Edges, f: Edges, k: string)
    requires forall a, b :: Linked(e, a, b) <==> Linked(f, a, b)
    ensures SomeLink(e, k) <==> SomeLink(f, k)
  {
    hide Linked;
  }

  lemma NpmCallers(p: Project, g: DepGraph, k: string)
    requires p.lockfile.Npm? && LoadedFrom(p, g) && k != ""
    ensures var copies := NpmLock.Copies(p.lockfile.packages, p.lockfile.tree);
            !SomeLink(g.edges, k) && CopyCalls(copies, k) <==> CopyCallsUnseen(copies, k)
  {
    var copies := NpmLock.Copies(p.lockfile.packages, p.lockfile.tree);
    assert forall a :: Linked(g.edges, a, k) <==> a != k && SomeCopyDepends(Exact, copies, a, k);
    hide WellFormed, NpmLock.Copies, Linked, FlagsAllDev;
    assert forall c :: c in copies && k in c.deps ==> SomeCopyDepends(Exact, copies, c.name, k);
    assert !SomeLink(g.edges, k) ==> forall c :: c in copies && k in c.deps ==> c.name == k;
    assert (forall c :: c in copies && k in c.deps ==> c.name == k) ==> !SomeLink(g.edges, k);
  }

  lemma DeclaresMeans(entries: seq<PnpmLock.Package>, snapshots: seq<PnpmLock.Package>, a: string, k: string)
    ensures PnpmLock.Declares(entries, snapshots, PnpmLock.Keys, a, k) <==>
            exists q, d :: q in entries + snapshots && d in q.deps && q.name == a && d.key == k
    ensures PnpmLock.Declares(entries, snapshots, PnpmLock.Resolved, a, k) <==>
            exists q, d :: q in entries + snapshots && d in q.deps && q.name == a && d.package == k
  {
    hide PnpmLock.Read;
    forall q | q in entries + snapshots { PnpmLock.ReadHolds(q.deps, k); }
  }

  ghost predicate OthersDeclare(entries: seq<PnpmLock.Package>, snapshots: seq<PnpmLock.Package>, v: PnpmLock.View,
                                k: string) {
    exists a :: a != k && PnpmLock.Declares(entries, snapshots, v, a, k)
  }

  lemma EntryCallers(entries: seq<PnpmLock.Package>, snapshots: seq<PnpmLock.Package>, k: string)
    ensures !OthersDeclare(entries, snapshots, PnpmLock.Keys, k) &&
            OthersDeclare(entries, snapshots, PnpmLock.Resolved, k) <==>
            EntryCallsUnseen(entries + snapshots, k)
  {
    var all := entries + snapshots;
    forall a { DeclaresMeans(entries, snapshots, a, k); }
    hide PnpmLock.Declares;
    if EntryCallsUnseen(all, k) {
      var q, d :| q in all && d in q.deps && q.name != k && d.package == k && d.IsRenamed();
      assert PnpmLock.Declares(entries, snapshots, PnpmLock.Resolved, q.name, k);
    }
    if !OthersDeclare(entries, snapshots, PnpmLock.Keys, k) {
      forall q, d | q in all && d in q.deps && d.key == k ensures q.name == k {
        assert PnpmLock.Declares(entries, snapshots, PnpmLock.Keys, q.name, k);
      }
    }
  }

  lemma LinkedByOthers(e: Edges, entries: seq<PnpmLock.Package>, snapshots: seq<PnpmLock.Package>, v: PnpmLock.View,
                       k: string)
    requires forall a :: Linked(e, a, k) <==> a != k && PnpmLock.Declares(entries, snapshots, v, a, k)
    ensures SomeLink(e, k) <==> OthersDeclare(entries, snapshots, v, k)
  {
    hide Linked, PnpmLock.Declares;
  }

  lemma PnpmCallers(p: Project, g: DepGraph, k: string)
    requires p.lockfile.Pnpm? && LoadedFrom(p, g) && k != ""
    ensures !SomeLink(g.edges, k) &&
            SomeLink(PnpmLock.Dependencies(p.lockfile.entries, p.lockfile.snapshots, PnpmLock.Resolved), k) <==>
            EntryCallsUnseen(p.lockfile.entries + p.lockfile.snapshots, k)
  {
    var Pnpm(_, entries, snapshots) := p.lockfile;
    PnpmLock.DependencyLinks(entries, snapshots, PnpmLock.Resolved);
    forall a { PnpmLock.CopiesDeclare(entries, snapshots, PnpmLock.Keys, a, k); }
    assert forall a :: Linked(g.edges, a, k) <==> a != k && PnpmLock.Declares(entries, snapshots, PnpmLock.Keys, a, k);
    hide WellFormed, PnpmLock.Copies, Linked, PnpmLock.Declares, PnpmLock.FlagsRead, PnpmLock.Dependencies, LoadedFrom;
    hide SomeLink, OthersDeclare, EntryCallsUnseen, Recorded;
    LinkedByOthers(g.edges, entries, snapshots, PnpmLock.Keys, k);
    LinkedByOthers(PnpmLock.Dependencies(entries, snapshots, PnpmLock.Resolved), entries, snapshots, PnpmLock.Resolved,
                   k);
    EntryCallers(entries, snapshots, k);
  }

  lemma NoneCallsNothing(entries: seq<PnpmLock.Package>, snapshots: seq<PnpmLock.Package>)
    ensures !SomeLink(PnpmLock.Dependencies(entries, snapshots, PnpmLock.Resolved), "")
  {
    PnpmLock.DependencyLinks(entries, snapshots, PnpmLock.Resolved);
    hide PnpmLock.Dependencies, Linked;
  }

  /** The graph shows no caller of a package that has one exactly when all callers know it under other names. */
  lemma CallersUnseenExactly(p: Project, g: DepGraph, name: string)
    requires LoadedFrom(p, g)
    ensures NoDependents(g, name) && HasCaller(p, name) <==> Holds(p.lockfile, name) && CallersUnseen(p, name)
  {
    var k := p.KeyOf(name);
    LoadedHolds(p, g, name);
    NoDependentsMeans(g, name);
    hide Key, DepGraph.Has, Holds, SomeLink, WellFormed, NoDependents, NpmLock.Copies, CopyCalls, CopyCallsUnseen,
         EntryCallsUnseen;
    match p.lockfile {
      case Npm(_, _) => if k != "" { NpmCallers(p, g, k); }
      case Pnpm(_, entries, snapshots) =>
        NoneCallsNothing(entries, snapshots);
        if k != "" { PnpmCallers(p, g, k); }
      case Cargo(blocks) =>
        CargoLock.DependencyLinks(CargoLock.Flushed(blocks, false, []));
        SameSomeLink(g.edges, CargoLock.Dependencies(CargoLock.Flushed(blocks, false, [])), k);
      case Poetry(locked) =>
        GraphLinks(Python, PoetryLock.Copies(locked));
        SameSomeLink(g.edges, Graph(Python, PoetryLock.Copies(locked)), k);
      case Composer(required, requiredDev) =>
        var copies := ComposerLock.Copies(required, false) + ComposerLock.Copies(requiredDev, true);
        GraphLinks(LowerCase, copies);
        SameSomeLink(g.edges, Graph(LowerCase, copies), k);
      case Pipfile(_, _) =>
      case Gradle(_) =>
    }
  }

  // ---- where none is made ----

  /** Nothing is renamed, respelled, repeated with another flag or named like a test without being one. */
  ghost predicate IsPlain(p: Project) {
    match p.lockfile
    case Npm(packages, tree) => forall c :: c in NpmLock.Copies(packages, tree) ==> c.package == c.name
    case Pnpm(importers, entries, snapshots) =>
      && (forall d :: PnpmLock.ImportsDep(importers, d) ==> !d.IsRenamed())
      && forall q, d :: q in entries + snapshots && d in q.deps ==> !d.IsRenamed()
    case Cargo(blocks) => forall r :: CargoLock.IsRoot(CargoLock.Flushed(blocks, false, []), r) ==> IsOwnKey(Crate, r)
    case Poetry(locked) => forall k :: !(PoetryLock.SomeSays(locked, k, true) && PoetryLock.SomeSays(locked, k, false))
    case Pipfile(runtime, develop) =>
      forall a, b :: a in runtime && b in develop && Key(Python, a) == Key(Python, b) ==> a == b
    case Composer(_, _) => true
    case Gradle(rows) => forall r, c :: r in rows && c in r.confs && GradleLock.IsTest(c) ==> c in p.tests
  }

  lemma NotBeyondCap(g: DepGraph, k: string)
    requires WithinCap(g)
    ensures !BeyondCap(g.edges, g.root, g.rootDev, k, g.cap)
  {
    DistanceIsReach(g.edges, g.root, k);
    hide ReachesAny, ReachSet, Distance;
  }

  /** Such a project with few enough packages keeps all its runtime packages. */
  lemma PlainProjectIsSafe(p: Project, g: DepGraph, name: string)
    requires LoadedFrom(p, g) && IsPlain(p) && WithinCap(g)
    ensures !(AnswersDev(g, name) && IsRuntime(p, name))
  {
    RuntimeCalledDevExactly(p, g, name);
    NotBeyondCap(g, p.KeyOf(name));
    if p.lockfile.Cargo? { PlainRoots(p, g); }
    if p.lockfile.Poetry? && PoetryLock.Overwritten(p.lockfile.locked, p.KeyOf(name)) {
      assert PoetryLock.SomeSays(p.lockfile.locked, p.KeyOf(name), true);
    }
    hide Key, AnswersDev, IsRuntime, BeyondCap, LoadedFrom, WithinCap, GradleLock.IsTest, Reaches, Answers, ReachesAny,
         MetWithin, PnpmLock.Needed, IsOwnKey, NpmLock.Copies, HasCopy, AllDev;
    hide CargoLock.Flushed, CargoLock.IsRoot;
  }

  lemma PlainRoots(p: Project, g: DepGraph)
    requires p.lockfile.Cargo? && LoadedFrom(p, g) && IsPlain(p)
    ensures forall r :: r in g.root ==> IsOwnKey(Crate, r)
  {
    hide Key, WellFormed, CargoLock.Flushed, CargoLock.Members, HasCopy, SomeCopyDepends, CargoLock.Copies, IsOwnKey;
    forall r | r in g.root ensures IsOwnKey(Crate, r) { assert r in g.root + g.rootDev; }
  }
}
