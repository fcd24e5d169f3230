/** Every mistake at work: products whose runtime package is closed as not affected, run from the lockfile to the
    verdict. */
module ClosedPackages {
  import opened Options
  import opened Text
  import opened Paths
  import opened BreadthFirst
  import opened DepGraphs
  import opened Closure
  import opened Quotient
  import opened Sources
  import opened Evidence
  import opened Ecosystem
  import opened Runtimes
  import opened Mistakes
  import opened Verdicts
  import opened Loading
  import Heuristics
  import NpmLock
  import PnpmLock
  import CargoLock
  import PoetryLock
  import PipfileLock
  import GradleLock

  // ---- Cargo ----

  /** The example workspace; its manifest has my-lib as a runtime dependency, or as a development one like criterion. */
  function CargoProject(allDev: bool): Project {
    Project(Cargo(ExampleBlocks()), Some(Loading.Manifest(ForRuntime(allDev), ForDev(allDev), false)), {})
  }

  function ForRuntime(allDev: bool): seq<string> { if allDev then [] else ["my-lib"] }

  function ForDev(allDev: bool): seq<string> { if allDev then ["my-lib", "criterion"] else ["criterion"] }

  lemma ExampleTargets(e: Edges, present: set<string>, root: seq<string>, a: string, b: string)
    requires CargoLock.LoadedCargo(e, present, root, CargoLock.Flushed(ExampleBlocks(), false, [])) && Linked(e, a, b)
    ensures b in {"my_lib", "criterion", "rand"}
  {
    ExampleKeys();
    ExampleMembers();
    hide Key, CargoLock.Flushed, CargoLock.Members, CargoLock.MemberOf;
    var c :| c in CargoLock.Copies(ExampleBlocks()) && DependsOn(Crate, c, a, b);
    var d :| d in c.deps && Key(Crate, d) == b;
    assert d in ["my-lib", "criterion"] || d in ["rand"];
  }

  lemma FewReached(e: Edges, starts: seq<string>, start: string, targets: set<string>)
    requires forall s :: s in starts ==> s == start
    requires forall a, b :: Linked(e, a, b) ==> b in targets
    ensures |ReachSet(e, starts)| <= |targets| + 1
  {
    hide Nodes, Succ;
    forall n | n in ReachSet(e, starts) ensures n in targets + {start} {
      var s :| s in starts && Reaches(e, s, n);
      if n != s {
        ReachedThroughPredecessor(e, s, n);
        var u :| Reaches(e, s, u) && n in Succ(e, u);
        assert Linked(e, u, n);
      }
    }
    SubsetSize(ReachSet(e, starts), targets + {start});
  }

  lemma ExampleSplit(g: DepGraph, allDev: bool)
    requires LoadedFrom(CargoProject(allDev), g)
    ensures WellFormed(g.edges, Crate) &&
            CargoLock.LoadedCargo(g.edges, g.present, g.root + g.rootDev,
                                  CargoLock.Flushed(ExampleBlocks(), false, []))
    ensures g.devSplit && SplitAsWritten(Crate, g.root, g.rootDev, ForRuntime(allDev), ForDev(allDev))
  {
    var m := CargoProject(allDev).manifest.value;
    assert m.runtime + m.dev != [];
    hide Key, ExampleBlocks, WellFormed, CargoLock.LoadedCargo, CargoLock.Flushed, CargoLock.Members,
         CargoLock.DevDeclared;
  }

  /** Either way my-lib, as written, stays on the runtime side. */
  lemma ExampleRoots(g: DepGraph, allDev: bool)
    requires LoadedFrom(CargoProject(allDev), g)
    ensures g.devSplit
    ensures (forall x :: x in g.root <==> x == "my-lib") && forall x :: x in g.rootDev <==> x == "criterion"
  {
    hide Key, ExampleBlocks, LoadedFrom, WellFormed, CargoLock.LoadedCargo, CargoLock.Flushed, Linked, SplitAsWritten,
         CargoProject;
    ExampleSplit(g, allDev);
    ExampleMembers();
    ExampleGraph(g.edges, g.present, g.root + g.rootDev);
    ExampleSides(g.root, g.rootDev, allDev);
  }

  lemma ExampleSides(root: seq<string>, rootDev: seq<string>, allDev: bool)
    requires forall x :: x in root + rootDev <==> x == "my-lib" || x == "criterion"
    requires SplitAsWritten(Crate, root, rootDev, ForRuntime(allDev), ForDev(allDev))
    ensures (forall x :: x in root <==> x == "my-lib") && forall x :: x in rootDev <==> x == "criterion"
  {
    ExampleDeclares();
    hide CargoLock.DevDeclared;
    assert "my-lib"[0] == 'm' && "my-lib"[2] != "my_lib"[2] && "criterion"[0] == 'c';
    assert forall x :: x in root || x in rootDev <==> x in root + rootDev;
  }

  lemma ExampleWithinCap(g: DepGraph, allDev: bool)
    requires LoadedFrom(CargoProject(allDev), g) && g.cap >= 4
    ensures WithinCap(g)
  {
    hide Key, WellFormed, LoadedFrom, ReachSet, Linked, ExampleBlocks, CargoLock.LoadedCargo, CargoLock.Flushed,
         SplitAsWritten;
    ExampleSplit(g, allDev);
    ExampleRoots(g, allDev);
    forall a, b | Linked(g.edges, a, b) ensures b in {"my_lib", "criterion", "rand"} {
      ExampleTargets(g.edges, g.present, g.root + g.rootDev, a, b);
    }
    FewReached(g.edges, g.root, "my-lib", {"my_lib", "criterion", "rand"});
    FewReached(g.edges, g.rootDev, "criterion", {"my_lib", "criterion", "rand"});
  }

  lemma ExampleAnswers(g: DepGraph, allDev: bool)
    requires LoadedFrom(CargoProject(allDev), g) && g.cap >= 4
    ensures AnswersDev(g, "rand") && Key(Crate, "rand") == "rand"
  {
    ExampleKeys();
    ExampleRoots(g, allDev);
    ExampleWithinCap(g, allDev);
    AnswerWithinCap(g, "rand");
    ExampleHasRand(g.edges, g.present, g.root + g.rootDev);
    hide Key, ExampleBlocks, CargoLock.LoadedCargo, CargoLock.Flushed, CargoLock.Members, CargoLock.DevDeclared,
         WellFormed;
    hide OutsideRuntime, AnswersDev, WithinCap;
    ExampleIsDevOnly(g.edges, g.present, g.root + g.rootDev, g.root, g.rootDev);
  }

  lemma ExampleNeeds(e: Edges, roots: seq<string>, allDev: bool)
    requires (forall x :: x in roots <==> x == "my-lib" || x == "criterion") && Reaches(e, "my_lib", "rand")
    ensures NeededAtRunTime(e, Crate, roots, ForRuntime(allDev), ForDev(allDev), "rand") <==> !allDev
  {
    ExampleKeys();
    ExampleDeclares();
    hide Key, CargoLock.DevDeclared, Reaches;
    if !allDev {
      assert RuntimeRoot(Crate, roots, ["my-lib"], ["criterion"], "my-lib") by { assert "my_lib"[0] != "criterion"[0]; }
    }
  }

  lemma ExampleIsRuntime(g: DepGraph, allDev: bool)
    requires LoadedFrom(CargoProject(allDev), g)
    ensures IsRuntime(CargoProject(allDev), "rand") <==> !allDev
  {
    hide Key, ExampleBlocks, CargoLock.LoadedCargo, CargoLock.Flushed, LoadedFrom, WellFormed, CrateNeeded,
         NeededAtRunTime;
    hide SplitAsWritten, Reaches, CargoLock.DevDeclared;
    ExampleKeys();
    CrateNeededAsLoaded(CargoProject(allDev), g, "rand");
    ExampleSplit(g, allDev);
    ExampleRoots(g, allDev);
    ExampleIsDevOnly(g.edges, g.present, g.root + g.rootDev, g.root, g.rootDev);
    ExampleNeeds(g.edges, g.root + g.rootDev, allDev);
  }

  /** my-lib, a runtime dependency, uses rand, and yet a finding in rand is closed. With my-lib for development too the
      same answer is right: rand is no runtime package, and no mistake is made. */
  lemma CargoCloses(s: Scan, f: Finding, rust: RustUse, r: Report, allDev: bool)
    requires Scanned(CargoProject(allDev), s, f, rust, r) && s.graphName == "rand" && s.graph.cap >= 4
    requires VersionFixed !in Kinds(r.items)
    ensures Heuristics.Assess(r).status.NotAffected?
    ensures IsRuntime(CargoProject(allDev), "rand") <==> !allDev
    ensures Mistaken(CargoProject(allDev), s.graph, "rand") <==> !allDev
  {
    ExampleAnswers(s.graph, allDev);
    ExampleIsRuntime(s.graph, allDev);
    ClosedExactly(s, f, rust, r);
    RuntimeCalledDevExactly(CargoProject(allDev), s.graph, "rand");
    hide Key, AnswersDev, IsRuntime, Mistaken, Backed, LoadedFrom, WellFormed, Kinds, Heuristics.RuleFor,
         Heuristics.Assess, CargoProject;
  }

  method CloseInWorkspace(f: Finding, cap: nat, allDev: bool) returns (s: Scan, r: Report)
    requires cap >= 4
    ensures s.graph != null && s.graphName == "rand" && Heuristics.Assess(r).status.NotAffected?
    ensures IsRuntime(CargoProject(allDev), "rand") <==> !allDev
  {
    hide Scanned, Kinds, IsRuntime, Mistaken, Heuristics.Assess, ExampleBlocks;
    s, r := ScanLockfile(CargoProject(allDev), "rand", f, cap);
    CargoCloses(s, f, NotAsked, r, allDev);
  }

  // ---- npm ----

  /** foo stands for the package bar at run time; bar itself is there for development. */
  function AliasPackages(): seq<NpmLock.Package> {
    [NpmLock.Package("", None, false, false, ["foo"], ["bar"], [], []),
     NpmLock.Package(NpmLock.NODE_MODULES + "foo", Some("bar"), false, false, [], [], [], []),
     NpmLock.Package(NpmLock.NODE_MODULES + "bar", None, true, false, [], [], [], [])]
  }

  function NpmProject(): Project { Project(Npm(AliasPackages(), []), None, {}) }

  lemma AliasCopies()
    ensures NpmLock.Copies(AliasPackages(), []) == [Copy("foo", "bar", false, []), Copy("bar", "bar", true, [])]
  {
    var p := AliasPackages();
    NpmLock.InstalledUnder("foo");
    NpmLock.InstalledUnder("bar");
    assert NpmLock.InstalledName("").None?;
    hide NpmLock.AfterLast;
    assert p[..2][..1] == p[..1] && p[..1][..0] == [];
    assert NpmLock.FlatCopies(p[..1]) == [];
    assert NpmLock.FlatCopies(p[..2]) == [Copy("foo", "bar", false, [])];
  }

  lemma AliasIsMistaken(g: DepGraph)
    ensures Mistaken(NpmProject(), g, "bar")
  {
    var copies := NpmLock.Copies(AliasPackages(), []);
    AliasCopies();
    hide NpmLock.Copies, AliasPackages;
    assert copies[0] in copies && copies[1] in copies && "foo"[0] != "bar"[0];
  }

  /** The runtime package bar is closed, because the copy under its own name is for development. */
  method CloseAliased(f: Finding, cap: nat) returns (s: Scan, r: Report)
    ensures s.graph != null && s.graphName == "bar" && Heuristics.Assess(r).status.NotAffected?
    ensures IsRuntime(NpmProject(), "bar")
  {
    hide Scanned, Kinds, IsRuntime, Mistaken, Heuristics.Assess, AliasPackages;
    s, r := ScanLockfile(NpmProject(), "bar", f, cap);
    AliasIsMistaken(s.graph);
    MistakeCloses(NpmProject(), s, f, NotAsked, r);
  }

  // ---- pnpm ----

  function PnpmProject(): Project {
    Project(Pnpm([PnpmLock.Importer([PnpmLock.Dep("foo", "bar")], [PnpmLock.Dep("bar", "bar")])],
                 [PnpmLock.Package("bar", [], None)], []), None, {})
  }

  lemma RenamedRoots(g: DepGraph)
    requires LoadedFrom(PnpmProject(), g)
    ensures (forall x :: x in g.root <==> x == "foo") && forall x :: x in g.rootDev <==> x == "bar"
  {
    var m := PnpmProject().lockfile.importers;
    assert m[0].runtime[..0] == [] && m[0].dev[..0] == [];
    assert PnpmLock.Read(m[0].runtime, PnpmLock.Keys) == ["foo"] && PnpmLock.Read(m[0].dev, PnpmLock.Keys) == ["bar"];
    hide PnpmLock.Read, Recorded, WellFormed, PnpmLock.FlagsRead, PnpmLock.Copies;
    assert forall i :: i in m <==> i == m[0] by { assert m[0] in m; }
    assert forall x :: PnpmLock.Imports(m, PnpmLock.Keys, x) <==> x == "foo";
    assert forall x :: PnpmLock.ImportsDev(m, x) <==> x == "bar";
  }

  lemma NothingLinked(g: DepGraph)
    requires LoadedFrom(PnpmProject(), g)
    ensures g.Has("bar") && forall a, b :: !Linked(g.edges, a, b)
  {
    var p := PnpmProject().lockfile;
    var copies := PnpmLock.Copies(p.entries, PnpmLock.Keys) + PnpmLock.Copies(p.snapshots, PnpmLock.Keys);
    assert copies == [Unaliased("bar", false, [])];
    assert copies[0] in copies;
    hide PnpmLock.Copies, PnpmLock.Imports, PnpmLock.ImportsDev, PnpmLock.FlagsRead, WellFormed, Linked;
    assert HasCopy(Exact, copies, "bar");
  }

  lemma RenamedIsMistaken(g: DepGraph)
    requires LoadedFrom(PnpmProject(), g) && g.cap >= 1
    ensures Mistaken(PnpmProject(), g, "bar")
  {
    RenamedRoots(g);
    NothingLinked(g);
    RenamedAnswers(g);
    var p := PnpmProject().lockfile;
    ReachesSelf(PnpmLock.Dependencies(p.entries, p.snapshots, PnpmLock.Resolved), "bar");
    var d := PnpmLock.Dep("foo", "bar");
    assert d in p.importers[0].runtime && p.importers[0] in p.importers && d.IsRenamed();
    assert PnpmLock.ImportsDep(p.importers, d);
    assert p.entries[0] in p.entries && p.entries[0].dev.None?;
    hide Reaches, PnpmLock.Dependencies, PnpmLock.DependsOnRenamed, Distance, DepGraph.Has, WellFormed, Recorded,
         PnpmLock.FlagsRead, PnpmLock.Imports, PnpmLock.ImportsDev;
  }

  lemma RenamedAnswers(g: DepGraph)
    requires (forall x :: x in g.root <==> x == "foo") && forall x :: x in g.rootDev <==> x == "bar"
    requires forall a, b :: !Linked(g.edges, a, b)
    requires g.cap >= 1
    ensures MetWithin(g.edges, g.rootDev, "bar", g.cap) && !MetWithin(g.edges, g.root, "bar", g.cap)
  {
    assert "bar" in g.rootDev && g.rootDev[0] in g.rootDev;
    StartIsMet(g.edges, g.rootDev);
    DistanceIsReach(g.edges, g.root, "bar");
    forall p | |p| > 1 ensures !IsPath(g.edges, p) { assert !Linked(g.edges, p[0], p[1]); }
    hide Distance, ReachSet, Linked;
    assert "foo"[0] != "bar"[0];
  }

  /** The runtime importer asks for bar under the name foo; bar is closed. */
  method CloseRenamed(f: Finding, cap: nat) returns (s: Scan, r: Report)
    requires cap >= 1
    ensures s.graph != null && s.graphName == "bar" && Heuristics.Assess(r).status.NotAffected?
    ensures IsRuntime(PnpmProject(), "bar")
  {
    hide Kinds, IsRuntime, Mistaken, Heuristics.Assess, LoadedFrom, Backed, WellFormed;
    s, r := ScanLockfile(PnpmProject(), "bar", f, cap);
    RenamedIsMistaken(s.graph);
    MistakeCloses(PnpmProject(), s, f, NotAsked, r);
  }

  /** bar is a direct dependency that product code does not use, and c uses bar under the name barx. */
  function CalledProject(): Project {
    Project(Pnpm([PnpmLock.Importer([PnpmLock.Dep("bar", "bar"), PnpmLock.Dep("c", "c")], [])],
                 [PnpmLock.Package("bar", [], None), PnpmLock.Package("c", [PnpmLock.Dep("barx", "bar")], None)], []),
            None, {})
  }

  lemma CalledByOtherName()
    ensures Holds(CalledProject().lockfile, "bar") && CallersUnseen(CalledProject(), "bar")
  {
    var entries, barx := CalledProject().lockfile.entries, PnpmLock.Dep("barx", "bar");
    assert entries + [] == entries && entries[1] in entries && barx in entries[1].deps;
    assert "c"[0] != "bar"[0] && "barx"[3] == 'x' && |"bar"| != |"barx"|;
    var copies := PnpmLock.Copies(entries, PnpmLock.Keys) + PnpmLock.Copies([], PnpmLock.Keys);
    assert copies[0].name == "bar" && copies[0] in copies;
    hide PnpmLock.Copies, PnpmLock.Read;
  }

  method CloseCalled(f: Finding, cap: nat) returns (s: Scan, r: Report)
    requires f.directKnown ==> f.direct
    ensures s.graph != null && s.graphName == "bar" && Heuristics.Assess(r).status.NotAffected?
    ensures HasCaller(CalledProject(), "bar")
  {
    CalledByOtherName();
    hide CallersUnseen, Holds, HasCaller, Kinds, LoadedAs, SplitBy, WellFormed, Heuristics.Assess, Heuristics.RuleFor,
         StrongKinds, AnswersDev, NoDependents;
    var g := LoadGraph(CalledProject().lockfile, None, cap);
    CallersUnseenExactly(CalledProject(), g, "bar");
    s := Scan(g, "bar", true, false, false, 0, 1, 1, 0, 1, true, false);
    r := Collect(f, None, None, true, Some(s), NotAsked);
    ClosedExactly(s, f, NotAsked, r);
  }

  // ---- the cap ----

  function Plain(name: string): PnpmLock.Dep { PnpmLock.Dep(name, name) }

  /** n + 1 packages, each depending on the next; the first is imported at run time and the last for development. */
  function ChainEntries(n: nat): seq<PnpmLock.Package> {
    seq(n, i requires 0 <= i < n => PnpmLock.Package(Link(i), [Plain(Link(i + 1))], None)) +
    [PnpmLock.Package(Link(n), [], None)]
  }

  function ChainProject(n: nat): Project {
    Project(Pnpm([PnpmLock.Importer([Plain(Link(0))], [Plain(Link(n))])], ChainEntries(n), []), None, {})
  }

  lemma ReadOnePlain(name: string, v: PnpmLock.View)
    ensures PnpmLock.Read([Plain(name)], v) == [name]
  {
    assert [Plain(name)][..0] == [];
  }

  ghost predicate IsStep(n: nat, a: string, b: string) {
    exists i: nat :: i < n && a == Link(i) && b == Link(i + 1)
  }

  lemma StepMoves(n: nat, a: string, b: string)
    requires IsStep(n, a, b)
    ensures a != b && b != ""
  {
    hide Link;
    var i: nat :| i < n && a == Link(i) && b == Link(i + 1);
    assert |Link(i)| == i + 1;
  }

  lemma EntryReads(n: nat, i: nat, v: PnpmLock.View)
    requires i <= n
    ensures var q := ChainEntries(n)[i];
            q.name == Link(i) && PnpmLock.Read(q.deps, v) == if i < n then [Link(i + 1)] else []
  {
    hide Link;
    ReadOnePlain(Link(i + 1), v);
  }

  lemma EntrySteps(n: nat, v: PnpmLock.View, q: PnpmLock.Package, b: string)
    requires q in ChainEntries(n) && b in PnpmLock.Read(q.deps, v)
    ensures IsStep(n, q.name, b)
  {
    var i :| 0 <= i < |ChainEntries(n)| && ChainEntries(n)[i] == q;
    EntryReads(n, i, v);
    hide Link, ChainEntries, PnpmLock.Read;
  }

  lemma ChainDeclares(n: nat, v: PnpmLock.View, a: string, b: string)
    ensures PnpmLock.Declares(ChainEntries(n), [], v, a, b) <==> IsStep(n, a, b)
  {
    var entries := ChainEntries(n);
    assert |entries| == n + 1;
    hide Link, ChainEntries, PnpmLock.Read;
    assert entries + [] == entries;
    if i: nat :| i < n && a == Link(i) && b == Link(i + 1) {
      EntryReads(n, i, v);
      assert entries[i] in entries;
    }
    if q :| q in entries && q.name == a && b in PnpmLock.Read(q.deps, v) { EntrySteps(n, v, q, b); }
  }

  lemma ChainLinks(g: DepGraph, n: nat)
    requires LoadedFrom(ChainProject(n), g)
    ensures forall a, b :: Linked(g.edges, a, b) <==> IsStep(n, a, b)
  {
    hide IsStep, ChainEntries, WellFormed, PnpmLock.Copies, PnpmLock.Imports, PnpmLock.ImportsDev, PnpmLock.FlagsRead,
         Linked, SomeCopyDepends, HasCopy, PnpmLock.Declares;
    var copies := PnpmLock.Copies(ChainEntries(n), PnpmLock.Keys) + PnpmLock.Copies([], PnpmLock.Keys);
    forall a, b ensures SomeCopyDepends(Exact, copies, a, b) <==> IsStep(n, a, b) {
      PnpmLock.CopiesDeclare(ChainEntries(n), [], PnpmLock.Keys, a, b);
      ChainDeclares(n, PnpmLock.Keys, a, b);
    }
    forall a, b | IsStep(n, a, b) { StepMoves(n, a, b); }
  }

  lemma LoadedIsChain(g: DepGraph, n: nat)
    requires LoadedFrom(ChainProject(n), g)
    ensures IsChain(g.edges, n)
  {
    ChainLinks(g, n);
    assert WellFormed(g.edges, Exact);
    hide LoadedFrom, Link;
    forall i: nat | i < n ensures Succ(g.edges, Link(i)) == [Link(i + 1)] {
      var next := Succ(g.edges, Link(i));
      assert Linked(g.edges, Link(i), Link(i + 1));
      forall b | b in next ensures b == Link(i + 1) {
        assert Linked(g.edges, Link(i), b);
        var j: nat :| j < n && Link(i) == Link(j) && b == Link(j + 1);
        assert |Link(i)| == i + 1 && |Link(j)| == j + 1;
      }
      OnlyOne(next, Link(i + 1));
    }
  }

  lemma OnlyOne(s: seq<string>, x: string)
    requires NoDup(s) && x in s && forall b :: b in s ==> b == x
    ensures s == [x]
  {
    var last := |s| - 1;
    assert s[0] in s && s[last] in s;
  }

  lemma ChainRoots(g: DepGraph, n: nat)
    requires LoadedFrom(ChainProject(n), g) && n > 0
    ensures g.root == [Link(0)] && g.rootDev != [] && g.rootDev[0] == Link(n)
  {
    var m := ChainProject(n).lockfile.importers;
    ReadOnePlain(Link(0), PnpmLock.Keys);
    ReadOnePlain(Link(n), PnpmLock.Keys);
    hide PnpmLock.Read, Recorded, WellFormed, PnpmLock.FlagsRead, PnpmLock.Copies, Link, ChainEntries;
    assert forall i :: i in m <==> i == m[0] by { assert m[0] in m; }
    assert forall x :: PnpmLock.Imports(m, PnpmLock.Keys, x) <==> x == Link(0);
    assert forall x :: PnpmLock.ImportsDev(m, x) <==> x == Link(n);
    assert |Link(0)| == 1 && |Link(n)| == n + 1;
    OnlyOne(g.root, Link(0));
    assert Link(n) in g.rootDev && g.rootDev[0] in g.rootDev;
  }

  lemma ChainIsNeeded(g: DepGraph, n: nat)
    requires LoadedFrom(ChainProject(n), g) && Reaches(g.edges, Link(0), Link(n))
    ensures PnpmLock.Needed(ChainProject(n).lockfile.importers, ChainEntries(n), [], PnpmLock.Unrenamed, Link(n))
  {
    var e, m := PnpmLock.Dependencies(ChainEntries(n), [], PnpmLock.Unrenamed), ChainProject(n).lockfile.importers;
    ChainLinks(g, n);
    PnpmLock.DependencyLinks(ChainEntries(n), [], PnpmLock.Unrenamed);
    forall a, b { ChainDeclares(n, PnpmLock.Unrenamed, a, b); }
    ReadOnePlain(Link(0), PnpmLock.Unrenamed);
    hide LoadedFrom, Link, ChainEntries, WellFormed, Linked, IsStep, PnpmLock.Declares, PnpmLock.Dependencies, Reaches,
         PnpmLock.Read;
    forall a, b | IsStep(n, a, b) { StepMoves(n, a, b); }
    SameLinks(e, g.edges, Link(0), Link(n));
    assert m[0] in m && PnpmLock.Imports(m, PnpmLock.Unrenamed, Link(0)) && |Link(0)| == 1;
  }

  lemma ChainIsListed(n: nat)
    ensures Holds(ChainProject(n).lockfile, Link(n)) && !AllFlagged(ChainEntries(n))
  {
    var entries := ChainEntries(n);
    hide Link, PnpmLock.Read;
    var copies := PnpmLock.Copies(entries, PnpmLock.Keys) + PnpmLock.Copies([], PnpmLock.Keys);
    assert copies[n].name == Link(n) && copies[n] in copies && entries[n] in entries && entries[n].dev.None?;
  }

  /** The runtime search meets n packages before the last one, the development search none. */
  lemma ChainIsMistaken(g: DepGraph, n: nat)
    requires LoadedFrom(ChainProject(n), g) && g.cap == n > 0
    ensures Mistaken(ChainProject(n), g, Link(n))
  {
    LoadedIsChain(g, n);
    ChainRoots(g, n);
    assert g.hasEdges && g.rootKnown && g.devSplit;
    hide LoadedFrom, Distance, PnpmLock.Needed, Link, ChainEntries, AllFlagged, Holds, Reaches, IsChain, DepGraph.Has;
    ChainIsListed(n);
    LoadedHolds(ChainProject(n), g, Link(n));
    ChainIsBeyondCap(g.edges, g.root, g.rootDev, n);
    ChainIsNeeded(g, n);
  }

  lemma ChainIsBeyondCap(e: Edges, root: seq<string>, rootDev: seq<string>, n: nat)
    requires IsChain(e, n) && n > 0 && root == [Link(0)] && rootDev != [] && rootDev[0] == Link(n)
    ensures BeyondCap(e, root, rootDev, Link(n), n) && Reaches(e, Link(0), Link(n))
  {
    hide Distance, Link, Reaches, IsChain, ReachSet;
    ChainEndDistance(e, n, root);
    StartIsMet(e, rootDev);
    DistanceIsReach(e, root, Link(n));
    assert forall a :: a in root ==> a == Link(0);
  }

  /** For every cap there is a lockfile of one package more whose last package is runtime and closed. */
  method CloseBeyondCap(f: Finding, cap: nat) returns (s: Scan, r: Report)
    requires cap > 0
    ensures s.graph != null && s.graphName == Link(cap) && Heuristics.Assess(r).status.NotAffected?
    ensures IsRuntime(ChainProject(cap), Link(cap))
  {
    hide Kinds, IsRuntime, Mistaken, Heuristics.Assess, LoadedFrom, Backed, WellFormed, ChainEntries, Link;
    s, r := ScanLockfile(ChainProject(cap), Link(cap), f, cap);
    ChainIsMistaken(s.graph, cap);
    MistakeCloses(ChainProject(cap), s, f, NotAsked, r);
  }

  // ---- Gradle ----

  function GradleProject(tests: set<string>): Project { Project(Gradle(GradleLock.LatestRows()), None, tests) }

  /** A module that only the configuration called latest resolves is closed, whatever the build's test configurations
      are, if latest is none of them. */
  method CloseLatest(f: Finding, cap: nat, tests: set<string>) returns (s: Scan, r: Report)
    requires "latest" !in tests
    ensures s.graph != null && s.graphName == "a" && Heuristics.Assess(r).status.NotAffected?
    ensures IsRuntime(GradleProject(tests), "a")
  {
    hide Scanned, Kinds, IsRuntime, Heuristics.Assess, GradleLock.IsTest, GradleLock.InProduct, GradleLock.TakenForTest,
         WellFormed, Key;
    GradleLock.LatestIsTakenForTest(tests);
    s, r := ScanLockfile(GradleProject(tests), "a", f, cap);
    MistakeCloses(GradleProject(tests), s, f, NotAsked, r);
  }

  // ---- Python ----

  function PoetryProject(): Project { Project(Poetry(PoetryLock.TwoBlocks()), None, {}) }

  /** A block for a, then one for A: the runtime package a is closed. */
  lemma PoetryCloses(s: Scan, f: Finding, rust: RustUse, r: Report)
    requires Scanned(PoetryProject(), s, f, rust, r) && s.graphName == "a"
    requires VersionFixed !in Kinds(r.items)
    ensures Heuristics.Assess(r).status.NotAffected? && IsRuntime(PoetryProject(), "a")
  {
    PoetryLock.RepetitionHidesRuntime();
    PoetryLock.RuntimeIsHiddenByRepetition(PoetryLock.TwoBlocks(), "a");
    TwoBlocksAreThere(s.graph);
    hide Key, Backed, WellFormed, Kinds, Heuristics.Assess;
    hide PoetryLock.TwoBlocks, PoetryLock.SomeSays, PoetryLock.Overwritten, PoetryLock.LastFlags, Recorded, IsRuntime;
    MistakeCloses(PoetryProject(), s, f, rust, r);
  }

  lemma TwoBlocksAreThere(g: DepGraph)
    requires LoadedFrom(PoetryProject(), g)
    ensures g.devFlags && g.Has("a") && Key(g.norm, "a") == "a" && SomeFlagged(PoetryLock.TwoBlocks())
  {
    PoetryLock.RepetitionHidesRuntime();
    var locked := PoetryLock.TwoBlocks();
    var copies := PoetryLock.Copies(locked);
    assert locked[0] in locked && locked[0].dev.Some?;
    assert copies[0] in copies && copies[0].name == "a";
    hide Key, PoetryLock.LastFlags, SomeCopyDepends, Linked;
  }

  method CloseRepeated(f: Finding, cap: nat) returns (s: Scan, r: Report)
    ensures s.graph != null && s.graphName == "a" && Heuristics.Assess(r).status.NotAffected?
    ensures IsRuntime(PoetryProject(), "a")
  {
    hide Scanned, Kinds, IsRuntime, Heuristics.Assess, PoetryLock.TwoBlocks;
    s, r := ScanLockfile(PoetryProject(), "a", f, cap);
    PoetryCloses(s, f, NotAsked, r);
  }

  function PipfileProject(): Project { Project(Pipfile({"a"}, {"A"}), None, {}) }

  /** a required at run time and A for development: the runtime package a is closed. */
  lemma PipfileCloses(s: Scan, f: Finding, rust: RustUse, r: Report)
    requires Scanned(PipfileProject(), s, f, rust, r) && s.graphName == "a"
    requires VersionFixed !in Kinds(r.items)
    ensures Heuristics.Assess(r).status.NotAffected? && IsRuntime(PipfileProject(), "a")
  {
    PipfileLock.SpellingHidesRuntime();
    hide Key, Scanned, Kinds, Heuristics.Assess, PipfileLock.Spells, PipfileLock.SpelledTwoWays;
    MistakeCloses(PipfileProject(), s, f, rust, r);
  }

  method CloseRespelled(f: Finding, cap: nat) returns (s: Scan, r: Report)
    ensures s.graph != null && s.graphName == "a" && Heuristics.Assess(r).status.NotAffected?
    ensures IsRuntime(PipfileProject(), "a")
  {
    hide Scanned, Kinds, IsRuntime, Heuristics.Assess;
    s, r := ScanLockfile(PipfileProject(), "a", f, cap);
    PipfileCloses(s, f, NotAsked, r);
  }

  // ---- two lockfiles ----

  /** A lockfile with one copy of a. */
  function OneCopy(dev: bool): Project {
    Project(Npm([NpmLock.Package(NpmLock.NODE_MODULES + "a", None, dev, false, [], [], [], [])], []), None, {})
  }

  lemma OneCopyCopies(dev: bool)
    ensures NpmLock.Copies(OneCopy(dev).lockfile.packages, []) == [Copy("a", "a", dev, [])]
  {
    var p := OneCopy(dev).lockfile.packages;
    NpmLock.InstalledUnder("a");
    assert NpmLock.InstalledName(p[0].key) == Some("a");
    hide NpmLock.AfterLast, NpmLock.InstalledName;
    assert p[..|p| - 1] == [];
    assert NpmLock.FlatCopies(p) == [] + [p[0].As("a")];
    assert p[0].Runtime() == [];
  }

  lemma OneCopyIs(dev: bool)
    ensures Holds(OneCopy(dev).lockfile, "a") && (IsRuntime(OneCopy(dev), "a") <==> !dev)
  {
    OneCopyCopies(dev);
    var copies := NpmLock.Copies(OneCopy(dev).lockfile.packages, []);
    assert copies[0] in copies;
    hide NpmLock.Copies;
  }

  lemma OneCopyAnswers(g: DepGraph, dev: bool)
    requires LoadedFrom(OneCopy(dev), g)
    ensures AnswersDev(g, "a") <==> dev
  {
    OneCopyCopies(dev);
    var copies := NpmLock.Copies(OneCopy(dev).lockfile.packages, []);
    assert copies[0] in copies;
    hide NpmLock.Copies, WellFormed, Linked, SomeCopyDepends;
  }

  function TwoFiles(devFirst: bool): seq<Option<Project>> {
    [Some(OneCopy(devFirst)), Some(OneCopy(!devFirst))]
  }

  lemma TwoFilesAre(devFirst: bool)
    ensures var files := TwoFiles(devFirst);
            && |files| == 2 && files[0] == Some(OneCopy(devFirst)) && (forall p :: Some(p) in files ==> p.lockfile.Npm?)
            && HoldsAt(files, "a", 0) && RuntimeSomewhere(files, "a")
  {
    OneCopyIs(devFirst);
    OneCopyIs(!devFirst);
    hide Holds, IsRuntime;
    assert RuntimeAt(TwoFiles(devFirst), "a", if devFirst then 1 else 0);
  }

  /** a is a development package in one lockfile and a runtime one in the other: which comes first decides. */
  method ScanTwoLockfiles(f: Finding, cap: nat, devFirst: bool) returns (r: Report)
    ensures Heuristics.RuleFor(r).DevelopmentOnly? <==> devFirst
    ensures RuntimeSomewhere(TwoFiles(devFirst), "a")
  {
    var s: Scan, at: nat;
    var files := TwoFiles(devFirst);
    TwoFilesAre(devFirst);
    hide TwoFiles, OneCopy, Backed, Kinds, LoadedFrom, Heuristics.RuleFor, HoldsAt, RuntimeSomewhere, WellFormed,
         AnswersDev;
    assert files[0].Some?;
    s, at, r := ScanLockfiles(files, "a", f, cap);
    OneCopyAnswers(s.graph, devFirst);
    ClosedExactly(s, f, NotAsked, r);
  }
}
