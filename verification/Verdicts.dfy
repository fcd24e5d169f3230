/** From the lockfiles to the verdict: what it means that the rules close a finding because the package is for
    development only or has no caller, and exactly when they are wrong about that. */
module Verdicts {
  import opened Options
  import opened Text
  import opened Paths
  import opened DepGraphs
  import opened Quotient
  import opened Sources
  import opened Evidence
  import opened Ecosystem
  import opened Runtimes
  import opened Mistakes
  import opened Loading
  import Heuristics
  import PnpmLock

  // ---- one lockfile ----

  /** A scan of a loaded graph and the report made of it. */
  ghost predicate Scanned(p: Project, s: Scan, f: Finding, rust: RustUse, r: Report)
    reads s.graph
  {
    && s.graph != null && s.Valid() && LoadedFrom(p, s.graph)
    && Backed(s, f, rust, r.items) && Reachable !in Kinds(r.items) && NotReachable !in Kinds(r.items)
  }

  /** The rules close a runtime package as dev-only exactly when one of the mistakes is at work and the version is not
      fixed. */
  lemma RuntimeClosedExactly(p: Project, s: Scan, f: Finding, rust: RustUse, r: Report)
    requires Scanned(p, s, f, rust, r)
    ensures Heuristics.RuleFor(r).DevelopmentOnly? && IsRuntime(p, s.graphName) <==>
            VersionFixed !in Kinds(r.items) && Mistaken(p, s.graph, s.graphName)
  {
    ClosedExactly(s, f, rust, r);
    RuntimeCalledDevExactly(p, s.graph, s.graphName);
    hide Key, LoadedFrom, Backed, AnswersDev, IsRuntime, Mistaken, WellFormed, Kinds, Heuristics.RuleFor;
  }

  /** Product code cannot but call the package directly, and the searched source does not. */
  ghost predicate ProductDoesNotCall(s: Scan, f: Finding, rust: RustUse)
    reads s.graph
  {
    && s.IsDirect(f) && !s.renamed
    && (rust.FunctionsNotNamed? ||
        (s.scansSources && s.reliable && !s.inScripts && s.importCount == 0 && s.sources > 0))
  }

  /** Where product code does not call it, the rules close a package that another one calls exactly when the graph does
      not call it dev-only and all its callers know it under other names. */
  lemma CalledPackageClosedExactly(p: Project, s: Scan, f: Finding, rust: RustUse, r: Report)
    requires Scanned(p, s, f, rust, r)
    ensures Heuristics.Assess(r).status.NotAffected? && !Heuristics.RuleFor(r).DevelopmentOnly? &&
            HasCaller(p, s.graphName) <==>
            && VersionFixed !in Kinds(r.items) && !AnswersDev(s.graph, s.graphName) && ProductDoesNotCall(s, f, rust)
            && Holds(p.lockfile, s.graphName) && CallersUnseen(p, s.graphName)
  {
    ClosedExactly(s, f, rust, r);
    CallersUnseenExactly(p, s.graph, s.graphName);
    hide Key, LoadedFrom, Backed, AnswersDev, WellFormed, Kinds, Heuristics.RuleFor, Heuristics.Assess, HasCaller,
         CallersUnseen, Holds, NoDependents, Scan.IsDirect;
    hide OnlyCallerDoesNotCall;
  }

  /** A finding outside Go is closed as not affected only if the package is no runtime package, or product code does not
      call it and no other package does; or a loader was mistaken about the one or the other. */
  lemma ClosedMeansOutOfReach(p: Project, s: Scan, f: Finding, rust: RustUse, r: Report)
    requires Scanned(p, s, f, rust, r) && Heuristics.Assess(r).status.NotAffected?
    ensures || !IsRuntime(p, s.graphName) || Mistaken(p, s.graph, s.graphName)
            || (OnlyCallerDoesNotCall(s, f, rust) && (HasCaller(p, s.graphName) ==> CallersUnseen(p, s.graphName)))
  {
    ClosedExactly(s, f, rust, r);
    RuntimeClosedExactly(p, s, f, rust, r);
    CalledPackageClosedExactly(p, s, f, rust, r);
    hide Scanned, AnswersDev, IsRuntime, Mistaken, Kinds, Heuristics.RuleFor, Heuristics.Assess, HasCaller,
         CallersUnseen, Holds, ProductDoesNotCall, OnlyCallerDoesNotCall;
  }

  /** Where pnpm keeps no flags, everything that a runtime import leads to through a chain of installed copies is
      part of the runtime, whatever its dependencies are called. */
  lemma PnpmChainIsRuntime(p: Project, chain: seq<Copy>)
    requires p.lockfile.Pnpm? && !AllFlagged(p.lockfile.entries)
    requires Chain(Exact, PnpmLock.Copies(p.lockfile.entries, PnpmLock.Resolved) +
                          PnpmLock.Copies(p.lockfile.snapshots, PnpmLock.Resolved), chain)
    requires PnpmLock.Imports(p.lockfile.importers, PnpmLock.Resolved, chain[0].name)
    ensures IsRuntime(p, chain[|chain| - 1].name)
  {
    var copies := PnpmLock.Copies(p.lockfile.entries, PnpmLock.Resolved) +
                  PnpmLock.Copies(p.lockfile.snapshots, PnpmLock.Resolved);
    GraphLinks(Exact, copies);
    ghost var present := set c | c in copies :: c.name;
    assert chain[0] in chain;
    hide Reaches, Linked, WellFormed, Graph, SomeCopyDepends, PnpmLock.Imports, PnpmLock.Copies, AllFlagged;
    ChainIsPath(Graph(Exact, copies), present, Exact, copies, chain);
  }

  // ---- several lockfiles ----

  ghost predicate HoldsAt(files: seq<Option<Project>>, name: string, i: nat) {
    i < |files| && files[i].Some? && Holds(files[i].value.lockfile, name)
  }

  /** Of the first n lockfiles, the one whose graph is kept: the first that lists the package, or the first of all if
      none does. */
  ghost predicate ChosenOf(files: seq<Option<Project>>, n: nat, name: string, at: nat) {
    && at < n <= |files| && files[at].Some?
    && if HoldsAt(files, name, at) then forall j: nat :: j < at ==> !HoldsAt(files, name, j)
       else (forall j: nat :: j < n ==> !HoldsAt(files, name, j)) && forall j: nat :: j < at ==> files[j].None?
  }

  ghost predicate IsChosen(files: seq<Option<Project>>, name: string, at: nat) {
    ChosenOf(files, |files|, name, at)
  }

  lemma StaysChosen(files: seq<Option<Project>>, name: string, at: nat, i: nat)
    requires i < |files| && ChosenOf(files, i, name, at)
    requires HoldsAt(files, name, at) || !HoldsAt(files, name, i)
    ensures ChosenOf(files, i + 1, name, at)
  {
    hide HoldsAt;
  }

  lemma BecomesChosen(files: seq<Option<Project>>, name: string, at: nat, i: nat)
    requires i < |files| && files[i].Some?
    requires || (forall j: nat :: j < i ==> files[j].None?)
             || (ChosenOf(files, i, name, at) && !HoldsAt(files, name, at) && HoldsAt(files, name, i))
    ensures ChosenOf(files, i + 1, name, i)
  {
    assert forall j: nat :: j < i ==> !HoldsAt(files, name, j);
    hide HoldsAt;
  }

  /** The loop over the lockfiles, shallow ones first; none stands for a file that cannot be read or decoded. */
  method ChooseGraph(files: seq<Option<Project>>, name: string, cap: nat) returns (g: DepGraph?, at: nat)
    requires forall p :: Some(p) in files ==>
               p.lockfile.Gradle? ==> forall row :: row in p.lockfile.rows ==> row.confs != []
    ensures g == null <==> forall i: nat :: i < |files| ==> files[i].None?
    ensures g != null ==> at < |files| && files[at].Some? && IsChosen(files, name, at)
    ensures g != null ==> fresh(g) && g.cap == cap && LoadedFrom(files[at].value, g)
  {
    g, at := null, 0;
    hide Holds, LoadedAs, SplitBy, WellFormed, ChosenOf, DepGraph.Has;
    for i := 0 to |files|
      invariant g == null <==> forall j: nat :: j < i ==> files[j].None?
      invariant g != null ==> at < i && files[at].Some? && ChosenOf(files, i, name, at)
      invariant g != null ==> fresh(g) && g.cap == cap && LoadedFrom(files[at].value, g)
    {
      if g != null {
        LoadedHolds(files[at].value, g, name);
        assert HoldsAt(files, name, at) <==> g.Has(name);
      }
      if files[i].None? || (g != null && g.Has(name)) {
        if g != null { StaysChosen(files, name, at, i); }
        continue;
      }
      var p := files[i].value;
      assert Some(p) in files;
      var more := LoadGraph(p.lockfile, p.manifest, cap);
      LoadedHolds(p, more, name);
      if g == null || more.Has(name) {
        BecomesChosen(files, name, at, i);
        g, at := more, i;
      } else {
        StaysChosen(files, name, at, i);
      }
    }
  }

  ghost predicate RuntimeSomewhere(files: seq<Option<Project>>, name: string) {
    exists i: nat :: RuntimeAt(files, name, i)
  }

  ghost predicate RuntimeAt(files: seq<Option<Project>>, name: string, i: nat) {
    i < |files| && files[i].Some? && IsRuntime(files[i].value, name)
  }

  /** A package that is runtime in some lockfile is closed as dev-only exactly when the first lockfile that lists it was
      mistaken, or calls it dev-only rightly while it is runtime in another one, which nobody asks. */
  lemma RuntimeSomewhereClosedExactly(files: seq<Option<Project>>, at: nat, s: Scan, f: Finding, rust: RustUse,
                                      r: Report)
    requires IsChosen(files, s.graphName, at) && Scanned(files[at].value, s, f, rust, r)
    ensures Heuristics.RuleFor(r).DevelopmentOnly? && RuntimeSomewhere(files, s.graphName) <==>
            && VersionFixed !in Kinds(r.items)
            && (|| Mistaken(files[at].value, s.graph, s.graphName)
                || (AnswersDev(s.graph, s.graphName) && !RuntimeAt(files, s.graphName, at) &&
                    exists j: nat :: j != at && RuntimeAt(files, s.graphName, j)))
    ensures Heuristics.RuleFor(r).DevelopmentOnly? ==>
            HoldsAt(files, s.graphName, at) && forall j: nat :: j < at ==> !HoldsAt(files, s.graphName, j)
  {
    ClosedExactly(s, f, rust, r);
    RuntimeCalledDevExactly(files[at].value, s.graph, s.graphName);
    if AnswersDev(s.graph, s.graphName) { FirstHolder(files, at, s.graph, s.graphName); }
    hide Key, LoadedFrom, Backed, AnswersDev, IsRuntime, Mistaken, WellFormed, Kinds, Heuristics.RuleFor, Holds;
    hide DepGraph.Has, IsChosen, HoldsAt;
    assert RuntimeAt(files, s.graphName, at) <==> IsRuntime(files[at].value, s.graphName);
    HereOrElsewhere(files, s.graphName, at);
    hide RuntimeAt, RuntimeSomewhere;
  }

  lemma HereOrElsewhere(files: seq<Option<Project>>, name: string, at: nat)
    ensures RuntimeSomewhere(files, name) <==>
            RuntimeAt(files, name, at) || exists j: nat :: j != at && RuntimeAt(files, name, j)
  {
    hide RuntimeAt;
  }

  lemma FirstHolder(files: seq<Option<Project>>, at: nat, g: DepGraph, name: string)
    requires IsChosen(files, name, at) && LoadedFrom(files[at].value, g) && AnswersDev(g, name)
    ensures HoldsAt(files, name, at) && forall j: nat :: j < at ==> !HoldsAt(files, name, j)
  {
    LoadedHolds(files[at].value, g, name);
    AnswersHas(g, name);
    hide LoadedFrom, AnswersDev, DepGraph.Has, Holds;
  }

  lemma AnswersHas(g: DepGraph, name: string)
    ensures AnswersDev(g, name) ==> g.Has(name)
  {
  }

  /** Chooses a graph, scans for a package that no source file was searched for, and collects the report. */
  method ScanLockfiles(files: seq<Option<Project>>, name: string, f: Finding, cap: nat)
    returns (s: Scan, at: nat, r: Report)
    requires forall p :: Some(p) in files ==>
               p.lockfile.Gradle? ==> forall row :: row in p.lockfile.rows ==> row.confs != []
    requires exists i: nat :: i < |files| && files[i].Some?
    ensures s.graph != null && fresh(s.graph) && s.graph.cap == cap && s.graphName == name
    ensures at < |files| && files[at].Some? && IsChosen(files, name, at)
    ensures Scanned(files[at].value, s, f, NotAsked, r) && VersionFixed !in Kinds(r.items)
  {
    hide LoadedFrom, IsChosen, WellFormed, Backed, Kinds, StrongKinds;
    var g, i := ChooseGraph(files, name, cap);
    at := i;
    assert g != null;
    LoadedIsValid(files[at].value, g);
    s := Scan(g, name, true, false, false, 0, 0, 0, 0, 1, false, false);
    r := Collect(f, None, None, true, Some(s), NotAsked);
  }

  lemma LoadedIsValid(p: Project, g: DepGraph)
    requires LoadedFrom(p, g)
    ensures g.Valid()
  {
  }

  /** The same for a product with one lockfile. */
  method ScanLockfile(p: Project, name: string, f: Finding, cap: nat) returns (s: Scan, r: Report)
    requires p.lockfile.Gradle? ==> forall row :: row in p.lockfile.rows ==> row.confs != []
    ensures s.graph != null && fresh(s.graph) && s.graph.cap == cap && s.graphName == name
    ensures Scanned(p, s, f, NotAsked, r) && VersionFixed !in Kinds(r.items)
  {
    hide Scanned, Kinds, Holds;
    var at: nat;
    var files := [Some(p)];
    assert files[0].Some?;
    s, at, r := ScanLockfiles(files, name, f, cap);
  }

  /** A mistake is enough: the package is runtime, and the finding is closed. */
  lemma MistakeCloses(p: Project, s: Scan, f: Finding, rust: RustUse, r: Report)
    requires Scanned(p, s, f, rust, r) && VersionFixed !in Kinds(r.items) && Mistaken(p, s.graph, s.graphName)
    ensures Heuristics.Assess(r).status.NotAffected? && IsRuntime(p, s.graphName)
  {
    ClosedExactly(s, f, rust, r);
    RuntimeCalledDevExactly(p, s.graph, s.graphName);
    hide Key, LoadedFrom, Backed, AnswersDev, IsRuntime, Mistaken, WellFormed, Kinds, Heuristics.RuleFor,
         Heuristics.Assess;
  }
}
