/** Evidence from manifests, the lockfile graph and the import scan of ecosystems without call-graph analysis. What the
    file walk and the regular expressions found comes in as counts and flags; the graph is the loaded lockfile. */
module Ecosystem {
  import opened Options
  import opened Text
  import opened Paths
  import opened BreadthFirst
  import opened DepGraphs
  import opened Closure
  import opened Sources
  import opened Evidence
  import Heuristics

  // ---- when a lockfile proves that only product code can call a package ----

  /** The graph has edges and shows no package that depends on name. */
  ghost predicate NoDependents(g: DepGraph, name: string)
    reads g
  {
    g.hasEdges && g.Has(name) && g.DependentSet(name) == {}
  }

  lemma NoEdgeInto(g: DepGraph, name: string, u: string)
    requires g.Valid() && NoDependents(g, name)
    ensures Key(g.norm, name) !in Succ(g.edges, u)
  {
    hide Key;
    assert u !in g.DependentSet(name);
  }

  /** Then no other node reaches it at all, over any number of steps. */
  lemma NothingElseReaches(g: DepGraph, name: string, s: string)
    requires g.Valid() && NoDependents(g, name) && s != Key(g.norm, name)
    ensures !Reaches(g.edges, s, Key(g.norm, name))
  {
    hide WellFormed, Key, Reaches, Succ;
    var k := Key(g.norm, name);
    forall u ensures k !in Succ(g.edges, u) { NoEdgeInto(g, name, u); }
    if Reaches(g.edges, s, k) { ReachedThroughPredecessor(g.edges, s, k); }
  }

  /** So every chain from a direct dependency to it is that dependency itself. */
  lemma SoleChainIsDirect(g: DepGraph, name: string, p: seq<string>)
    requires g.Valid() && NoDependents(g, name) && g.IsShortestFromRoot(p, Key(g.norm, name))
    ensures p == [Key(g.norm, name)] && g.IsRoot(name)
  {
    var k := Key(g.norm, name);
    assert Reaches(g.edges, p[0], k);
    if p[0] != k { NothingElseReaches(g, name, p[0]); }
    assert PathBetween(g.edges, [k], k, k);
  }

  /** A package nobody depends on that is not a root is out of reach of all direct dependencies. */
  lemma SoleNonRootIsOrphan(g: DepGraph, name: string)
    requires g.Valid() && NoDependents(g, name) && !g.IsRoot(name)
    ensures !ReachesAny(g.edges, g.root + g.rootDev, Key(g.norm, name))
  {
    var k := Key(g.norm, name);
    hide Reaches;
    forall s | s in g.root + g.rootDev ensures !Reaches(g.edges, s, k) { NothingElseReaches(g, name, s); }
  }

  /** No other node reaches the package over any number of steps exactly when no edge leads to it. */
  lemma SoleConsumerExactly(g: DepGraph, name: string)
    requires g.Valid()
    ensures NoDependents(g, name) <==>
            && g.hasEdges && g.Has(name)
            && forall s :: s != Key(g.norm, name) ==> !Reaches(g.edges, s, Key(g.norm, name))
  {
    var k := Key(g.norm, name);
    if NoDependents(g, name) {
      forall s | s != k ensures !Reaches(g.edges, s, k) { NothingElseReaches(g, name, s); }
    }
    hide WellFormed, Key;
    if g.DependentSet(name) != {} {
      var p :| p in g.DependentSet(name);
      ReachesSelf(g.edges, p);
      ReachesStep(g.edges, p, p, k);
    }
  }

  // ---- when a lockfile answers that a package is for development only ----

  ghost predicate Answers(g: DepGraph, name: string)
    reads g
  {
    g.Has(name) && (g.devFlags || (g.hasEdges && g.rootKnown && g.devSplit))
  }

  /** What the graph answers: its flag, or what the two capped searches find. */
  ghost predicate AnswersDev(g: DepGraph, name: string)
    reads g
  {
    && Answers(g, name)
    && if g.devFlags then Key(g.norm, name) in g.devOnlyFlag && g.devOnlyFlag[Key(g.norm, name)]
       else CalledDev(g.edges, g.root, g.rootDev, Key(g.norm, name), g.cap)
  }

  ghost predicate WithinCap(g: DepGraph)
    reads g
  {
    |ReachSet(g.edges, g.root)| <= g.cap && |ReachSet(g.edges, g.rootDev)| <= g.cap
  }

  /** Without flags and within the cap the answer is reachability from the two lists of roots. */
  lemma AnswerWithinCap(g: DepGraph, name: string)
    requires !g.devFlags && WithinCap(g)
    ensures AnswersDev(g, name) <==> Answers(g, name) && OutsideRuntime(g.edges, g.root, g.rootDev, Key(g.norm, name))
  {
    DistanceIsReach(g.edges, g.root, Key(g.norm, name));
    DistanceIsReach(g.edges, g.rootDev, Key(g.norm, name));
    hide ReachSet, ReachesAny, Distance, Key;
  }

  // ---- one scan ----

  const LIST_LIMIT := 10

  /** The lists behind the counts stop growing at the limit. */
  function AppendLimited(list: seq<string>, s: string): seq<string> {
    if |list| >= LIST_LIMIT then list else list + [s]
  }

  /** A manifest that declares the package, for development or not. */
  datatype Manifest = Manifest(path: string, dev: bool)

  function CountDev(manifests: seq<Manifest>): nat {
    if manifests == [] then 0
    else CountDev(manifests[..|manifests| - 1]) + if manifests[|manifests| - 1].dev then 1 else 0
  }

  function Limited(n: nat): nat { if n < LIST_LIMIT then n else LIST_LIMIT }

  method CollectManifests(manifests: seq<Manifest>) returns (declaredIn: seq<string>, devIn: seq<string>)
    ensures |declaredIn| == Limited(|manifests|) && |devIn| == Limited(CountDev(manifests))
  {
    declaredIn, devIn := [], [];
    for i := 0 to |manifests|
      invariant |declaredIn| == Limited(i) && |devIn| == Limited(CountDev(manifests[..i]))
    {
      assert manifests[..i + 1][..i] == manifests[..i];
      declaredIn := AppendLimited(declaredIn, manifests[i].path);
      if manifests[i].dev { devIn := AppendLimited(devIn, manifests[i].path); }
    }
    assert manifests[..|manifests|] == manifests;
  }

  /** The scan's test for a package that is declared only for development. */
  predicate LooksDevOnly(declared: nat, dev: nat) { declared > 0 && dev == declared }

  lemma {:induction false} CountDevAtMostAll(manifests: seq<Manifest>)
    ensures CountDev(manifests) <= |manifests|
    ensures CountDev(manifests) == |manifests| <==> forall m :: m in manifests ==> m.dev
  {
    if manifests != [] {
      var n := |manifests| - 1;
      assert manifests == manifests[..n] + [manifests[n]];
      CountDevAtMostAll(manifests[..n]);
    }
  }

  /** The test is wrong, and then says too much, exactly when ten manifests or more declare the package for development
      and another one does not. */
  lemma LooksDevOnlyIsWrongExactly(manifests: seq<Manifest>)
    ensures LooksDevOnly(Limited(|manifests|), Limited(CountDev(manifests))) !=
            LooksDevOnly(|manifests|, CountDev(manifests)) <==>
            CountDev(manifests) >= LIST_LIMIT && exists m :: m in manifests && !m.dev
  {
    CountDevAtMostAll(manifests);
  }

  lemma {:induction false} CountRepeated(n: nat)
    ensures CountDev(seq(n, _ => Manifest("dev/package.json", true))) == n
  {
    if n > 0 {
      assert seq(n, _ => Manifest("dev/package.json", true))[..n - 1] ==
             seq(n - 1, _ => Manifest("dev/package.json", true));
      CountRepeated(n - 1);
    }
  }

  /** Ten development manifests hide a runtime one. */
  lemma TenManifestsHideRuntime()
    ensures var manifests := seq(10, _ => Manifest("dev/package.json", true)) + [Manifest("package.json", false)];
            && LooksDevOnly(Limited(|manifests|), Limited(CountDev(manifests)))
            && Manifest("package.json", false) in manifests
  {
    var tens := seq(10, _ => Manifest("dev/package.json", true));
    var manifests := tens + [Manifest("package.json", false)];
    CountRepeated(10);
    assert manifests[..|manifests| - 1] == tens;
    assert CountDev(manifests) == CountDev(tens);
    assert manifests[10] == Manifest("package.json", false);
  }

  /** declared, dev and locked are the lengths of the lists of manifests that declare the package, of those that do so
      for development, and of lockfiles that mention it; sources counts the source files that were searched for
      imports. */
  datatype Scan = Scan(graph: DepGraph?, graphName: string, reliable: bool, renamed: bool, inScripts: bool,
                       importCount: nat,
                       sources: nat, declared: nat, dev: nat, locked: nat, scansSources: bool, composer: bool)
  {
    ghost predicate Valid()
      reads graph
    {
      (graph != null ==> graph.Valid()) && dev <= declared
    }

    predicate IsDirect(f: Finding)
      reads graph
    {
      if f.directKnown then f.direct else declared > 0 || (graph != null && graph.IsRoot(graphName))
    }

    ghost predicate SoleConsumer()
      reads graph
    {
      graph != null && NoDependents(graph, graphName)
    }

    ghost predicate StrongImportMiss(f: Finding)
      reads graph
    {
      reliable && !renamed && !inScripts && importCount == 0 && sources > 0 && IsDirect(f) && SoleConsumer()
    }

    method HasSoleConsumer() returns (sole: bool)
      ensures sole <==> SoleConsumer()
    {
      if graph == null || !graph.hasEdges || !graph.Has(graphName) { return false; }
      var dependents := graph.Dependents(graphName);
      sole := |dependents| == 0;
      assert !sole ==> dependents[0] in graph.DependentSet(graphName);
      assert graph.DependentSet(graphName) != {} ==> exists p :: p in dependents;
    }

    /** Depth first, then the lockfile path, then imports. */
    method Items(f: Finding) returns (items: seq<Item>)
      requires Valid()
      ensures StrongKinds(items) <= {DevDependency, ImportNotFound}
      ensures ImportNotFound in StrongKinds(items) <==> scansSources && StrongImportMiss(f)
      ensures DevDependency in StrongKinds(items) <==> graph != null && AnswersDev(graph, graphName)
      ensures Item(DevDependency, false) in items <==>
                declared > 0 && dev == declared && !(graph != null && Answers(graph, graphName))
      ensures DirectDependency in Kinds(items) <==> declared > 0
      ensures Transitive in Kinds(items) <==> declared == 0 && (DevDependency in StrongKinds(items) || locked > 0)
      ensures ManifestNotFound in Kinds(items) <==> declared == 0 && locked == 0 && DevDependency !in StrongKinds(items)
      ensures DependencyPath in Kinds(items) <==> graph != null && graph.hasEdges && graph.Has(graphName)
      ensures PackageImported in Kinds(items) <==> scansSources && importCount > 0
      ensures ImportNotFound in Kinds(items) <==> scansSources && importCount == 0 && !(sources == 0 && composer)
      ensures Kinds(items) <= {DevDependency, DirectDependency, Transitive, ManifestNotFound,
                               DependencyPath, PackageImported, ImportNotFound}
    {
      hide Answers, AnswersDev, NoDependents, Scan.StrongImportMiss, WellFormed, DepGraph.Has;
      hide Kinds, StrongKinds;
      items := DepthItems();
      ghost var depth := items;
      KindOfOne(DependencyPath, false);
      if graph != null && graph.hasEdges && graph.Has(graphName) {
        KindsOfConcat(items, [Item(DependencyPath, false)]);
        items := items + [Item(DependencyPath, false)];
      }
      assert StrongKinds(items) == StrongKinds(depth);
      if scansSources {
        var imports := ImportItems(f);
        KindsOfConcat(items, imports);
        items := items + imports;
      }
    }

    method ImportItems(f: Finding) returns (items: seq<Item>)
      requires Valid()
      ensures Kinds(items) == if importCount > 0 then {PackageImported}
                              else if sources == 0 && composer then {} else {ImportNotFound}
      ensures StrongKinds(items) == if StrongImportMiss(f) then {ImportNotFound} else {}
      ensures forall it :: it in items ==> it.kind == PackageImported || it.kind == ImportNotFound
    {
      KindOfOne(PackageImported, false);
      var sole := HasSoleConsumer();
      if importCount > 0 {
        return [Item(PackageImported, false)];
      } else if sources == 0 && composer {
        return [];
      } else {
        var strong := reliable && !renamed && !inScripts && sources > 0 && IsDirect(f) && sole;
        KindOfOne(ImportNotFound, strong);
        return [Item(ImportNotFound, strong)];
      }
    }

    method DepthItems() returns (items: seq<Item>)
      requires Valid()
      ensures Kinds(items) <= {DevDependency, DirectDependency, Transitive, ManifestNotFound}
      ensures forall it :: it in items ==> it.kind in {DevDependency, DirectDependency, Transitive, ManifestNotFound}
      ensures StrongKinds(items) == if graph != null && AnswersDev(graph, graphName) then {DevDependency} else {}
      ensures Item(DevDependency, false) in items <==>
                declared > 0 && dev == declared && !(graph != null && Answers(graph, graphName))
      ensures DirectDependency in Kinds(items) <==> declared > 0
      ensures Transitive in Kinds(items) <==> declared == 0 && (DevDependency in StrongKinds(items) || locked > 0)
      ensures ManifestNotFound in Kinds(items) <==> declared == 0 && locked == 0 && DevDependency !in StrongKinds(items)
    {
      var devOnly, devKnown := DevVerdict();
      var manifestDev := LooksDevOnly(declared, dev);
      hide Answers, AnswersDev;
      KindOfOne(DirectDependency, false);
      KindOfOne(Transitive, false);
      KindOfOne(ManifestNotFound, false);
      KindOfOne(DevDependency, devOnly);
      if devKnown && devOnly {
        var depth := if declared > 0 then DirectDependency else Transitive;
        KindsOfConcat([Item(DevDependency, true)], [Item(depth, false)]);
        items := [Item(DevDependency, true)] + [Item(depth, false)];
      } else if manifestDev && devKnown && !devOnly {
        items := [Item(DirectDependency, false)];
      } else if manifestDev {
        KindsOfConcat([Item(DevDependency, false)], [Item(DirectDependency, false)]);
        items := [Item(DevDependency, false)] + [Item(DirectDependency, false)];
        assert items[0] == Item(DevDependency, false);
      } else if declared > 0 {
        items := [Item(DirectDependency, false)];
      } else if locked > 0 {
        items := [Item(Transitive, false)];
      } else {
        items := [Item(ManifestNotFound, false)];
      }
      hide Kinds, StrongKinds;
    }

    /** What the lockfile says about the runtime closure; nothing without one. */
    method DevVerdict() returns (devOnly: bool, devKnown: bool)
      requires Valid()
      ensures devKnown <==> graph != null && Answers(graph, graphName)
      ensures devOnly <==> graph != null && AnswersDev(graph, graphName)
      ensures devOnly ==> devKnown
    {
      devOnly, devKnown := false, false;
      if graph != null {
        hide ReachSet, ReachesAny, WellFormed, MetWithin;
        devOnly, devKnown := graph.DevOnly(graphName);
      }
    }
  }

  /** Direct is what the server says, or else what a manifest declares or the lockfile lists among its roots. */
  lemma DirectExactly(s: Scan, f: Finding)
    ensures s.IsDirect(f) <==>
            || (f.directKnown && f.direct)
            || (!f.directKnown &&
                (s.declared > 0 ||
                 (s.graph != null && exists r :: (r in s.graph.root || r in s.graph.rootDev) &&
                                                 r == Key(s.graph.norm, s.graphName))))
  {
    hide Key;
  }

  ghost function Kinds(items: seq<Item>): set<Kind> { set it | it in items :: it.kind }

  ghost function StrongKinds(items: seq<Item>): set<Kind> { set it | it in items && it.strong :: it.kind }

  lemma KindsOfConcat(a: seq<Item>, b: seq<Item>)
    ensures Kinds(a + b) == Kinds(a) + Kinds(b)
    ensures StrongKinds(a + b) == StrongKinds(a) + StrongKinds(b)
  {
  }

  // ---- the report of a finding outside Go ----

  function Dropped(items: seq<Item>, kinds: set<Kind>): seq<Item> {
    if items == [] then []
    else Dropped(items[..|items| - 1], kinds) + if items[|items| - 1].kind in kinds then [] else [items[|items| - 1]]
  }

  lemma {:induction false} DroppedKinds(items: seq<Item>, kinds: set<Kind>)
    ensures Kinds(Dropped(items, kinds)) == Kinds(items) - kinds
    ensures StrongKinds(Dropped(items, kinds)) == StrongKinds(items) - kinds
  {
    if items != [] {
      var n := |items| - 1;
      var last := if items[n].kind in kinds then [] else [items[n]];
      assert items == items[..n] + [items[n]];
      DroppedKinds(items[..n], kinds);
      KindsOfConcat(items[..n], [items[n]]);
      KindsOfConcat(Dropped(items[..n], kinds), last);
      assert Kinds([items[n]]) == {items[n].kind};
      assert Kinds(last) == Kinds([items[n]]) - kinds && StrongKinds(last) == StrongKinds([items[n]]) - kinds;
    }
  }

  method DropKinds(items: seq<Item>, kinds: set<Kind>) returns (out: seq<Item>)
    ensures out == Dropped(items, kinds)
  {
    out := [];
    for i := 0 to |items|
      invariant out == Dropped(items[..i], kinds)
    {
      assert items[..i + 1][..i] == items[..i];
      if items[i].kind !in kinds { out := out + [items[i]]; }
    }
    assert items[..|items|] == items;
  }

  /** What product files that use the crate say about its vulnerable functions. */
  datatype RustUse = NotAsked | CrateUnused | FunctionsNamed | FunctionsNotNamed

  ghost predicate UnusedBySoleCaller(s: Scan, f: Finding, rust: RustUse)
    reads s.graph
  {
    rust.FunctionsNotNamed? && s.IsDirect(f) && s.SoleConsumer() && !s.renamed
  }

  method RustItems(s: Scan, f: Finding, rust: RustUse) returns (items: seq<Item>)
    requires s.Valid()
    ensures Kinds(items) <= {SymbolReferenced, SymbolNotReferenced}
    ensures StrongKinds(items) == if UnusedBySoleCaller(s, f, rust) then {SymbolNotReferenced} else {}
  {
    var sole := s.HasSoleConsumer();
    match rust
    case NotAsked => return [];
    case CrateUnused => return [];
    case FunctionsNamed => return [Item(SymbolReferenced, false)];
    case FunctionsNotNamed =>
      var strong := s.IsDirect(f) && sole && !s.renamed;
      items := [Item(SymbolNotReferenced, strong)];
      assert items[0] in items;
  }

  /** Every strong item of the scan is exactly as good as the graph behind it. */
  ghost predicate Backed(s: Scan, f: Finding, rust: RustUse, items: seq<Item>)
    reads s.graph
  {
    && (ImportNotFound in StrongKinds(items) <==> s.scansSources && s.StrongImportMiss(f))
    && (SymbolNotReferenced in StrongKinds(items) <==> UnusedBySoleCaller(s, f, rust))
    && (DevDependency in StrongKinds(items) <==> s.graph != null && AnswersDev(s.graph, s.graphName))
  }

  /** The server's word on direct or transitive settles the depth. */
  method SettleDepth(f: Finding, items: seq<Item>) returns (out: seq<Item>)
    requires StrongKinds(items) !! {DirectDependency, Transitive}
    ensures StrongKinds(out) == StrongKinds(items) && Kinds(out) <= Kinds(items)
    ensures f.directKnown ==> Kinds(out) !! {DirectDependency, Transitive}
  {
    out := items;
    if f.directKnown {
      DroppedKinds(items, {DirectDependency, Transitive});
      hide Kinds, StrongKinds, Dropped;
      out := DropKinds(items, {DirectDependency, Transitive});
    }
  }

  method ScanItems(s: Scan, f: Finding, rust: RustUse) returns (items: seq<Item>)
    requires s.Valid()
    ensures StrongKinds(items) <= {DevDependency, ImportNotFound, SymbolNotReferenced} && Backed(s, f, rust, items)
    ensures f.directKnown ==> Kinds(items) !! {DirectDependency, Transitive}
    ensures Kinds(items) !! {VersionFixed, Reachable, NotReachable}
  {
    hide Answers, AnswersDev, NoDependents, Scan.StrongImportMiss, Scan.SoleConsumer, UnusedBySoleCaller, WellFormed;
    hide Kinds, StrongKinds, Scan.IsDirect, DepGraph.Has;
    items := s.Items(f);
    items := SettleDepth(f, items);
    var more := RustItems(s, f, rust);
    KindsOfConcat(items, more);
    items := items + more;
  }

  lemma KindOfOne(k: Kind, strong: bool)
    ensures Kinds([Item(k, strong)]) == {k} && StrongKinds([Item(k, strong)]) == if strong then {k} else {}
    ensures Kinds([]) == {} && StrongKinds([]) == {}
  {
    assert [Item(k, strong)][0] in [Item(k, strong)];
  }

  /** The installed version against the fixed one; compared is none when they cannot be compared. */
  method VersionItems(compared: Option<int>) returns (items: seq<Item>)
    ensures Kinds(items) == if compared.None? then {}
                            else if compared.value >= 0 then {VersionFixed} else {VersionVulnerable}
    ensures StrongKinds(items) == if compared.Some? && compared.value >= 0 then {VersionFixed} else {}
  {
    KindOfOne(VersionFixed, true);
    KindOfOne(VersionVulnerable, false);
    hide Kinds, StrongKinds;
    if compared.None? { return []; }
    if compared.value >= 0 { return [Item(VersionFixed, true)]; }
    items := [Item(VersionVulnerable, false)];
  }

  /** What is known before looking at the repository: versions, depth, OSV. */
  method FirstItems(f: Finding, compared: Option<int>, osv: Option<Osv>) returns (items: seq<Item>)
    ensures Kinds(items) <= {VersionFixed, VersionVulnerable, DirectDependency, Transitive, OSVDetails}
    ensures StrongKinds(items) == if compared.Some? && compared.value >= 0 then {VersionFixed} else {}
    ensures VersionFixed in Kinds(items) <==> compared.Some? && compared.value >= 0
    ensures VersionVulnerable in Kinds(items) <==> compared.Some? && compared.value < 0
    ensures DirectDependency in Kinds(items) <==> f.directKnown && f.direct
    ensures Transitive in Kinds(items) <==> f.directKnown && !f.direct
  {
    hide Kinds, StrongKinds;
    items := VersionItems(compared);
    if f.directKnown {
      var depth := if f.direct then DirectDependency else Transitive;
      KindOfOne(depth, false);
      KindsOfConcat(items, [Item(depth, false)]);
      items := items + [Item(depth, false)];
    }
    if osv.Some? {
      KindOfOne(OSVDetails, false);
      KindsOfConcat(items, [Item(OSVDetails, false)]);
      items := items + [Item(OSVDetails, false)];
    }
  }

  /** The report of a finding outside Go. */
  method Collect(f: Finding, compared: Option<int>, osv: Option<Osv>, repo: bool, scan: Option<Scan>, rust: RustUse)
    returns (r: Report)
    requires scan.Some? ==> scan.value.Valid()
    ensures r.finding == f && r.osv == osv
    ensures VersionFixed in Kinds(r.items) <==> compared.Some? && compared.value >= 0
    ensures Reachable !in Kinds(r.items) && NotReachable !in Kinds(r.items)
    ensures f.directKnown ==>
            (DirectDependency in Kinds(r.items) <==> f.direct) && (Transitive in Kinds(r.items) <==> !f.direct)
    ensures StrongKinds(r.items) <= {VersionFixed, DevDependency, ImportNotFound, SymbolNotReferenced}
    ensures !repo || scan.None? ==> StrongKinds(r.items) <= {VersionFixed}
    ensures repo && scan.Some? ==> Backed(scan.value, f, if osv.Some? then rust else NotAsked, r.items)
  {
    hide Answers, AnswersDev, NoDependents, Scan.StrongImportMiss, Scan.SoleConsumer, UnusedBySoleCaller, WellFormed;
    hide Kinds, StrongKinds;
    var items := FirstItems(f, compared, osv);
    if !repo {
      KindOfOne(RepoUnavailable, false);
      KindsOfConcat(items, [Item(RepoUnavailable, false)]);
      return Report(f, osv, items + [Item(RepoUnavailable, false)]);
    }
    if scan.Some? {
      var eco := ScanItems(scan.value, f, if osv.Some? then rust else NotAsked);
      KindsOfConcat(items, eco);
      items := items + eco;
    }
    KindOfOne(NoReachabilityTool, false);
    KindsOfConcat(items, [Item(NoReachabilityTool, false)]);
    r := Report(f, osv, items + [Item(NoReachabilityTool, false)]);
  }

  lemma KindsOfReport(r: Report, k: Kind)
    ensures r.Has(k) <==> k in Kinds(r.items)
    ensures r.HasStrong(k) <==> k in StrongKinds(r.items)
  {
  }

  /** Only product code can call the package, and the searched source does not. */
  ghost predicate OnlyCallerDoesNotCall(s: Scan, f: Finding, rust: RustUse)
    reads s.graph
  {
    && s.graph != null && s.IsDirect(f) && !s.renamed
    && (forall n :: n != Key(s.graph.norm, s.graphName) ==> !Reaches(s.graph.edges, n, Key(s.graph.norm, s.graphName)))
    && (rust.FunctionsNotNamed? || (s.reliable && !s.inScripts && s.importCount == 0 && s.sources > 0))
  }

  /** From the graph to the verdict: exactly when, and by which rule, the rules close a finding outside Go as not
      affected. Where it is not the graph's answer that closes it, only product code can call the package and does
      not. */
  lemma ClosedExactly(s: Scan, f: Finding, rust: RustUse, r: Report)
    requires s.Valid() && Backed(s, f, rust, r.items)
    requires Reachable !in Kinds(r.items) && NotReachable !in Kinds(r.items)
    ensures Heuristics.RuleFor(r).DevelopmentOnly? <==>
              VersionFixed !in Kinds(r.items) && s.graph != null && AnswersDev(s.graph, s.graphName)
    ensures Heuristics.Assess(r).status.NotAffected? <==>
            && VersionFixed !in Kinds(r.items) && s.graph != null
            && (AnswersDev(s.graph, s.graphName) || UnusedBySoleCaller(s, f, rust) ||
                (s.scansSources && s.StrongImportMiss(f)))
    ensures Heuristics.Assess(r).status.NotAffected? && !Heuristics.RuleFor(r).DevelopmentOnly? ==>
              OnlyCallerDoesNotCall(s, f, rust)
  {
    Heuristics.ClosedVerdictHasEvidence(r);
    forall k ensures (r.Has(k) <==> k in Kinds(r.items)) && (r.HasStrong(k) <==> k in StrongKinds(r.items)) {
      KindsOfReport(r, k);
    }
    StrongIsPresent(r.items, NotReachable);
    DevelopmentRule(r);
    hide Heuristics.Assess, Heuristics.RuleFor, Report.Has, Report.HasStrong, AnswersDev, Reaches, WellFormed, Kinds,
         StrongKinds, Key;
    if s.SoleConsumer() { SoleConsumerExactly(s.graph, s.graphName); }
  }

  lemma DevelopmentRule(r: Report)
    ensures Heuristics.RuleFor(r).DevelopmentOnly? <==>
            && !r.Has(VersionFixed) && !r.Has(Reachable) && !r.HasStrong(NotReachable) && r.HasStrong(DevDependency)
  {
    hide Report.Has, Report.HasStrong;
  }

  lemma StrongIsPresent(items: seq<Item>, k: Kind)
    ensures k in StrongKinds(items) ==> k in Kinds(items)
  {
  }
}
