/** From a decoded lockfile and its manifest to the graph, for the formats that are modelled. */
module Loading {
  import opened Options
  import opened Text
  import opened Paths
  import opened DepGraphs
  import opened Quotient
  import NpmLock
  import PnpmLock
  import CargoLock
  import PoetryLock
  import PipfileLock
  import ComposerLock
  import GradleLock

  datatype Lockfile =
    | Npm(packages: seq<NpmLock.Package>, tree: seq<NpmLock.Nested>)
    | Pnpm(importers: seq<PnpmLock.Importer>, entries: seq<PnpmLock.Package>, snapshots: seq<PnpmLock.Package>)
    | Cargo(blocks: seq<CargoLock.Block>)
    | Poetry(locked: seq<PoetryLock.Package>)
    | Pipfile(runtime: set<string>, develop: set<string>)
    | Composer(required: seq<ComposerLock.Package>, requiredDev: seq<ComposerLock.Package>)
    | Gradle(rows: seq<GradleLock.Row>)

  /** The sibling manifest's runtime and development names; workspace says that members declare their own. */
  datatype Manifest = Manifest(runtime: seq<string>, dev: seq<string>, workspace: bool)

  /** No package is both a runtime and a development root. */
  ghost predicate RootsApart(g: DepGraph)
    reads g
  {
    forall x :: !(x in g.root && x in g.rootDev)
  }

  /** What the graph holds of the lockfile. */
  ghost predicate LoadedAs(l: Lockfile, g: DepGraph)
    reads g
  {
    match l
    case Npm(packages, tree) =>
      && g.norm == Exact && g.devFlags && g.hasEdges
      && Recorded(g.edges, g.present, Exact, NpmLock.Copies(packages, tree))
      && FlagsAllDev(Exact, g.devOnlyFlag, NpmLock.Copies(packages, tree))
    case Pnpm(importers, entries, snapshots) =>
      && g.norm == Exact && g.hasEdges && g.rootKnown && g.devSplit
      && Recorded(g.edges, g.present, Exact,
                  PnpmLock.Copies(entries, PnpmLock.Keys) + PnpmLock.Copies(snapshots, PnpmLock.Keys))
      && PnpmLock.FlagsRead(g.devOnlyFlag, entries)
      && (g.devFlags <==> entries != [] && forall p :: p in entries ==> p.dev.Some?)
      && NoDup(g.root) && (forall x :: x in g.root <==> x != "" && PnpmLock.Imports(importers, PnpmLock.Keys, x))
      && (forall x :: x in g.rootDev <==> x != "" && PnpmLock.ImportsDev(importers, x) && x !in g.root)
    case Cargo(blocks) =>
      && g.norm == Crate && !g.devFlags && g.hasEdges
      && CargoLock.LoadedCargo(g.edges, g.present, g.root + g.rootDev, CargoLock.Flushed(blocks, false, []))
    case Poetry(locked) =>
      && g.norm == Python && g.hasEdges
      && Recorded(g.edges, g.present, Python, PoetryLock.Copies(locked))
      && PoetryLock.LastFlags(g.devOnlyFlag, locked)
      && (g.devFlags <==> exists p :: p in locked && p.dev.Some?)
    case Pipfile(runtime, develop) =>
      && g.norm == Python && g.devFlags && !g.hasEdges
      && (forall k :: k in g.present <==> PipfileLock.Spells(runtime, k) || PipfileLock.Spells(develop, k))
      && (forall k :: k in g.devOnlyFlag <==> k in g.present)
      && (forall k :: k in g.devOnlyFlag ==> (g.devOnlyFlag[k] <==> PipfileLock.Spells(develop - runtime, k)))
    case Composer(required, requiredDev) =>
      && g.norm == LowerCase && g.devFlags && g.hasEdges
      && Recorded(g.edges, g.present, LowerCase,
                  ComposerLock.Copies(required, false) + ComposerLock.Copies(requiredDev, true))
      && FlagsAllDev(LowerCase, g.devOnlyFlag,
                     ComposerLock.Copies(required, false) + ComposerLock.Copies(requiredDev, true))
    case Gradle(rows) =>
      && g.norm == LowerCase && !g.hasEdges
      && (forall k :: k in g.present <==> GradleLock.Listed(rows, k))
      && (g.devFlags <==> exists k :: GradleLock.InRuntime(rows, k))
      && (g.devFlags ==> g.devOnlyFlag.Keys == g.present)
      && (g.devFlags ==> forall k :: k in g.present ==> (g.devOnlyFlag[k] <==> !GradleLock.InRuntime(rows, k)))
  }

  /** How Cargo's direct dependencies are split: by a manifest that has any and no members, and otherwise not at all. */
  ghost predicate CargoSplit(blocks: seq<CargoLock.Block>, manifest: Option<Manifest>, g: DepGraph)
    reads g
  {
    && (g.rootKnown <==> CargoLock.Members(CargoLock.Flushed(blocks, false, [])) != [])
    && (g.devSplit <==>
        manifest.Some? && !manifest.value.workspace && manifest.value.runtime + manifest.value.dev != [])
    && (!g.devSplit ==> g.rootDev == [])
    && (g.devSplit ==>
        forall x :: x in g.root ==> !CargoLock.DevDeclared(Crate, manifest.value.runtime, manifest.value.dev, x))
    && (g.devSplit ==>
        forall x :: x in g.rootDev ==> CargoLock.DevDeclared(Crate, manifest.value.runtime, manifest.value.dev, x))
  }

  ghost predicate NoRoots(g: DepGraph)
    reads g
  {
    !g.rootKnown && !g.devSplit && g.root == [] && g.rootDev == []
  }

  /** The roots are known, and hold exactly these names; a runtime one is no development root. */
  ghost predicate RootsAre(g: DepGraph, runtime: iset<string>, dev: iset<string>)
    reads g
  {
    && g.rootKnown
    && (forall x :: x in g.root <==> x in runtime) && forall x :: x in g.rootDev <==> x in dev && x !in runtime
  }

  /** The roots by pyproject.toml, or none without one that declares any. */
  ghost predicate PoetrySplit(manifest: Option<Manifest>, g: DepGraph)
    reads g
  {
    if manifest.Some? && manifest.value.runtime + manifest.value.dev != [] then
      g.devSplit && RootsAre(g, iset x | Names(Python, manifest.value.runtime, x),
                             iset x | Names(Python, manifest.value.dev, x))
    else NoRoots(g)
  }

  /** What the project's own entries declare, or without any entries what package.json does. */
  ghost predicate NpmSplit(packages: seq<NpmLock.Package>, manifest: Option<Manifest>, g: DepGraph)
    reads g
  {
    if packages != [] then
      g.devSplit && RootsAre(g, iset x | x != "" && NpmLock.Declares(packages, x),
                             iset x | x != "" && NpmLock.DeclaresDev(packages, x))
    else if manifest.Some? then
      && (g.devSplit <==> !manifest.value.workspace)
      && RootsAre(g, iset x | x != "" && x in manifest.value.runtime, iset x | x in manifest.value.dev)
    else NoRoots(g)
  }

  /** The keys of the Pipfile's names. */
  ghost predicate PipfileSplit(manifest: Option<Manifest>, g: DepGraph)
    reads g
  {
    if manifest.Some? then
      g.devSplit && RootsAre(g, iset x | x != "" && Names(Python, manifest.value.runtime, x),
                             iset x | x != "" && Names(Python, manifest.value.dev, x))
    else NoRoots(g)
  }

  /** The keys of the packages that composer.json requires. */
  ghost predicate ComposerSplit(manifest: Option<Manifest>, g: DepGraph)
    reads g
  {
    if manifest.Some? then
      g.devSplit && RootsAre(g, iset x | x != "" && Names(LowerCase, ComposerLock.Deps(manifest.value.runtime), x),
                             iset x | x != "" && Names(LowerCase, ComposerLock.Deps(manifest.value.dev), x))
    else NoRoots(g)
  }

  /** What decides about the roots where the lockfile alone does not. */
  ghost predicate SplitBy(l: Lockfile, manifest: Option<Manifest>, g: DepGraph)
    reads g
  {
    match l
    case Npm(packages, _) => NpmSplit(packages, manifest, g)
    case Pnpm(_, _, _) => true
    case Cargo(blocks) => CargoSplit(blocks, manifest, g)
    case Poetry(_) => PoetrySplit(manifest, g)
    case Pipfile(_, _) => PipfileSplit(manifest, g)
    case Composer(_, _) => ComposerSplit(manifest, g)
    case Gradle(_) => NoRoots(g)
  }

  lemma NothingDeclared(root: seq<string>, rootDev: seq<string>)
    ensures (forall x :: x !in root) ==> root == []
    ensures (forall x :: x !in rootDev) ==> rootDev == []
  {
    assert root != [] ==> root[0] in root;
    assert rootDev != [] ==> rootDev[0] in rootDev;
  }

  method LoadNpm(l: Lockfile, manifest: Option<Manifest>, cap: nat) returns (g: DepGraph)
    requires l.Npm?
    ensures fresh(g) && g.Valid() && g.cap == cap && RootsApart(g) && LoadedAs(l, g) &&
            NpmSplit(l.packages, manifest, g)
  {
    hide Recorded, FlagsAllDev, NpmLock.Copies, WellFormed, NpmLock.IsProject;
    g := NpmLock.ParsePackageLock(l.packages, l.tree, cap);
    NothingDeclared(g.root, g.rootDev);
    if manifest.Some? && !g.rootKnown {
      NpmLock.RootFromManifest(g, manifest.value.runtime, manifest.value.dev, manifest.value.workspace);
    }
  }

  method LoadPnpm(l: Lockfile, cap: nat) returns (g: DepGraph)
    requires l.Pnpm?
    ensures fresh(g) && g.Valid() && g.cap == cap && RootsApart(g) && LoadedAs(l, g)
  {
    hide Recorded, PnpmLock.FlagsRead, PnpmLock.Copies, WellFormed, PnpmLock.Imports, PnpmLock.ImportsDev;
    g := PnpmLock.ParsePnpmLock(l.importers, l.entries, l.snapshots, cap);
  }

  method LoadCargo(l: Lockfile, manifest: Option<Manifest>, cap: nat) returns (g: DepGraph)
    requires l.Cargo?
    ensures fresh(g) && g.Valid() && g.cap == cap && RootsApart(g) && LoadedAs(l, g) &&
            CargoSplit(l.blocks, manifest, g)
  {
    hide CargoLock.Flushed, WellFormed, CargoLock.DevDeclared, CargoLock.Members, CargoLock.MemberOf, CargoLock.Lists;
    g := CargoLock.ParseCargoLock(l.blocks, cap);
    ghost var f, root := CargoLock.Flushed(l.blocks, false, []), g.root;
    if manifest.Some? {
      CargoLock.RootFromManifest(g, manifest.value.workspace, manifest.value.runtime, manifest.value.dev);
    }
    CargoRootsSplit(g.edges, g.present, root, g.root + g.rootDev, f);
  }

  lemma CargoRootsSplit(e: Edges, present: set<string>, root: seq<string>, root': seq<string>, f: seq<CargoLock.Block>)
    requires CargoLock.LoadedCargo(e, present, root, f) && forall x :: x in root' <==> x in root
    ensures CargoLock.LoadedCargo(e, present, root', f)
  {
  }

  method LoadPoetry(l: Lockfile, manifest: Option<Manifest>, cap: nat) returns (g: DepGraph)
    requires l.Poetry?
    ensures fresh(g) && g.Valid() && g.cap == cap && RootsApart(g) && LoadedAs(l, g) && PoetrySplit(manifest, g)
  {
    hide Recorded, PoetryLock.Copies, PoetryLock.LastFlags, PoetryLock.SomeSays, PoetryLock.Overwritten, WellFormed,
         Names;
    g := PoetryLock.ParsePoetryLock(l.locked, cap);
    if manifest.Some? { PoetryLock.RootFromManifest(g, manifest.value.runtime, manifest.value.dev); }
  }

  method LoadPipfile(l: Lockfile, manifest: Option<Manifest>, cap: nat) returns (g: DepGraph)
    requires l.Pipfile?
    ensures fresh(g) && g.Valid() && g.cap == cap && RootsApart(g) && LoadedAs(l, g) && PipfileSplit(manifest, g)
  {
    hide PipfileLock.Spells, PipfileLock.SpelledTwoWays, WellFormed, Names;
    g := PipfileLock.ParsePipfileLock(l.runtime, l.develop, cap);
    if manifest.Some? { PipfileLock.RootFromManifest(g, manifest.value.runtime, manifest.value.dev); }
  }

  method LoadComposer(l: Lockfile, manifest: Option<Manifest>, cap: nat) returns (g: DepGraph)
    requires l.Composer?
    ensures fresh(g) && g.Valid() && g.cap == cap && RootsApart(g) && LoadedAs(l, g) && ComposerSplit(manifest, g)
  {
    hide Recorded, FlagsAllDev, ComposerLock.Copies, WellFormed, Names;
    g := ComposerLock.ParseComposerLock(l.required, l.requiredDev, cap);
    if manifest.Some? { ComposerLock.RootFromManifest(g, manifest.value.runtime, manifest.value.dev); }
  }

  method LoadGradle(l: Lockfile, cap: nat) returns (g: DepGraph)
    requires l.Gradle? && forall r :: r in l.rows ==> r.confs != []
    ensures fresh(g) && g.Valid() && g.cap == cap && RootsApart(g) && LoadedAs(l, g) && NoRoots(g)
  {
    hide GradleLock.Listed, GradleLock.InRuntime, WellFormed;
    g := GradleLock.ParseGradleLockfile(l.rows, cap);
  }

  /** Every graph is well formed, has disjoint roots and holds what the lockfile records. */
  method LoadGraph(l: Lockfile, manifest: Option<Manifest>, cap: nat) returns (g: DepGraph)
    requires l.Gradle? ==> forall r :: r in l.rows ==> r.confs != []
    ensures fresh(g) && g.Valid() && g.cap == cap && RootsApart(g) && LoadedAs(l, g)
    ensures SplitBy(l, manifest, g)
  {
    hide RootsApart, LoadedAs, NpmSplit, CargoSplit, PoetrySplit, PipfileSplit, ComposerSplit, NoRoots, WellFormed;
    match l {
      case Npm(_, _) => g := LoadNpm(l, manifest, cap);
      case Pnpm(_, _, _) => g := LoadPnpm(l, cap);
      case Cargo(_) => g := LoadCargo(l, manifest, cap);
      case Poetry(_) => g := LoadPoetry(l, manifest, cap);
      case Pipfile(_, _) => g := LoadPipfile(l, manifest, cap);
      case Composer(_, _) => g := LoadComposer(l, manifest, cap);
      case Gradle(_) => g := LoadGradle(l, cap);
    }
  }
}
