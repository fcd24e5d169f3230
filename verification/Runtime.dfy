/** What is part of the product at run time: told from the lockfile, the manifest and the build, without a loader. */
module Runtimes {
  import opened Options
  import opened Text
  import opened Paths
  import opened DepGraphs
  import opened Quotient
  import opened Loading
  import NpmLock
  import PnpmLock
  import CargoLock
  import PoetryLock
  import PipfileLock
  import ComposerLock
  import GradleLock

  /** A lockfile, the manifest beside it, and the configurations that the build has for tests and tools alone. */
  datatype Project = Project(lockfile: Lockfile, manifest: Option<Manifest>, tests: set<string>)
  {
    function KeyOf(name: string): string { Key(NormOf(lockfile), name) }
  }

  function NormOf(l: Lockfile): Norm {
    match l
    case Npm(_, _) => Exact
    case Pnpm(_, _, _) => Exact
    case Cargo(_) => Crate
    case Poetry(_) => Python
    case Pipfile(_, _) => Python
    case Composer(_, _) => LowerCase
    case Gradle(_) => LowerCase
  }

  /** Some copy of the package, whatever name it is installed under, is not a development one. */
  ghost predicate RuntimeCopy(norm: Norm, copies: seq<Copy>, k: string) {
    exists c :: c in copies && Key(norm, c.package) == k && !c.dev
  }

  ghost predicate RuntimeEntry(entries: seq<PnpmLock.Package>, k: string) {
    exists p :: p in entries && p.name == k && p.dev == Some(false)
  }

  predicate AllFlagged(entries: seq<PnpmLock.Package>) {
    entries != [] && forall p :: p in entries ==> p.dev.Some?
  }

  predicate SomeFlagged(locked: seq<PoetryLock.Package>) {
    exists p :: p in locked && p.dev.Some?
  }

  /** What the manifest declares for run time and for development, if it is one that the split goes by. */
  function RuntimeNames(m: Option<Manifest>): seq<string> {
    if m.Some? && !m.value.workspace then m.value.runtime else []
  }

  function DevNames(m: Option<Manifest>): seq<string> {
    if m.Some? && !m.value.workspace then m.value.dev else []
  }

  /** Some dependency of the workspace leads to k that the manifest does not declare for development alone. */
  ghost predicate CrateNeeded(f: seq<CargoLock.Block>, runtime: seq<string>, dev: seq<string>, k: string) {
    exists r ::
      && CargoLock.IsRoot(f, r) && !CargoLock.DevDeclared(Crate, runtime, dev, Key(Crate, r))
      && Reaches(CargoLock.Dependencies(f), Key(Crate, r), k)
  }

  ghost predicate IsRuntime(p: Project, name: string) {
    var k := p.KeyOf(name);
    match p.lockfile
    case Npm(packages, tree) => RuntimeCopy(Exact, NpmLock.Copies(packages, tree), k)
    case Pnpm(importers, entries, snapshots) =>
      if AllFlagged(entries) then RuntimeEntry(entries, k)
      else PnpmLock.Needed(importers, entries, snapshots, PnpmLock.Resolved, k)
    case Cargo(blocks) =>
      CrateNeeded(CargoLock.Flushed(blocks, false, []), RuntimeNames(p.manifest), DevNames(p.manifest), k)
    case Poetry(locked) =>
      if SomeFlagged(locked) then PoetryLock.SomeSays(locked, k, false)
      else p.manifest.Some? &&
           ReachesAny(Graph(Python, PoetryLock.Copies(locked)), MapKeys(Python, p.manifest.value.runtime), k)
    case Pipfile(runtime, _) => PipfileLock.Spells(runtime, k)
    case Composer(required, _) => RuntimeCopy(LowerCase, ComposerLock.Copies(required, false), k)
    case Gradle(rows) => GradleLock.InProduct(rows, p.tests, k)
  }

  ghost predicate SomeLink(e: Edges, k: string) {
    exists a :: Linked(e, a, k)
  }

  /** Some copy of another package names a dependency under which a copy of k is installed. */
  ghost predicate CopyCalls(copies: seq<Copy>, k: string) {
    exists c, t :: c in copies && t in copies && Calls(c, t, k)
  }

  ghost predicate Calls(c: Copy, t: Copy, k: string) { c.package != k && t.package == k && t.name in c.deps }

  /** Some other package has a dependency that resolves to this one. */
  ghost predicate HasCaller(p: Project, name: string) {
    var k := p.KeyOf(name);
    match p.lockfile
    case Npm(packages, tree) => k != "" && CopyCalls(NpmLock.Copies(packages, tree), k)
    case Pnpm(_, entries, snapshots) => SomeLink(PnpmLock.Dependencies(entries, snapshots, PnpmLock.Resolved), k)
    case Cargo(blocks) => SomeLink(CargoLock.Dependencies(CargoLock.Flushed(blocks, false, [])), k)
    case Poetry(locked) => SomeLink(Graph(Python, PoetryLock.Copies(locked)), k)
    case Composer(required, requiredDev) =>
      SomeLink(Graph(LowerCase, ComposerLock.Copies(required, false) + ComposerLock.Copies(requiredDev, true)), k)
    case Pipfile(_, _) => false
    case Gradle(_) => false
  }

  predicate RecordsDependencies(l: Lockfile) { !l.Pipfile? && !l.Gradle? }

  /** The lockfile lists the package, under the name that its loader goes by. */
  ghost predicate Holds(l: Lockfile, name: string) {
    var k := Key(NormOf(l), name);
    match l
    case Npm(packages, tree) => HasCopy(Exact, NpmLock.Copies(packages, tree), k)
    case Pnpm(_, entries, snapshots) =>
      HasCopy(Exact, PnpmLock.Copies(entries, PnpmLock.Keys) + PnpmLock.Copies(snapshots, PnpmLock.Keys), k)
    case Cargo(blocks) =>
      var f := CargoLock.Flushed(blocks, false, []);
      k !in CargoLock.Members(f) && HasCopy(Crate, CargoLock.Copies(f), k)
    case Poetry(locked) => HasCopy(Python, PoetryLock.Copies(locked), k)
    case Pipfile(runtime, develop) => PipfileLock.Spells(runtime, k) || PipfileLock.Spells(develop, k)
    case Composer(required, requiredDev) =>
      HasCopy(LowerCase, ComposerLock.Copies(required, false) + ComposerLock.Copies(requiredDev, true), k)
    case Gradle(rows) => GradleLock.Listed(rows, k)
  }

  /** The graph as loaded from the project's lockfile and manifest. */
  ghost predicate LoadedFrom(p: Project, g: DepGraph)
    reads g
  {
    g.Valid() && LoadedAs(p.lockfile, g) && SplitBy(p.lockfile, p.manifest, g)
  }

  lemma LoadedHolds(p: Project, g: DepGraph, name: string)
    requires LoadedFrom(p, g)
    ensures g.norm == NormOf(p.lockfile) && (g.Has(name) <==> Holds(p.lockfile, name))
  {
    hide Key, WellFormed, HasCopy, SomeCopyDepends, Linked, CargoLock.Flushed, CargoLock.Members, CargoLock.MemberOf,
         CargoLock.IsRoot, CargoLock.DevDeclared, CargoSplit, PoetrySplit, FlagsAllDev;
    hide PoetryLock.LastFlags, PipfileLock.Spells, GradleLock.Listed, GradleLock.InRuntime, PnpmLock.FlagsRead,
         PnpmLock.Imports, PnpmLock.ImportsDev;
  }
}
