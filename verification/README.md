# VEXViper in Dafny

VEXViper turns vulnerability findings of an SBOM into OpenVEX statements. What matters most is which findings it closes
as `not_affected` or `fixed`, and at what provider cost. This project models that logic and proves what it keeps:

* the lockfile dependency graph: loaders as quotients of the installed copies, shortest paths and closures, and the
  evidence rules that rest on them (`Text`, `Paths`, `BreadthFirst`, `DepGraph`, `NpmLock`, `PnpmLock`, `CargoLock`,
  `ComposerLock`, `GradleLock`, `PythonLocks`, `LoadGraph`, `Closure`, `Ecosystem`); what belongs to the product at run
  time, told without a loader, exactly when the graph says otherwise, and which findings are closed by that (`Runtime`,
  `Mistakes`, `Verdicts`, `ClosedPackages`);
* Go call-graph results and how the modules of a product are merged (`Govulncheck`);
* loading and de-duplicating findings, choosing which to ask about, cache, budget, deferral and the bookkeeping of a run,
  and reading an upload back (`Source`, `Duplicates`, `Pipeline`, `AssessCache`, `Budget`, `AssessLoop`,
  `Fallback`, `Run`, `Verify`);
* verdicts, their field rules and guardrails, and the document (`Assessment`, `Evidence`, `Heuristic`, `VexGen`);
* the watcher across passes, and its worker pool as a state machine over every interleaving (`Watch`, `WatchPool`,
  `PoolOwnership`, `PoolSpend`);
* publishing to a git repository in which any command may fail and others push meanwhile (`GitOps`).

Code that changes state in the original is imperative here: the graph, the budget, the cache store, the watcher's state,
the publisher and its remote are classes, and loops are loops. Each such method is tied to a function of its inputs or old
state; the properties are then proved of those functions. The worker pool is a transition system (`WatchPool.Enabled`,
`WatchPool.Apply`), because its point is the interleaving of feeder, workers, lock and meter. The search limit of 20000
nodes is a parameter `cap`. Name normalisers are the four of `Text.Norm`; Python names follow PEP 503, section
"Normalized Names". The field rules of statements are those of the OpenVEX Specification v0.2.0, section "Status Labels".

`dafny verify dfyconfig.toml` checks everything.

## Where the code does less than its comments say

The model follows the code. Each point is a lemma with the exact condition, and one with an input that meets it.

* The graph can call a runtime package dev-only and have its finding closed. `Mistakes.RuntimeCalledDevExactly` and
  `Verdicts.RuntimeClosedExactly` say exactly when; the module `ClosedPackages` has a product for each case:
  * npm and pnpm: the `name` field of a copy installed under another name is decoded and not read
    (internal/evidence/lockgraph.go:252, 275-285), nor is what a dependency resolves to (425-449): `Mistakes.NpmAnswer`,
    `Mistakes.PnpmSearchAnswer`, `ClosedPackages.CloseAliased`, `ClosedPackages.CloseRenamed`. For the same reason a caller
    can go unseen: `Mistakes.CallersUnseenExactly`, `ClosedPackages.CloseCalled`.
  * Cargo roots keep the lockfile's spelling (internal/evidence/lockgraph.go:496, 536) while edges are normalised:
    `Closure.HiddenRuntimePackage`, `ClosedPackages.CargoCloses`.
  * A repeated name in poetry.lock overwrites the dev flag (internal/evidence/lockgraph.go:619-622), and Pipfile.lock's
    sections are compared as written (818): `ClosedPackages.CloseRepeated`, `ClosedPackages.CloseRespelled`.
  * Any Gradle configuration with a test word in its name counts as a test configuration, so one called latest does
    (internal/evidence/lockgraph.go:1131-1134): `GradleLock.FlaggedThoughInProduct`, `ClosedPackages.CloseLatest`.
  * Beyond its cap the closure search misses runtime packages: `Closure.CapHidesRuntimeExactly`,
    `ClosedPackages.CloseBeyondCap`.
  * Of several lockfiles the first that lists the package decides alone (internal/evidence/ecosystem.go:366-380):
    `Verdicts.RuntimeSomewhereClosedExactly`, `ClosedPackages.ScanTwoLockfiles`.
* The comment promises the newest status of duplicate rows (internal/source/source.go:123-126); the code keeps the first:
  `Duplicates.KeptVerdictIsNewest`, `Duplicates.OlderVerdictIsKept`. Reading an upload back takes the last:
  `Verification.AppliedIsLoadedExactly`, `Verification.AppliedYetLoadedOtherwise`.
* A dropped row's ids are not registered (internal/source/source.go:171-188), so merging is not transitive:
  `Duplicates.SecondFindingExactly`, `Duplicates.MergingIsNotTransitive`; `Duplicates.TwinsEndTogether` is the other half.
* Keys join id and package url with a NUL and are not escaped (internal/source/source.go:165):
  `Duplicates.DifferentPackagesShareKey`, `Duplicates.NulMergesPackages`.
* Only the first direct component of the raw SBOM counts (internal/source/source.go:117-120):
  `Sources.DirectComponentsReportedExactly`, `Sources.SecondDirectComponentLost`.
* `Reassessed` also counts expired findings that `Only` then drops (internal/pipeline/pipeline.go:348-361 against 254-256):
  `Pipelines.ReassessedIsExactWhen`, `Pipelines.ReassessedOvercounts`.
* Any strong item satisfies the `not_affected` guardrail, a proven call path included (internal/evidence/evidence.go:576,
  internal/vexgen/vexgen.go:185-188), which the table at docs/INTEGRATION.md:243-249 does not list:
  `VexGen.FinalVerdict`, `VexGen.ReachableExcusesNotAffected`.
* Verdicts of the rules-only fallback are cached under the pair's one name and served after the outage:
  `Fallback.TransparentThroughOutages`, `Fallback.OutageVerdictIsServed`. The comment at internal/llm/mock.go:51-53 says the
  fallback lowers the confidence; it keeps it (`Fallback.FallbackAnswers`).
* A failed provider call reports no usage (internal/llm/openai.go:101-106), so the limits bound what is reported, not what is
  begun: `PoolSpend.SilentCallsAreUnbounded`; `PoolSpend.CallsAreBounded` is the other half.
* Strong unreachability needs one module analysed at symbol level, not the one that uses the package
  (internal/evidence/evidence.go:416-418, 578): `Govulncheck.StrongRestsOnOthersExactly`, `Govulncheck.StrongRestsOnOther`.
  Modules that disagree on the Go id are merged by order: `Govulncheck.OrderShowsExactly`, `Govulncheck.DisagreementShowsOrder`.
* Review mode pushes to base when prefix and product slug spell its name (internal/gitops/gitops.go:96-133):
  `GitOps.ReviewProtectsBase`, `GitOps.PrefixCanSpellBase`.
* The comment on the rules lists nine and asks the eighth for a direct dependency (internal/llm/heuristic.go:17-28); the
  cascade has thirteen and does not ask: `Heuristics.CommentDiffersExactly`, `Heuristics.CommentMissesImported`.
* The lists behind the manifest counts stop at ten entries (internal/evidence/evidence.go:669-674):
  `Ecosystem.LooksDevOnlyIsWrongExactly`, `Ecosystem.TenManifestsHideRuntime`.

## Model

| member | source | states |
|---|---|---|
| `DepGraphs.AppendUniqueAll` | internal/evidence/lockgraph.go:1138-1152 | keeps the list as a prefix, adds every non-empty new element, keeps it free of duplicates |
| `DepGraphs.Minus` | internal/evidence/lockgraph.go:1154-1162 | removes exactly the elements of the second list, keeps order and absence of duplicates |
| `DepGraphs.AddedEdges` | internal/evidence/lockgraph.go:68-78 | adding a package adds exactly the edges to the keys of its named dependencies, never an empty name or a self edge, and keeps every edge list duplicate-free and normalised |
| `DepGraphs.DepGraph.Add` | internal/evidence/lockgraph.go:68-78 | the in-place form: the new edge relation is the old one plus exactly those edges, and one package is present that was not |
| `DepGraphs.DepGraph.Dependents` | internal/evidence/lockgraph.go:88-101 | exactly the packages with an edge to the name, sorted, each once; nothing without edges |
| `DepGraphs.DepGraph.ShortestPath` | internal/evidence/lockgraph.go:122-147 | a result is a path from start to goal of minimum length among all paths; no result means no path whenever at most cap nodes are reachable; terminates |
| `DepGraphs.DepGraph.Expand` | internal/evidence/lockgraph.go:129-145 | one round of the search keeps the parent tree and the breadth-first frontier, and a goal it discovers has the least depth any path has |
| `DepGraphs.DepGraph.WalkBack` | internal/evidence/lockgraph.go:138-140 | the walk over the parent map ends and gives a path from start to goal as long as the goal's depth |
| `BreadthFirst.DiscoveryIsMinimal` | internal/evidence/lockgraph.go:122-147 | no path to the goal is shorter than the depth at which the search discovers it |
| `BreadthFirst.UnfoundIsUnreachable` | internal/evidence/lockgraph.go:122-147 | a search that stops without the goal proves it unreachable if it could visit all reachable nodes |
| `DepGraphs.DepGraph.PathsTo` | internal/evidence/lockgraph.go:104-120 | at most max paths, each a shortest one from a direct dependency; when fewer are returned, every direct dependency that reaches the package has one |
| `BreadthFirst.DistanceIsReach` | internal/evidence/lockgraph.go:150-167 | a package has a distance, the number of distinct nodes that the uncapped search visits before it, exactly when some start reaches it |
| `BreadthFirst.NearestFirst` | internal/evidence/lockgraph.go:150-167 | the closure search is breadth first: a package is met after all that are fewer steps away and before any that is more |
| `DepGraphs.DepGraph.ReachableFrom` | internal/evidence/lockgraph.go:150-167 | true exactly for packages whose distance is below the cap; so only for reachable ones, and for all of them when at most cap nodes are reachable |
| `DepGraphs.DepGraph.DevOnly` | internal/evidence/lockgraph.go:171-186 | known exactly for a present package with flags or with a usable split; with flags it is the flag; otherwise it holds exactly when the development roots meet the package within the cap and the runtime roots do not |
| `Closure.CapHidesRuntimeExactly` | internal/evidence/lockgraph.go:155-186 | the cap makes a runtime package dev-only exactly when at least cap nodes precede it in the runtime search and fewer in the development search |
| `Closure.CapIsTight` | internal/evidence/lockgraph.go:155-186 | for every cap a well-formed graph, one node too long, in which that happens |
| `Text.KeyIdempotent` | internal/evidence/lockgraph.go:66-66 | normalising a normalised name changes nothing, for exact names, lower case, crates and PEP 503 names; so the search inside devOnly looks up the same package |
| `Text.LettersOfKey` | internal/evidence/lockgraph.go:238-240 | letter by letter: lower case, for crates with an underscore for each dash |
| `Text.RunsOfPythonName` | internal/evidence/lockgraph.go:234-236 | run by run: words in lower case, each run of dashes, underscores and dots one dash |
| `Closure.RuntimeStaysRuntime` | internal/evidence/lockgraph.go:171-186 | more runtime roots or more edges never turn a runtime package into a dev-only one |
| `Quotient.RecordOne` | internal/evidence/lockgraph.go:68-78 | each copy added keeps the graph equal to the quotient of the installed copies by name |
| `Quotient.ChainIsPath` | internal/evidence/lockgraph.go:68-78 | any chain of installed copies, each depending on the next, is a path between their names: merging copies loses no dependent |
| `Quotient.CountersAgree` | internal/evidence/lockgraph.go:267-307 | the two counters of a name are equal exactly when every copy of it is dev |
| `NpmLock.ParsePackageLock` | internal/evidence/lockgraph.go:248-310 | present packages and edges are the quotient of all copies of the flat map or the recursive tree by the name they are installed under; roots are what the project and its members declare, the two lists disjoint; a name is flagged exactly when every copy installed under it is dev |
| `NpmLock.InstalledNameIs` | internal/evidence/lockgraph.go:275-276 | the name of a copy is what follows the last node_modules/ of its key, for every key; a key without one is no copy |
| `NpmLock.NestedName` | internal/evidence/lockgraph.go:275-276 | so a copy nested at any depth has its own name |
| `NpmLock.FlatCopiesExactly` | internal/evidence/lockgraph.go:271-284 | the copies are exactly the entries with such a name that are no links, each with its own dev flag and the keys of its three runtime maps |
| `NpmLock.DeclaresExactly` | internal/evidence/lockgraph.go:285-289 | the roots are exactly what entries without such a name declare, runtime and development apart |
| `NpmLock.TreeCopiesExactly` | internal/evidence/lockgraph.go:292-303 | in the old layout the copies are exactly the entries at any depth |
| `NpmLock.Walk` | internal/evidence/lockgraph.go:290-303 | the recursive walk over the old tree records every nested copy and keeps the counters right |
| `NpmLock.FlagDevOnly` | internal/evidence/lockgraph.go:304-306 | a flag for each recorded name, true exactly when every copy of it is dev |
| `NpmLock.InstalledChainIsPath` | internal/evidence/lockgraph.go:271-290 | a dependency chain between installed copies of a package-lock tree is a path between their names |
| `NpmLock.RootFromManifest` | internal/evidence/lockgraph.go:312-331 | roots are the manifest's names, disjoint; with workspace members the split is not used |
| `PnpmLock.ParsePnpmLock` | internal/evidence/lockgraph.go:404-452 | edges and roots go by the keys of the dependency maps, edges as the quotient of packages and snapshots; a development root is never a runtime root; flags hold where all flagged copies are dev, and are used only when every package has one |
| `PnpmLock.EntriesExactly` | internal/evidence/lockgraph.go:436-449 | the loaded graph entry by entry, read by the keys of the dependency maps |
| `PnpmLock.NeededExactly` | internal/evidence/lockgraph.go:404-452 | runtime imports lead to a package, by what dependencies resolve to, exactly when they do without a renamed one or a renamed dependency of something they so reach leads on to it |
| `PnpmLock.NeededUnrenamed` | internal/evidence/lockgraph.go:425-449 | what is needed without renaming is also found by the keys that the loader reads |
| `PnpmLock.ReadFlags` | internal/evidence/lockgraph.go:436-450 | the running conjunction over repeated names is the conjunction over all copies |
| `CargoLock.ParseCargoLock` | internal/evidence/lockgraph.go:478-543 | the graph is the quotient of the blocks without the workspace members; roots are the names members list, as written, other than members |
| `CargoLock.ReadBlocks` | internal/evidence/lockgraph.go:489-532 | blocks without a name lend their lines to the next one; the last block of a member name decides its dependencies |
| `CargoLock.FlushedExactly` | internal/evidence/lockgraph.go:489-532 | blocks without a name lend source line and dependencies to the next named one, and are lost without one |
| `CargoLock.MembersExactly` | internal/evidence/lockgraph.go:493-497 | members are exactly the blocks without a source line; of several of one key the last one's dependencies count |
| `CargoLock.RootsExactly` | internal/evidence/lockgraph.go:535-541 | the roots are exactly what those last blocks list, other than members by that spelling |
| `CargoLock.BlocksExactly` | internal/evidence/lockgraph.go:489-542 | the loaded graph block by block |
| `CargoLock.DropMembers` | internal/evidence/lockgraph.go:535-542 | members lose presence and edges and leave the roots; everything else stays |
| `CargoLock.RootFromManifest` | internal/evidence/lockgraph.go:549-591 | a root, compared as the lockfile writes it, goes to the development side exactly when it is the key of a development name and of no runtime name; workspaces and empty manifests change nothing |
| `Closure.CargoMembersLeave` | internal/evidence/lockgraph.go:535-541 | no workspace member is present, has edges or is a root; none is a root under another spelling either exactly when no member lists another one differently spelled |
| `Closure.RespelledRootsAreLost` | internal/evidence/lockgraph.go:496-536 | a root that is not its own key reaches nothing in the graph, so all answers are those of the other roots |
| `Closure.HiddenRuntimePackage` | internal/evidence/lockgraph.go:155-186 | a package that some root not declared for development alone, going by its key, depends on is called dev-only exactly when the cap cuts the runtime search and not the development one, or when a development root leads to it and such roots do only under names that are not their keys |
| `Closure.OwnRootsAnswerRight` | internal/evidence/lockgraph.go:171-186 | where every root is its own key the dev-only answer is the one for the keys |
| `Closure.CargoHidesRuntimePackage` | internal/evidence/lockgraph.go:478-591 | a concrete Cargo workspace whose runtime dependency is called dev-only because of a dash in another crate's name |
| `ComposerLock.ParseComposerLock` | internal/evidence/lockgraph.go:958-999 | both lists are recorded; a package is flagged exactly when every copy of it is in the development list: runtime wins |
| `ComposerLock.PackagesExactly` | internal/evidence/lockgraph.go:958-999 | the loaded graph package by package; a name is flagged exactly when no runtime package has it |
| `ComposerLock.DependencyExactly` | internal/evidence/lockgraph.go:1001-1003 | a required name is a package exactly when it has a vendor and does not start with composer- |
| `ComposerLock.RootFromManifest` | internal/evidence/lockgraph.go:1005-1027 | runtime roots are the keys of required packages, development roots the others, disjoint, platform requirements dropped |
| `GradleLock.ParseGradleLockfile` | internal/evidence/lockgraph.go:1087-1128 | a module is flagged exactly when all its configurations are test ones, and flags are used only if some module is not dev-only |
| `GradleLock.FlagTestOnly` | internal/evidence/lockgraph.go:1118-1127 | the flags as a function of the collected configurations |
| `GradleLock.IsTestExactly` | internal/evidence/lockgraph.go:1131-1134 | a configuration counts as one for tests exactly when, in lower case, the word test is anywhere in it or it starts like one of eight tools |
| `GradleLock.FlaggedThoughInProduct` | internal/evidence/lockgraph.go:1106-1134 | for any set of real test configurations, a module that some other configuration resolves is flagged dev-only exactly when all its configurations match the test words, one of them is no real test configuration, and some row has a configuration that does not match |
| `GradleLock.LatestIsTakenForTest` | internal/evidence/lockgraph.go:1131-1134 | two rows that meet it, for every set of test configurations without the one called latest |
| `PoetryLock.ParsePoetryLock` | internal/evidence/lockgraph.go:605-649 | edges are the quotient of the packages; a flag is what the last speaking block of the name says, and it calls a runtime package dev-only exactly when a later block overwrote that |
| `PoetryLock.BlocksExactly` | internal/evidence/lockgraph.go:605-649 | the loaded graph block by block |
| `PoetryLock.RootFromManifest` | internal/evidence/lockgraph.go:723-728 | roots are the keys of the manifest's names, disjoint; a manifest without any changes nothing |
| `PoetryLock.RepetitionHidesRuntime` | internal/evidence/lockgraph.go:619-622 | a concrete file whose runtime package is flagged dev-only |
| `PipfileLock.ParsePipfileLock` | internal/evidence/lockgraph.go:802-823 | both sections are present; a key is flagged exactly when the development section spells it as the runtime section nowhere does, and a runtime package is flagged exactly when the sections spell it differently |
| `PipfileLock.RootFromManifest` | internal/evidence/lockgraph.go:825-850 | roots are the keys of the two sections of the Pipfile, disjoint |
| `PipfileLock.SpellingHidesRuntime` | internal/evidence/lockgraph.go:816-821 | a concrete file whose runtime package is flagged dev-only |
| `Loading.LoadGraph` | internal/evidence/lockgraph.go:190-230 | parser and manifest together: every graph is well formed, has disjoint roots, and holds what the lockfile records and exactly the roots that lockfile or manifest decide, format by format |
| `PoetryLock.RuntimeIsHiddenByRepetition` | internal/evidence/lockgraph.go:615-625 | a package with a runtime copy is called dev-only exactly when a later block of its name overwrites the flag and none after it restores it |
| `Ecosystem.Scan.HasSoleConsumer` | internal/evidence/ecosystem.go:416-420 | true exactly when the graph has edges, holds the package and no other package has an edge to it |
| `Ecosystem.DirectExactly` | internal/evidence/ecosystem.go:409-414 | direct is what the server says, or else a declaration in some manifest or a root of the lockfile |
| `Ecosystem.SoleConsumerExactly` | internal/evidence/ecosystem.go:416-420 | no other package has an edge to the package exactly when no other node reaches it over any number of steps |
| `Ecosystem.SoleChainIsDirect` | internal/evidence/lockgraph.go:104-120 | and every chain from a root to it is that root alone, which is the package |
| `Ecosystem.SoleNonRootIsOrphan` | internal/evidence/ecosystem.go:409-420 | a package without dependents that is no root is out of reach of all roots |
| `Ecosystem.AnswerWithinCap` | internal/evidence/lockgraph.go:171-186 | without flags and within the cap the answer dev-only is reachability from the development and not from the runtime roots |
| `Ecosystem.CollectManifests` | internal/evidence/ecosystem.go:321-331 | the lists behind the counts grow to ten entries and no further |
| `Ecosystem.LooksDevOnlyIsWrongExactly` | internal/evidence/ecosystem.go:430-430 | the test for declared only for development is wrong exactly when at least ten manifests declare it for development and another one does not |
| `Ecosystem.TenManifestsHideRuntime` | internal/evidence/evidence.go:669-674 | ten development manifests and one runtime manifest for which it is |
| `Ecosystem.Scan.DepthItems` | internal/evidence/ecosystem.go:425-457 | each depth kind, and its strength, exactly on the counts and the graph's answer |
| `Ecosystem.Scan.Items` | internal/evidence/ecosystem.go:422-512 | which kinds a scan reports and which of them are strong, each as an if-and-only-if on the graph and the scan |
| `Ecosystem.DropKinds` | internal/evidence/evidence.go:172-186 | keeps order and exactly the items of other kinds |
| `Ecosystem.DroppedKinds` | internal/evidence/evidence.go:172-186 | what dropping does to the kinds and the strong kinds |
| `Ecosystem.RustItems` | internal/evidence/rust.go:84-103 | unreferenced vulnerable functions are strong evidence exactly for a direct, not renamed crate with product code as sole consumer |
| `Ecosystem.Collect` | internal/evidence/evidence.go:110-170 | the report of a finding outside Go: fixed exactly on the version comparison, depth by the server's word when known, strong kinds exactly as good as the graph behind them |
| `Ecosystem.ClosedExactly` | internal/llm/heuristic.go:60-87 | exactly when, and by which rule, the rules close such a finding; where it is not the graph's answer that closes it, nothing but product code reaches the package and product code does not use it |
| `Runtimes.LoadedHolds` | internal/evidence/lockgraph.go:80-84 | the loaded graph has a package exactly when the lockfile lists it under the name that its loader goes by |
| `Mistakes.RuntimeCalledDevExactly` | internal/evidence/lockgraph.go:155-186 | with runtime told from lockfile, manifest and build alone, the graph calls a runtime package dev-only exactly through one of the mistakes: renamed npm and pnpm dependencies, respelled Cargo roots, overwritten poetry flags, Pipfile spellings, Gradle names with test words, and the cap |
| `Mistakes.NpmAnswer` | internal/evidence/lockgraph.go:248-310 | for package-lock: exactly when all copies installed under the name are dev and a runtime copy of the package is installed under another name |
| `Mistakes.PnpmSearchAnswer` | internal/evidence/lockgraph.go:404-452 | for pnpm without flags: exactly when the development imports lead to it by keys, the runtime imports do not within the cap, and a renamed dependency is on the way or the cap is the cause |
| `Mistakes.CargoAnswer` | internal/evidence/lockgraph.go:478-591 | for Cargo: exactly when a root the manifest does not declare for development alone leads to it only by a name that is not its key, or beyond the cap |
| `Mistakes.PoetryAnswer` | internal/evidence/lockgraph.go:605-649 | for poetry: exactly when a later block overwrites the runtime flag, or, without flags, the cap cuts the runtime search |
| `Mistakes.GradleAnswer` | internal/evidence/lockgraph.go:1087-1134 | for Gradle: exactly when its configurations are taken for test configurations, whatever the real ones are |
| `Mistakes.PlainProjectIsSafe` | internal/evidence/lockgraph.go:171-186 | no runtime package is called dev-only where nothing is renamed, respelled, flagged both ways or named like a test, and the cap covers the searches |
| `Mistakes.CallersUnseenExactly` | internal/evidence/ecosystem.go:416-420 | the graph shows no dependent of a package that some other package depends on exactly when all of these know it under other names, which only npm and pnpm allow |
| `Verdicts.RuntimeClosedExactly` | internal/llm/heuristic.go:60-66 | the rules close a runtime package as dev-only exactly through one of those mistakes, unless its version is fixed |
| `Verdicts.CalledPackageClosedExactly` | internal/evidence/ecosystem.go:500-520 | where product code does not call it, a package that another one calls is closed exactly when the graph does not call it dev-only and all its callers know it under other names |
| `Verdicts.ClosedMeansOutOfReach` | internal/llm/heuristic.go:53-87 | a finding outside Go is closed as not affected only if the package is no runtime package, or product code does not call it and no other package does, or a loader was mistaken about the one or the other |
| `Verdicts.PnpmChainIsRuntime` | internal/evidence/lockgraph.go:404-452 | without flags, what a runtime import leads to through installed copies, renamed or not, is part of the runtime |
| `Verdicts.ChooseGraph` | internal/evidence/ecosystem.go:366-380 | the loop over the lockfiles keeps the graph of the first one that lists the package, or of the first that can be read if none does |
| `Verdicts.RuntimeSomewhereClosedExactly` | internal/evidence/ecosystem.go:366-380 | a package that is runtime in some lockfile is closed as dev-only exactly when the first lockfile that lists it is mistaken, or calls it dev-only rightly while another one has it at run time |
| `Verdicts.ScanLockfiles` | internal/evidence/ecosystem.go:366-380 | choice, loader, scan and report together give a report of the kind the verdict lemmas speak of |
| `Verdicts.MistakeCloses` | internal/llm/heuristic.go:60-66 | one mistake is enough: the finding of the runtime package is closed as not affected |
| `ClosedPackages.CargoCloses` | internal/evidence/lockgraph.go:478-591 | a workspace in which a finding in a runtime package is closed, and the same with no runtime dependency, for which the same answer is right and no mistake |
| `ClosedPackages.CloseInWorkspace` | internal/evidence/lockgraph.go:478-591 | running all of it on that workspace closes the package, for every cap from four up |
| `ClosedPackages.CloseAliased` | internal/evidence/lockgraph.go:248-310 | a package-lock whose runtime package is installed under another name, run up to the closed finding |
| `ClosedPackages.CloseRenamed` | internal/evidence/lockgraph.go:404-452 | the same for a renamed runtime import of pnpm |
| `ClosedPackages.CloseCalled` | internal/evidence/ecosystem.go:500-520 | a package that another one uses under another name, run up to the finding closed for want of callers |
| `ClosedPackages.CloseLatest` | internal/evidence/lockgraph.go:1087-1134 | a Gradle module locked in the configuration latest alone, run up to the closed finding |
| `ClosedPackages.ScanTwoLockfiles` | internal/evidence/ecosystem.go:358-380 | two lockfiles, one with the package for development and one at run time: the order alone decides whether it is closed |
| `ClosedPackages.CloseBeyondCap` | internal/evidence/lockgraph.go:155-186 | for every cap a pnpm lockfile of one package more whose last package is runtime, run up to the closed finding |
| `ClosedPackages.CloseRepeated` | internal/evidence/lockgraph.go:619-622 | a repeated name in poetry.lock closes a runtime package |
| `ClosedPackages.CloseRespelled` | internal/evidence/lockgraph.go:816-821 | so do two spellings in Pipfile.lock |
| `Govulncheck.Parse` | internal/evidence/evidence.go:491-537 | reads the stream message by message into findings, modules, aliases and scan level |
| `Govulncheck.ParsedMeaning` | internal/evidence/evidence.go:522-535 | traces are kept per id in stream order; a name maps to the id of the last advisory that goes by it, and only then |
| `Govulncheck.ParsedLevel` | internal/evidence/evidence.go:521-523 | the scan level is that of the last configuration, and empty without one |
| `Govulncheck.ParsedModules` | internal/evidence/evidence.go:524-527 | a module has the version of the last entry that names it |
| `Govulncheck.Merge` | internal/evidence/evidence.go:406-420 | appends the traces of each id, lets the second result's modules and aliases win, keeps or replaces the level |
| `Govulncheck.ParseIsHomomorphic` | internal/evidence/evidence.go:406-537 | reading two streams one after the other gives the same findings, modules and aliases as merging their results |
| `Govulncheck.LevelIsHomomorphic` | internal/evidence/evidence.go:416-418 | the scan level agrees with the concatenated stream exactly when the second stream names none, the first has none, the second is symbol level, or both are equal |
| `Govulncheck.EvidenceFor` | internal/evidence/evidence.go:541-582 | the first known id decides; the item is a function of the traces under its Go id and of the level |
| `Govulncheck.FirstKnownDecides` | internal/evidence/evidence.go:542-553 | of the finding's own id, the record's and its aliases the first known one decides; none known means no Go id |
| `Govulncheck.MergeModules` | internal/evidence/evidence.go:376-404 | the modules that could be analysed are merged in order; nothing when all failed |
| `Govulncheck.EvidenceOfModules` | internal/evidence/evidence.go:541-582 | if known ids agree on the Go id, evidence is reachable exactly when some module has a call path, and strongly unreachable exactly when none has and some module was analysed at symbol level |
| `Govulncheck.EvidenceOfStreams` | internal/evidence/evidence.go:376-582 | from the message streams themselves: not imported exactly when none knows the vulnerability, else reachable exactly when one reports a call, and strongly unreachable exactly when none does and the last configuration of some stream says symbol |
| `Govulncheck.ModuleOrderIsIrrelevant` | internal/evidence/evidence.go:376-420 | then the order of the modules does not show in the evidence |
| `Govulncheck.StrongRestsOnOthersExactly` | internal/evidence/evidence.go:416-418 | the merged result is strongly unreachable although no module alone says so exactly when every module that knows the id was analysed below symbol level, no module has a call path, and one that does not know the id was analysed at symbol level |
| `Govulncheck.StrongRestsOnOther` | internal/evidence/evidence.go:416-418 | two such modules |
| `Govulncheck.OrderShowsExactly` | internal/evidence/evidence.go:406-420 | for any two modules the merge order shows exactly when both know the first known id and map it to Go ids with different evidence |
| `Govulncheck.DisagreementShowsOrder` | internal/evidence/evidence.go:413-415 | without that agreement it does: two modules, two orders, opposite strong evidence |
| `Sources.LoadSBOM` | internal/source/source.go:123-191 | the row loop equals the row-by-row specification; the findings are usable and no key belongs to two of them |
| `Sources.LoadIsConsistent` | internal/source/source.go:127-190 | seen ties each key to the one finding that owns it, and every key of every finding is registered |
| `Sources.FindingsAreDistinct` | internal/source/source.go:127-190 | any two kept findings of the same package have disjoint ids and aliases |
| `Sources.RowsAreCovered` | internal/source/source.go:127-190 | every usable row shares a key with some kept finding |
| `Sources.RowsAreRepresented` | internal/source/source.go:127-190 | without NULs in ids and package urls it shares the package url and an id or alias with it |
| `Sources.VerdictFromFirstRow` | internal/source/source.go:171-185 | status, time and tooling of a finding come together from the first routed row that has a status; there is none only when no routed row has one |
| `Sources.FindingIsItsFirstRow` | internal/source/source.go:128-190 | everything else of a finding comes from the first row routed to it |
| `Sources.FindingFields` | internal/source/source.go:128-160 | which field of a finding comes from the row, the tree and the document: the row's own scope first, the tree's names first |
| `Sources.RoutedExactly` | internal/source/source.go:161-164 | a row counts exactly when its id and its package url are more than space |
| `Sources.FirstSeenDecides` | internal/source/source.go:165-176 | of a row's ids the first known one decides |
| `Sources.RouteExactly` | internal/source/source.go:165-190 | a row goes by its own id before its aliases: to the finding that owns the first known key, or to a new one |
| `Duplicates.SeenIsOpened` | internal/source/source.go:160-190 | the remembered keys are exactly those of rows that opened a finding |
| `Duplicates.SecondFindingExactly` | internal/source/source.go:160-190 | a row opens a second finding although an earlier row shares one of its keys exactly when no opening row carries any of its keys and a dropped row carries one |
| `Duplicates.TwinsEndTogether` | internal/source/source.go:160-190 | where dropped rows bring no ids of their own, any two rows that share a key end in one finding |
| `Duplicates.MergingIsNotTransitive` | internal/source/source.go:171-188 | three rows, pairwise linked, that stay two findings |
| `Duplicates.KeptVerdictIsNewest` | internal/source/source.go:171-185 | a finding keeps the newest of its rows' verdicts exactly when none of them after the first is newer |
| `Duplicates.OlderVerdictIsKept` | internal/source/source.go:171-185 | two rows of which the older verdict is kept |
| `Duplicates.KeysAgree` | internal/source/source.go:164-167 | two joined keys agree exactly when the pairs do or one overlaps the other through a NUL |
| `Duplicates.DifferentPackagesShareKey` | internal/source/source.go:164-167 | findings of different packages share a key exactly when such an overlap of their ids and package urls exists |
| `Duplicates.LoadTwo` | internal/source/source.go:127-190 | two plain rows load as one finding exactly when their keys agree, and then with the first one's verdict |
| `Duplicates.NulMergesPackages` | internal/source/source.go:164-190 | rows of two packages that load as one finding, the second package being lost |
| `Sources.MarkDirect` | internal/source/source.go:196-224 | a package is direct exactly when a node without parent lists it; unknown exactly when the tree has no edge |
| `Sources.UrlOfNode` | internal/source/source.go:196-201 | an index stands for the last node that has it |
| `Sources.NameOfPackage` | internal/source/source.go:202-204 | a package is named by the last node with its url |
| `Sources.OpinionIsFirst` | internal/source/source.go:112-120 | the raw SBOM is asked only when the tree is silent, and then only its first direct component counts |
| `Sources.SecondOpinion` | internal/source/source.go:112-120 | the loop gives that opinion |
| `Sources.DirectComponentsReportedExactly` | internal/source/source.go:112-120 | when the tree is silent every direct component is taken for direct exactly when all of them are one package |
| `Sources.SecondDirectComponentLost` | internal/source/source.go:112-135 | of two direct packages in a raw SBOM the second one's findings are reported transitive |
| `Assessments.AddIsCommutativeMonoid` | internal/llm/llm.go:66-82 | cost addition is commutative and associative with zero, model join included |
| `Assessments.SumForgetsOrder` | internal/llm/llm.go:66-82 | the total of a batch is the same in every order |
| `Assessments.SumIsFieldwise` | internal/llm/llm.go:66-82 | each count of a total is the sum of the single counts |
| `Assessments.ModelOfSum` | internal/llm/llm.go:75-81 | the model of a total is empty exactly when nobody named one, and m exactly when m is the only one named |
| `Assessments.NormalizeIdempotent` | internal/llm/llm.go:148-168 | normalising twice is normalising once |
| `Assessments.NormalizedStatus` | internal/llm/llm.go:148-153 | a status stays, and other text becomes exactly the label it spells when trimmed, in lower case and with underscores for dashes |
| `Assessments.NormalizedJustification` | internal/llm/llm.go:148-153 | the same for justifications |
| `Assessments.NormalizedFields` | internal/llm/llm.go:153-168 | exactly which fields are dropped, trimmed or filled in for each status, and that nothing else changes |
| `Assessments.NormalizeKeepsValid` | internal/llm/llm.go:148-168 | normalising takes nothing from a valid, trimmed assessment |
| `Assessments.NormalizedValidity` | internal/llm/llm.go:134-168 | exactly which assessments are valid after normalising |
| `Assessments.StatusRoundTrip` | internal/llm/llm.go:150-168 | reading and writing status strings loses nothing: the four labels and every other text come back as they were |
| `Heuristics.ClosedVerdictHasEvidence` | internal/llm/heuristic.go:41-87 | fixed, affected and not_affected each exactly on their evidence, and closed verdicts have confidence at least 0.7 |
| `Heuristics.JustificationExactly` | internal/llm/heuristic.go:53-87 | code not present exactly for a development dependency, not in the execute path exactly for the other closing evidence |
| `Heuristics.ConfidenceExactly` | internal/llm/heuristic.go:41-117 | the confidence as a function of the evidence |
| `Heuristics.CitesExactly` | internal/llm/heuristic.go:41-117 | what a verdict refers to as a function of the evidence |
| `Heuristics.CitesItsEvidence` | internal/llm/heuristic.go:41-117 | verdicts refer only to evidence that is there, the dependency path of a sole consumer aside, and only the last rule refers to none |
| `Heuristics.ActionExactly` | internal/llm/heuristic.go:122-137 | only a reachable finding has an action, which names the package and the fixed version, or else the vulnerability |
| `Heuristics.VerdictIsWellFormed` | internal/llm/heuristic.go:35-117 | every rule gives a verdict that passes validation, with a justification exactly for not_affected |
| `Heuristics.CommentDiffersExactly` | internal/llm/heuristic.go:17-115 | the nine rules of the comment and the cascade never differ in status; in confidence exactly on open reports with a symbol search but no direct dependency, or with none but a development, import or missing-import item |
| `Heuristics.CommentMissesImported` | internal/llm/heuristic.go:101-105 | the plainest report for which they do |
| `Heuristics.VerdictReadsKindsOnly` | internal/llm/heuristic.go:35-137 | the order and number of items never matter; only which kinds are there and strong; the action text alone reads the finding |
| `VexGen.FinalVerdict` | internal/vexgen/vexgen.go:105-116 | whatever the provider said, the final verdict is valid, and it is not_affected (or fixed) exactly when the normalised one was, validly, confidently enough and with the evidence asked for |
| `VexGen.GuardedStaysOpen` | internal/vexgen/vexgen.go:174-197 | a guarded verdict is under investigation with no justification, impact or action; under investigation exactly then or when the provider said so; affected exactly when the provider validly said so |
| `VexGen.GuardsExactly` | internal/vexgen/vexgen.go:105-116 | each guard fires exactly on its own condition, and at most one of them looks at the evidence |
| `VexGen.GuardedNote` | internal/vexgen/vexgen.go:174-197 | the note of a downgraded verdict keeps what it was |
| `VexGen.StatementFields` | internal/vexgen/vexgen.go:118-152 | a statement says what the final verdict says, and its notes name provider and evidence |
| `VexGen.ReachableExcusesNotAffected` | internal/vexgen/vexgen.go:185-188 | proof of reachability passes the not_affected guardrail as a strong item |
| `VexGen.HeuristicPasses` | internal/vexgen/vexgen.go:174-197 | a rules-only verdict survives exactly when it leaves the finding open or reaches the minimum |
| `VexGen.HeuristicAlwaysPasses` | internal/vexgen/vexgen.go:174-197 | all of them do exactly when the minimum is at most 0.7 |
| `VexGen.SortedEntries` | internal/vexgen/vexgen.go:96-103 | entries are sorted by id and package url, and entries of one pair keep their order |
| `VexGen.StatementsOfEntries` | internal/vexgen/vexgen.go:105-166 | each entry gives one valid statement with its own id, package url and product |
| `VexGen.Render` | internal/vexgen/vexgen.go:105-166 | no assessment can make the statement invalid |
| `VexGen.Build` | internal/vexgen/vexgen.go:68-172 | fails exactly without a product id; statements, guardrails and counts are those of the sorted entries, and a count is the number of entries whose final verdict has the status |
| `VexGen.DocumentCounts` | internal/vexgen/vexgen.go:68-172 | the count of a status is the number of entries whose final verdict has it, whatever the order |
| `VexGen.GuardrailsExactly` | internal/vexgen/vexgen.go:110-116 | the document lists exactly the guards that fired, under their own findings |
| `VexGen.CountsAddUp` | internal/vexgen/vexgen.go:155-170 | the four counts add up to the statements |
| `VexGen.CostIsInvisible` | internal/vexgen/vexgen.go:105-166 | verdicts equal up to cost give the same statement and guardrails |
| `AssessCache.CollectParts` | internal/assesscache/assesscache.go:97-112 | the joined parts are the fingerprint's preimage |
| `AssessCache.LinesRecovered` | internal/assesscache/assesscache.go:101-110 | item lines can be told from the trailer, so equal preimages have equal item lines |
| `AssessCache.PreimageTellsItems` | internal/assesscache/assesscache.go:97-112 | equal preimages mean the same items with the same strength |
| `AssessCache.PreimageForgetsOrder` | internal/assesscache/assesscache.go:97-112 | the order of the items does not show in the preimage |
| `AssessCache.PreimageExactly` | internal/assesscache/assesscache.go:97-112 | where versions hold no line break, equal preimages are exactly equal items, equal versions and equal OSV times |
| `AssessCache.KeyTellsQuestion` | internal/assesscache/assesscache.go:80-112 | for an injective digest, two questions share a key exactly when provider, commit (else repository), finding and evidence agree |
| `AssessCache.VerdictFactorsThroughKey` | internal/assesscache/assesscache.go:80-112 | for an injective digest, equal keys mean equal rules-only verdicts, the action text aside |
| `AssessCache.Store.Get` | internal/assesscache/assesscache.go:132-148 | serves the stored verdict exactly when the store is on, the stored key is the asked one and it has not expired |
| `AssessCache.Store.Put` | internal/assesscache/assesscache.go:152-172 | stores the verdict without its cost under the key's file, and changes no other file |
| `Budgets.Budget.Check` | internal/llm/budget.go:68-84 | none exactly when every positive limit is still above what is spent |
| `Budgets.Budget.Spend` | internal/llm/budget.go:41-48 | adds the cost; a reached limit stays reached |
| `Budgets.Budget.Reset` | internal/llm/budget.go:87-94 | nothing is spent, no limit reached |
| `Budgets.OverStays` | internal/llm/budget.go:41-84 | a reached limit stays reached under every further charge |
| `Budgets.NewBudget` | internal/llm/budget.go:33-38 | no budget exactly when no limit is set |
| `Pipelines.NewestByKey` | internal/pipeline/pipeline.go:723-733 | the map holds the newest positive time of each key |
| `Pipelines.NewestIsMaximum` | internal/pipeline/pipeline.go:723-733 | it is attained by a statement of the key and exceeded by none |
| `Pipelines.StaleStatements` | internal/pipeline/pipeline.go:690-741 | exactly the keys of revisitable findings whose own time, or else the newest listed one, lies before the cutoff |
| `Pipelines.StaleExactly` | internal/pipeline/pipeline.go:690-741 | stale means: open, and older than the limit by its own time, or without one by every listed time of its key, of which there is one |
| `Pipelines.StaleIsOwn` | internal/pipeline/pipeline.go:690-741 | with the unique keys of loading, a key is stale only through its own finding |
| `Pipelines.Filter` | internal/pipeline/pipeline.go:338-363 | the loop equals the decision per finding, and its counters the tally |
| `Pipelines.DecisionExactly` | internal/pipeline/pipeline.go:338-363 | each decision exactly on the finding's own fields, the options and staleness |
| `Pipelines.HowManyIsNumber` | internal/pipeline/pipeline.go:338-364 | what the counters count is the number of findings with a decision |
| `Pipelines.AskedWithoutForce` | internal/pipeline/pipeline.go:338-363 | exactly which findings of an SBOM are asked about without Force |
| `Pipelines.AskedWithForce` | internal/pipeline/pipeline.go:338-363 | with Force exactly what Only lets through is asked about |
| `Pipelines.ClosedAndForeignStay` | internal/pipeline/pipeline.go:338-363 | without Force no closed verdict and no verdict of foreign tooling is ever asked about, for all other options |
| `Pipelines.CountersAddUp` | internal/pipeline/pipeline.go:338-364 | every finding is skipped or selected and each counter counts what it names; Reassessed counts expired findings, those that Only drops included |
| `Pipelines.ReassessedIsExactWhen` | internal/pipeline/pipeline.go:338-364 | Reassessed is the number of expired findings asked about exactly when Only lists every expired one |
| `Pipelines.ReassessedOvercounts` | internal/pipeline/pipeline.go:348-361 | an expired finding that Only does not name is counted, and nothing is asked |
| `AssessLoop.AssessFindings` | internal/pipeline/pipeline.go:385-430 | the loop over live cache and budget equals the specification step by step |
| `AssessLoop.WhatTurnsGet` | internal/pipeline/pipeline.go:388-425 | exactly which findings are served, deferred or asked about, and what each gets: the stored verdict at the cost of one hit, the answer, or after a failure an open verdict without confidence at the cost of the call |
| `AssessLoop.EntriesHoldAnswers` | internal/pipeline/pipeline.go:415-425 | every cache entry was there before or holds the answer of one of the turns, never a failure |
| `AssessLoop.SpentIsReported` | internal/pipeline/pipeline.go:418-430 | the budget is charged what the loop reports, cache hits aside |
| `AssessLoop.EntriesAddUp` | internal/pipeline/pipeline.go:388-430 | every finding has an entry or is deferred, and every entry is some finding's own verdict |
| `AssessLoop.EntriesInOrder` | internal/pipeline/pipeline.go:388-430 | the entries are those of the turns that were not deferred, in turn order |
| `AssessLoop.RecordsAreOwn` | internal/pipeline/pipeline.go:429-429 | a record is found again under its own finding's key |
| `AssessLoop.AskedWithinBudget` | internal/pipeline/pipeline.go:405-418 | the provider is asked only while no limit is reached |
| `AssessLoop.DeferredForGood` | internal/pipeline/pipeline.go:405-418 | after the first deferral the provider is not asked again in the run |
| `AssessLoop.CacheIsTransparent` | internal/pipeline/pipeline.go:397-425 | without a budget the cache changes no verdict but its cost, whatever faithful entries it holds and however keys share files, and it stays faithful |
| `AssessLoop.RunsAgree` | internal/pipeline/pipeline.go:385-430 | runs with and without the cache, over any faithful contents, have the same entries up to cost |
| `AssessLoop.CacheNeverDefersMore` | internal/pipeline/pipeline.go:397-425 | under any budget a run that reads the cache never defers a finding that one without it would assess, and what both assess gets the same verdict |
| `Fallback.FallbackAnswers` | internal/llm/mock.go:62-75 | the pair never fails; after a primary error it gives the rules' status and confidence at no cost |
| `Fallback.OutageVerdictIsServed` | internal/assesscache/assesscache.go:80-172 | a verdict the rules gave during an outage is stored under the pair's one name and served in a later run for the same question, when the primary would answer |
| `Fallback.RunsConcat` | internal/pipeline/pipeline.go:385-430 | a run over the cache another one left is the second half of both together |
| `Fallback.TransparentExactly` | internal/pipeline/pipeline.go:397-425 | over any sequence of runs from an empty cache, reading it changes no verdict but its cost exactly when every question asked again gets the answer that was stored first |
| `Fallback.TransparentThroughOutages` | internal/pipeline/pipeline.go:397-425 | for a primary that answers by key when it answers, exactly when no question is asked both in and out of an outage and outages on one question agree in error and rules' verdict |
| `Runs.Run` | internal/pipeline/pipeline.go:336-444 | conservation: loaded = skipped + asked, asked = statements + deferred, counts add up, cost is the sum of the findings' costs, and each record is that of its own finding |
| `Runs.SelectedAreDistinct` | internal/pipeline/pipeline.go:338-363 | selected findings have distinct keys |
| `Runs.StatementsAreExplained` | internal/pipeline/pipeline.go:438-444 | every statement of the document is found again with its own finding's record |
| `Runs.ClosedByAnswer` | internal/pipeline/pipeline.go:388-444 | a statement that closes a finding has the status of the provider's answer to it or of a cache entry for its question, never that of a failed call |
| `Runs.StatementsIgnoreCache` | internal/pipeline/pipeline.go:385-444 | a run's statements are the same with and without reading the cache |
| `Verification.Verify` | internal/pipeline/pipeline.go:779-807 | the two loops equal the classification of each statement by the rows |
| `Verification.StatusIsLast` | internal/pipeline/pipeline.go:784-791 | the status read back is that of the last row of the key that has one |
| `Verification.ClaimsAreClassified` | internal/pipeline/pipeline.go:776-807 | every statement is applied, overridden or pending; complete exactly when the server shows some status for each |
| `Verification.AppliedIsLoadedExactly` | internal/pipeline/pipeline.go:784-804 | for a claim about a loaded finding that is reported applied, loading takes the same status exactly when the first status among its rows is the last one of its key |
| `Verification.AppliedYetLoadedOtherwise` | internal/pipeline/pipeline.go:784-791 | two rows for which it does not |
| `Watch.WatchState.SelectWork` | internal/pipeline/watch.go:158-176 | the selection loop equals the specification; the pass's cost starts at zero |
| `Watch.WatchState.Commit` | internal/pipeline/watch.go:196-213 | the locked section equals the specification of one result |
| `Watch.PassShare` | internal/pipeline/watch.go:149-233 | what one pass leaves of an SBOM: the new fingerprint and time after an error-free run without deferral or after the empty skip, otherwise exactly what was there |
| `Watch.SelectedExactly` | internal/pipeline/watch.go:163-176 | selected exactly when new, changed or due by the memory and not an empty SBOM to skip; an empty one is marked as done instead |
| `Watch.SelectionIsInOrder` | internal/pipeline/watch.go:163-176 | the selection keeps the order of the listing |
| `Watch.SelectedUntilDone` | internal/pipeline/watch.go:163-213 | over any sequence of passes an SBOM that needs work is selected each time until a run for it succeeds |
| `Watch.FinishedIsLeftAlone` | internal/pipeline/watch.go:163-213 | a finished SBOM is not selected and keeps its memory until its fingerprint changes or it is due |
| `Watch.FinishedIsSelectedAgain` | internal/pipeline/watch.go:163-213 | over any sequence of passes, and then it is selected again in the first pass that shows another fingerprint or comes late enough |
| `WatchPool.WorkerCount` | internal/pipeline/watch.go:178-184 | at least one worker when there is work, never more than SBOMs or asked for |
| `PoolOwnership.DealtKept` | internal/pipeline/watch.go:192-229 | every step keeps each handed-out SBOM with exactly one worker or with its one result |
| `PoolOwnership.AlwaysSound` | internal/pipeline/watch.go:185-229 | in every interleaving the shared state is what recording the results so far in list order gives |
| `PoolOwnership.CancelledByStep` | internal/pipeline/watch.go:186-233 | a pass is cancelled only by somebody cancelling it |
| `PoolOwnership.DeferredAtMostAll` | internal/pipeline/watch.go:196-213 | in every interleaving what a run has left, under way and put off is at most its findings |
| `PoolOwnership.NeverStuck` | internal/pipeline/watch.go:192-229 | until everybody has left, the feeder or a worker can act without help from cancellation, errors or the cache |
| `PoolOwnership.AlwaysEnds` | internal/pipeline/watch.go:192-229 | every run of the pool is finite, with a bound |
| `PoolOwnership.Outcome` | internal/pipeline/watch.go:192-233 | at the end each SBOM handed out has its one result, which is all of them unless cancelled; memory and processed count are those of the results |
| `PoolOwnership.ScheduleIsIrrelevant` | internal/pipeline/watch.go:185-233 | given each run's result, neither workers nor limits nor schedule show in memory and processed count |
| `PoolOwnership.PoolCompletesPass` | internal/pipeline/watch.go:149-233 | the pool does what the sequence-of-passes view of a pass says |
| `PoolSpend.OvershootIsBounded` | internal/llm/budget.go:41-94 | in every interleaving spent plus what calls under way may report stays below each limit plus one call of every worker |
| `PoolSpend.ExhaustedForGood` | internal/llm/budget.go:41-94 | once a limit is reached no call begins, and spent plus outstanding never grows again |
| `PoolSpend.NoCallAfterDeferral` | internal/pipeline/pipeline.go:405-418 | once any worker has put off a finding, no run of the pass begins another call |
| `PoolSpend.ChargesAreReported` | internal/pipeline/watch.go:196-213 | what the budget was charged is what the pass reports plus what failed runs lost, cache hits aside |
| `PoolSpend.CallsAreBounded` | internal/pipeline/pipeline.go:405-418 | calls begun are bounded by limit and workers where every call reports at least one |
| `PoolSpend.SilentCallsAreUnbounded` | internal/llm/openai.go:101-106 | where failed calls report nothing no limit stops them: in every configuration some run of the pool begins as many calls as there are findings and charges nothing |
| `GitOps.Publisher.Sync` | internal/gitops/gitops.go:158-183 | whatever an aborted run left, a successful sync leaves the clone at the remote base; it succeeds whenever no command fails |
| `GitOps.Publisher.Publish` | internal/gitops/gitops.go:84-155 | every outcome, failures and foreign pushes included: at most the one branch is pushed; refused exactly for an unusable file name or no repository; unchanged exactly when base has the content |
| `GitOps.TargetExactly` | internal/gitops/gitops.go:96-104 | base is main unless another is named; with a prefix the branch is prefix and slug |
| `GitOps.ProposalExactly` | internal/gitops/gitops.go:109-135 | the commit follows base and changes one file, named after the document and in the configured directory, whatever slashes surround that |
| `GitOps.AcceptsExactly` | internal/gitops/gitops.go:136-140 | a push is taken exactly when forced, new, or a descendant of what is there |
| `GitOps.OnlyOwnBranch` | internal/gitops/gitops.go:96-155 | a run changes no branch but its own |
| `GitOps.BaseHistoryIsKept` | internal/gitops/gitops.go:130-138 | a push to base loses nothing that was there |
| `GitOps.ReviewNeverMovesBase` | internal/gitops/gitops.go:96-155 | in review mode base moves only when somebody else moves it, over any history of runs |
| `GitOps.ReviewProtectsBase` | internal/gitops/gitops.go:96-138 | no run for a document can move base exactly when there is a prefix and prefix plus slug do not spell base |
| `GitOps.PrefixCanSpellBase` | internal/gitops/gitops.go:96-138 | a concrete prefix and product for which review mode pushes to base |

## Left out

- Processes and services: HTTP providers, Copilot CLI, MCP, BOMHort, OSV, git and govulncheck are inputs: a reply, rows, messages, or a step that may fail.
- Lexing: JSON, YAML and line formats are decoded before the model starts; the loaders read packages, blocks and rows.
- `CargoLock.ParseCargoLock`: starts from blocks, so a `dependencies` line split over several lines is one list already.
- `PoetryLock.ParsePoetryLock`: starts from blocks with a name; a block without one would lend its flag and open section to the next.
- `Verdicts.ChooseGraph`: the lockfiles come in the order in which the code sorts them, by depth and then by path.
- `Mistakes.CallersUnseenExactly`: for npm, a dependency may resolve to any copy installed under its name; which nested copy it is, is not modelled.
- Lockfile formats yarn, uv, Gemfile, NuGet and pubspec: more loaders of the same shape. Manifests are read as lists of names.
- Regular expressions over manifests and sources: `Ecosystem.Scan` takes counts and flags; the source files searched are those before the file limit (internal/evidence/ecosystem.go:348-352).
- `Ecosystem.Collect`: the Go branch is `Govulncheck.EvidenceFor` alone, without the symbol search of internal/evidence/evidence.go:588, whose items are never strong.
- Free text: summaries and details of evidence, statement ids, timestamps, descriptions and aliases; the rules' fixed sentences are shortened; a guardrail's note is kept in its parts.
- `AssessCache.VerdictFactorsThroughKey`: takes the digest as injective; the code keeps eight bytes of SHA-256.
- `Assessments.AddIsCommutativeMonoid`: premium requests and confidences are reals, so floating-point rounding is not modelled.
- Letters outside ASCII: case folding and trimming cover ASCII.
- Clocks are integers; one pass and one filter run at one instant, and an absent time is zero.
- Semantic Versioning comparison comes in as the sign of the comparison, or none when the versions cannot be compared.
- `Fallback.TransparentExactly`: for an unlimited budget, entries that do not expire, and keys with files of their own; with expiry or shared files a question is simply asked again.
- Cancellation inside a run appears as a failing run (`WatchPool.Abort`), not inside `Runs.Run`.
- `WatchPool.Apply`: a provider call is one step to begin and one to end; what a run does before its first and after its last finding is not a step.
- `Runs.Run`: writing, uploading and publishing the document after it is built.
- `GitOps.ProposalExactly`: dot and empty segments inside the configured directory are taken as they are.
- `GitOps.Publisher.Publish`: the pull request is one flag; slugs are an input; ignored files and the depth of the clone are not modelled.
- `Watch.After`: the state file's `last_run` and its saving between passes; a failed listing, which changes nothing.
- Metrics, logging, configuration, prompts and the MCP server.
