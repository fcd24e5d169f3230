/** What the graph's answers mean for the product: the runtime closure and the spelling of root names. */
module Closure {
  import opened Text
  import opened Options
  import opened Paths
  import opened BreadthFirst
  import opened DepGraphs
  import opened Quotient
  import CargoLock

  /** More runtime roots or more edges never turn a package of the runtime closure into a dev-only one. */
  lemma RuntimeStaysRuntime(e: Edges, f: Edges, root: seq<string>, root': seq<string>, rootDev': seq<string>, k: string)
    requires SubGraph(e, f) && (forall r :: r in root ==> r in root') && ReachesAny(e, root, k)
    ensures !OutsideRuntime(f, root', rootDev', k)
  {
    var r :| r in root && Reaches(e, r, k);
    ReachesMonotone(e, f, r, k);
  }

  // ---- beyond the cap ----

  /** What the capped searches answer. */
  ghost predicate CalledDev(e: Edges, root: seq<string>, rootDev: seq<string>, k: string, cap: nat) {
    !MetWithin(e, root, k, cap) && MetWithin(e, rootDev, k, cap)
  }

  /** The cap makes a runtime package dev-only exactly when at least cap nodes come before it in the runtime search and
      fewer in the development search; never when cap covers what the runtime roots reach. */
  lemma CapHidesRuntimeExactly(e: Edges, root: seq<string>, rootDev: seq<string>, k: string, cap: nat)
    ensures CalledDev(e, root, rootDev, k, cap) && ReachesAny(e, root, k) <==>
            && Distance(e, root, k).Some? && Distance(e, root, k).value >= cap
            && Distance(e, rootDev, k).Some? && Distance(e, rootDev, k).value < cap
    ensures |ReachSet(e, root)| <= cap ==> !(CalledDev(e, root, rootDev, k, cap) && ReachesAny(e, root, k))
  {
    DistanceIsReach(e, root, k);
    hide ReachesAny, ReachSet, Distance;
  }

  function Link(i: nat): (s: string)
    ensures |s| == i + 1
  {
    seq(i + 1, _ => 'a')
  }

  /** a, aa, aaa and so on, each depending on the next. */
  function LongChain(n: nat): Edges {
    if n == 0 then map[] else LongChain(n - 1)[Link(n - 1) := [Link(n)]]
  }

  lemma {:induction false} LongChainLinks(n: nat, i: nat)
    requires i < n
    ensures Link(i) in LongChain(n) && LongChain(n)[Link(i)] == [Link(i + 1)]
  {
    hide Link;
    if i < n - 1 {
      LongChainLinks(n - 1, i);
      assert |Link(i)| != |Link(n - 1)|;
    }
  }

  lemma {:induction false} LongChainHolds(n: nat, a: string)
    requires a in LongChain(n)
    ensures exists i: nat :: i < n && a == Link(i)
  {
    hide Link;
    if n > 0 && a != Link(n - 1) { LongChainHolds(n - 1, a); }
  }

  function LinksBefore(n: nat): (s: set<string>)
    ensures |s| == n
    ensures forall a :: a in s ==> |a| <= n
  {
    if n == 0 then {}
    else
      assert Link(n - 1) !in LinksBefore(n - 1);
      LinksBefore(n - 1) + {Link(n - 1)}
  }

  /** Each of the first n links has the next one as its only successor. */
  ghost predicate IsChain(e: Edges, n: nat) {
    forall i: nat :: i < n ==> Succ(e, Link(i)) == [Link(i + 1)]
  }

  lemma LinkFacts(n: nat, i: nat)
    requires i < n
    ensures Link(i) !in LinksBefore(i) && Link(n) != Link(i)
    ensures LinksBefore(i + 1) == LinksBefore(i) + {Link(i)}
  {
    hide Link;
    assert |Link(i)| == i + 1 && |Link(n)| == n + 1;
  }

  lemma LongChainIsChain(n: nat)
    ensures IsChain(LongChain(n), n)
  {
    hide Link, LongChain;
    forall i: nat | i < n { LongChainLinks(n, i); }
  }

  lemma {:induction false} ChainDistance(e: Edges, n: nat, i: nat, universe: set<string>)
    requires IsChain(e, n) && i <= n && Nodes(e) <= universe && Link(i) in universe
    ensures VisitedBefore(e, universe, Link(n), LinksBefore(i), [Link(i)]) == Some(n)
    decreases n - i
  {
    hide Nodes, Link, LinksBefore;
    if i < n {
      LinkFacts(n, i);
      VisitOne(e, universe, Link(n), LinksBefore(i), Link(i), Link(i + 1));
      hide VisitedBefore;
      ChainDistance(e, n, i + 1, universe);
    }
  }

  lemma LongChainIsWellFormed(n: nat)
    ensures WellFormed(LongChain(n), Exact)
  {
    hide Link, LongChain;
    var e := LongChain(n);
    forall a | a in e ensures NoDup(e[a]) && forall b :: b in e[a] ==> b != "" && b != a {
      LongChainHolds(n, a);
      var i: nat :| i < n && a == Link(i);
      LongChainLinks(n, i);
      assert |Link(i + 1)| == i + 2;
    }
  }

  lemma StartIsMet(e: Edges, starts: seq<string>)
    requires starts != []
    ensures Distance(e, starts, starts[0]) == Some(0)
  {
    hide Nodes;
  }

  /** For every cap there is a graph, one node too long, whose last package the runtime root reaches and which is called
      dev-only. */
  lemma CapIsTight(cap: nat)
    requires cap >= 1
    ensures var e, root, rootDev := LongChain(cap), [Link(0)], [Link(cap)];
            WellFormed(e, Exact) && ReachesAny(e, root, Link(cap)) && CalledDev(e, root, rootDev, Link(cap), cap)
  {
    var e, root, rootDev := LongChain(cap), [Link(0)], [Link(cap)];
    LongChainIsWellFormed(cap);
    LongChainIsChain(cap);
    ChainEndDistance(e, cap, root);
    StartIsMet(e, rootDev);
    DistanceIsReach(e, root, Link(cap));
    hide Link, LongChain, WellFormed, ReachesAny, Distance;
  }

  lemma ChainEndDistance(e: Edges, n: nat, starts: seq<string>)
    requires IsChain(e, n) && starts == [Link(0)]
    ensures Distance(e, starts, Link(n)) == Some(n)
  {
    assert LinksBefore(0) == {};
    hide Link, LinksBefore, Nodes, IsChain;
    assert starts[0] in starts && starts[0] in Universe(e, starts);
    ChainDistance(e, n, 0, Universe(e, starts));
  }

  // ---- roots under other names ----

  predicate IsOwnKey(norm: Norm, r: string) { Key(norm, r) == r }

  function OwnKeys(norm: Norm, roots: seq<string>): (r: seq<string>)
    ensures forall x :: x in r <==> x in roots && IsOwnKey(norm, x)
  {
    if roots == [] then [] else (if IsOwnKey(norm, roots[0]) then [roots[0]] else []) + OwnKeys(norm, roots[1..])
  }

  lemma RespelledReachesNothing(e: Edges, norm: Norm, r: string, k: string)
    requires WellFormed(e, norm) && !IsOwnKey(norm, r) && IsOwnKey(norm, k)
    ensures !Reaches(e, r, k)
  {
    forall p | |p| > 1 && p[0] == r ensures !IsPath(e, p) {
      assert !Linked(e, p[0], p[1]);
    }
  }

  /** A root whose name is not its own key is as good as absent: the answers are those for the other roots alone. */
  lemma RespelledRootsAreLost(e: Edges, norm: Norm, root: seq<string>, rootDev: seq<string>, k: string)
    requires WellFormed(e, norm) && IsOwnKey(norm, k)
    ensures ReachesAny(e, root, k) <==> ReachesAny(e, OwnKeys(norm, root), k)
    ensures OutsideRuntime(e, root, rootDev, k) <==> OutsideRuntime(e, OwnKeys(norm, root), OwnKeys(norm, rootDev), k)
  {
    forall r | !IsOwnKey(norm, r) ensures !Reaches(e, r, k) { RespelledReachesNothing(e, norm, r, k); }
  }

  /** Some root leads to k that the manifest, going by the root's key, does not list for development alone. */
  ghost predicate NeededAtRunTime(e: Edges, norm: Norm, roots: seq<string>, runtime: seq<string>, dev: seq<string>,
                                  k: string) {
    exists r :: RuntimeRoot(norm, roots, runtime, dev, r) && Reaches(e, Key(norm, r), k)
  }

  ghost predicate RuntimeRoot(norm: Norm, roots: seq<string>, runtime: seq<string>, dev: seq<string>, r: string) {
    r in roots && !CargoLock.DevDeclared(norm, runtime, dev, Key(norm, r))
  }

  /** The roots as written went to the side where the manifest's keys put them. */
  ghost predicate SplitAsWritten(norm: Norm, root: seq<string>, rootDev: seq<string>, runtime: seq<string>,
                                 dev: seq<string>) {
    && (forall r :: r in root ==> !CargoLock.DevDeclared(norm, runtime, dev, r))
    && forall r :: r in rootDev ==> CargoLock.DevDeclared(norm, runtime, dev, r)
  }

  /** The search from the runtime roots would find k beyond the cap, the one from the development roots within it. */
  ghost predicate BeyondCap(e: Edges, root: seq<string>, rootDev: seq<string>, k: string, cap: nat) {
    && Distance(e, root, k).Some? && Distance(e, root, k).value >= cap
    && Distance(e, rootDev, k).Some? && Distance(e, rootDev, k).value < cap
  }

  /** A development root leads to k, and so do runtime roots, but only such as are not spelled like their keys. */
  ghost predicate OnlyRespelled(e: Edges, norm: Norm, root: seq<string>, rootDev: seq<string>, runtime: seq<string>,
                                dev: seq<string>, k: string, cap: nat) {
    && MetWithin(e, rootDev, k, cap) && !ReachesAny(e, OwnKeys(norm, root), k)
    && exists r :: RuntimeRoot(norm, root, runtime, dev, r) && !IsOwnKey(norm, r) && Reaches(e, Key(norm, r), k)
  }

  /** Exactly when a package that is needed at run time is called dev-only. */
  lemma HiddenRuntimePackage(e: Edges, norm: Norm, root: seq<string>, rootDev: seq<string>, runtime: seq<string>,
                             dev: seq<string>, k: string, cap: nat)
    requires WellFormed(e, norm) && IsOwnKey(norm, k) && SplitAsWritten(norm, root, rootDev, runtime, dev)
    ensures CalledDev(e, root, rootDev, k, cap) && NeededAtRunTime(e, norm, root + rootDev, runtime, dev, k) <==>
            BeyondCap(e, root, rootDev, k, cap) || OnlyRespelled(e, norm, root, rootDev, runtime, dev, k, cap)
  {
    RespelledRootsAreLost(e, norm, root, rootDev, k);
    DistanceIsReach(e, root, k);
    NeededByRuntimeRoot(e, norm, root, rootDev, runtime, dev, k);
    hide Reaches, WellFormed, Key, Distance, ReachSet, CargoLock.DevDeclared, ReachesAny, SplitAsWritten;
    hide NeededAtRunTime, OwnKeys;
  }

  /** What is needed at run time is led to by a root on the runtime side, by its own key or under another spelling. */
  lemma NeededByRuntimeRoot(e: Edges, norm: Norm, root: seq<string>, rootDev: seq<string>, runtime: seq<string>,
                            dev: seq<string>, k: string)
    requires SplitAsWritten(norm, root, rootDev, runtime, dev)
    ensures NeededAtRunTime(e, norm, root + rootDev, runtime, dev, k) <==>
            || ReachesAny(e, OwnKeys(norm, root), k)
            || exists r :: RuntimeRoot(norm, root, runtime, dev, r) && !IsOwnKey(norm, r) && Reaches(e, Key(norm, r), k)
  {
    forall r | r in rootDev ensures IsOwnKey(norm, r) { DeclaredIsOwnKey(norm, runtime, dev, r); }
    hide Reaches, Key, CargoLock.DevDeclared;
    var all := root + rootDev;
    if r :| RuntimeRoot(norm, all, runtime, dev, r) && Reaches(e, Key(norm, r), k) {
      assert r in root;
      if IsOwnKey(norm, r) {
        assert r in OwnKeys(norm, root);
      } else {
        assert RuntimeRoot(norm, root, runtime, dev, r);
      }
    }
    if r :| r in OwnKeys(norm, root) && Reaches(e, r, k) { assert RuntimeRoot(norm, all, runtime, dev, r); }
    if r :| RuntimeRoot(norm, root, runtime, dev, r) && Reaches(e, Key(norm, r), k) {
      assert RuntimeRoot(norm, all, runtime, dev, r);
    }
  }

  lemma DeclaredIsOwnKey(norm: Norm, runtime: seq<string>, dev: seq<string>, r: string)
    requires CargoLock.DevDeclared(norm, runtime, dev, r)
    ensures IsOwnKey(norm, r)
  {
    hide Key;
    var d :| d in dev && Key(norm, d) == r;
    KeyIdempotent(norm, d);
  }

  /** Where every root is its own key, as for all ecosystems but Cargo, the answer is right. */
  lemma OwnRootsAnswerRight(e: Edges, norm: Norm, root: seq<string>, rootDev: seq<string>, k: string)
    requires forall r :: r in root + rootDev ==> IsOwnKey(norm, r)
    ensures OutsideRuntime(e, root, rootDev, k) <==>
            OutsideRuntime(e, MapKeys(norm, root), MapKeys(norm, rootDev), k)
  {
    OwnKeyed(norm, root, root + rootDev);
    OwnKeyed(norm, rootDev, root + rootDev);
    hide Reaches, Key;
  }

  lemma OwnKeyed(norm: Norm, roots: seq<string>, all: seq<string>)
    requires (forall r :: r in roots ==> r in all) && forall r :: r in all ==> IsOwnKey(norm, r)
    ensures forall x :: x in MapKeys(norm, roots) <==> x in roots
  {
    forall x ensures x in MapKeys(norm, roots) <==> x in roots {
      if x in roots { assert IsOwnKey(norm, x) && Names(norm, roots, x); }
    }
  }

  // ---- Cargo ----

  /** Workspace members leave the loaded graph. They stay out of the roots too exactly when no member lists
      another one under a different spelling. */
  lemma CargoMembersLeave(e: Edges, present: set<string>, root: seq<string>, f: seq<CargoLock.Block>)
    requires CargoLock.LoadedCargo(e, present, root, f)
    ensures forall m :: m in CargoLock.Members(f) ==> m !in present && m !in root && Succ(e, m) == []
    ensures (forall x :: x in root ==> Key(Crate, x) !in CargoLock.Members(f)) <==>
            forall x :: CargoLock.Lists(CargoLock.Members(f), CargoLock.MemberOf(f), x) && x != "" ==>
                        Key(Crate, x) in CargoLock.Members(f) ==> x in CargoLock.Members(f)
  {
    forall m | m in CargoLock.Members(f) ensures Succ(e, m) == [] {
      if Succ(e, m) != [] {
        assert Linked(e, m, Succ(e, m)[0]);
        assert false;
      }
    }
  }

  /** The workspace of the example: app uses my-lib, and criterion for its benchmarks; both use rand. */
  function ExampleBlocks(): seq<CargoLock.Block> {
    [CargoLock.Block("app", false, ["my-lib", "criterion"]),
     CargoLock.Block("my-lib", true, ["rand"]),
     CargoLock.Block("criterion", true, ["rand"]),
     CargoLock.Block("rand", true, [])]
  }

  lemma ExampleKeys()
    ensures Key(Crate, "my-lib") == "my_lib" && Key(Crate, "criterion") == "criterion" && Key(Crate, "rand") == "rand"
    ensures Key(Crate, "app") == "app"
  {
    assert Lower(ReplaceChar("my-lib", '-', '_')) == "my_lib";
    assert Lower(ReplaceChar("criterion", '-', '_')) == "criterion";
    assert Lower(ReplaceChar("rand", '-', '_')) == "rand";
    assert Lower(ReplaceChar("app", '-', '_')) == "app";
  }

  lemma ExampleMembers()
    ensures CargoLock.Flushed(ExampleBlocks(), false, []) == ExampleBlocks()
    ensures CargoLock.Members(ExampleBlocks()) == ["app"]
    ensures CargoLock.MemberOf(ExampleBlocks()) == map["app" := ["my-lib", "criterion"]]
  {
    ExampleKeys();
    var f := ExampleBlocks();
    assert f[..3][..2] == f[..2] && f[..2][..1] == f[..1] && f[..1][..0] == [];
    assert CargoLock.Members(f[..1]) == ["app"];
    assert CargoLock.MemberOf(f[..1]) == map["app" := ["my-lib", "criterion"]];
    assert CargoLock.Members(f[..2]) == ["app"] && CargoLock.Members(f[..3]) == ["app"];
    assert f[1..][1..] == f[2..] && f[2..][1..] == f[3..] && f[3..][1..] == [];
    forall i | 0 <= i < 4 ensures f[i].name != "" && [] + f[i].deps == f[i].deps {}
    assert CargoLock.Flushed(f[3..], false, []) == [f[3]];
    assert CargoLock.Flushed(f[2..], false, []) == [f[2], f[3]];
    assert CargoLock.Flushed(f[1..], false, []) == [f[1], f[2], f[3]];
  }

  lemma ExampleGraph(e: Edges, present: set<string>, root: seq<string>)
    requires CargoLock.LoadedCargo(e, present, root, ExampleBlocks())
    ensures Linked(e, "my_lib", "rand") && Linked(e, "criterion", "rand")
    ensures forall x :: x in root <==> x == "my-lib" || x == "criterion"
  {
    hide Key, CargoLock.Flushed, CargoLock.Members, CargoLock.MemberOf;
    ExampleKeys();
    ExampleMembers();
    var f := ExampleBlocks();
    var copies := CargoLock.Copies(f);
    assert copies[1].deps == ["rand"] && copies[2].deps == ["rand"];
    assert copies[1] in copies && copies[2] in copies;
    assert Names(Crate, ["rand"], "rand") by { assert "rand" in ["rand"]; }
    assert DependsOn(Crate, copies[1], "my_lib", "rand") && DependsOn(Crate, copies[2], "criterion", "rand");
    forall x ensures x in root <==> x == "my-lib" || x == "criterion" {
      if x == "my-lib" || x == "criterion" { assert "app" in ["app"]; }
    }
  }

  lemma ExampleHasRand(e: Edges, present: set<string>, root: seq<string>)
    requires CargoLock.LoadedCargo(e, present, root, CargoLock.Flushed(ExampleBlocks(), false, []))
    ensures "rand" in present && CargoLock.Members(CargoLock.Flushed(ExampleBlocks(), false, [])) != []
  {
    ExampleKeys();
    ExampleMembers();
    var f := ExampleBlocks();
    var copies := CargoLock.Copies(f);
    assert copies[3] in copies && copies[3].name == "rand";
    hide Key, CargoLock.Flushed, CargoLock.Members, CargoLock.MemberOf;
    assert HasCopy(Crate, copies, "rand");
    assert "rand" !in ["app"];
  }

  /** With my-lib on the runtime side and criterion on the other, the dash in my-lib loses it. */
  lemma ExampleIsDevOnly(e: Edges, present: set<string>, roots: seq<string>, root: seq<string>, rootDev: seq<string>)
    requires WellFormed(e, Crate) &&
             CargoLock.LoadedCargo(e, present, roots, CargoLock.Flushed(ExampleBlocks(), false, []))
    requires (forall x :: x in root <==> x == "my-lib") && forall x :: x in rootDev <==> x == "criterion"
    ensures OutsideRuntime(e, root, rootDev, "rand") && Reaches(e, "my_lib", "rand")
  {
    hide Key, ExampleBlocks, CargoLock.LoadedCargo, CargoLock.Flushed, WellFormed, Reaches;
    ExampleKeys();
    ExampleMembers();
    ExampleGraph(e, present, roots);
    ReachesSelf(e, "criterion");
    ReachesStep(e, "criterion", "criterion", "rand");
    ReachesSelf(e, "my_lib");
    ReachesStep(e, "my_lib", "my_lib", "rand");
    RespelledReachesNothing(e, Crate, "my-lib", "rand");
  }

  lemma ExampleDeclares()
    ensures forall x :: CargoLock.DevDeclared(Crate, ["my-lib"], ["criterion"], x) <==> x == "criterion"
    ensures forall x :: CargoLock.DevDeclared(Crate, [], ["my-lib", "criterion"], x) <==>
                        x == "my_lib" || x == "criterion"
  {
    ExampleKeys();
    hide Key;
    var dev := ["my-lib", "criterion"];
    assert "criterion" in ["criterion"] && "my-lib" in ["my-lib"] && dev[0] in dev && dev[1] in dev;
    assert "criterion"[0] != "my_lib"[0];
  }

  /** Cargo roots keep the spelling of the lockfile, so the loaded graph calls rand dev-only although the runtime
      dependency my-lib uses it. */
  lemma CargoHidesRuntimePackage(e: Edges, present: set<string>, roots: seq<string>, root: seq<string>,
                                 rootDev: seq<string>)
    requires WellFormed(e, Crate) &&
             CargoLock.LoadedCargo(e, present, roots, CargoLock.Flushed(ExampleBlocks(), false, []))
    requires forall x :: x in root <==> x in roots && !CargoLock.DevDeclared(Crate, ["my-lib"], ["criterion"], x)
    requires forall x :: x in rootDev <==> x in roots && CargoLock.DevDeclared(Crate, ["my-lib"], ["criterion"], x)
    ensures OutsideRuntime(e, root, rootDev, "rand")
    ensures NeededAtRunTime(e, Crate, roots, ["my-lib"], ["criterion"], "rand")
  {
    ExampleDeclares();
    ExampleKeys();
    ExampleMembers();
    hide Key, ExampleBlocks, CargoLock.LoadedCargo, CargoLock.Flushed, CargoLock.DevDeclared, WellFormed, Reaches;
    ExampleGraph(e, present, roots);
    ExampleIsDevOnly(e, present, roots, root, rootDev);
    assert RuntimeRoot(Crate, roots, ["my-lib"], ["criterion"], "my-lib") by { assert "my_lib"[0] != "criterion"[0]; }
  }
}
