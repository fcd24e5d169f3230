/** poetry.lock: one package per block, names by PEP 503, section "Normalized Names". */
module PoetryLock {
  import opened Options
  import opened Text
  import opened Paths
  import opened DepGraphs
  import opened Quotient

  /** dev is what the block's category or groups line says, if it has one. */
  datatype Package = Package(name: string, dev: Option<bool>, deps: seq<string>)

  function Copies(packages: seq<Package>): seq<Copy> {
    seq(|packages|, i requires 0 <= i < |packages| =>
      Unaliased(packages[i].name, packages[i].dev == Some(true), packages[i].deps))
  }

  predicate Says(p: Package, k: string, dev: bool) { Key(Python, p.name) == k && p.dev == Some(dev) }

  /** The last block of the name that says anything. */
  function LastFlag(packages: seq<Package>, k: string): Option<bool> {
    if packages == [] then None
    else
      var p := packages[|packages| - 1];
      if Key(Python, p.name) == k && p.dev.Some? then p.dev else LastFlag(packages[..|packages| - 1], k)
  }

  ghost predicate SomeSays(packages: seq<Package>, k: string, dev: bool) {
    exists p :: p in packages && Says(p, k, dev)
  }

  ghost predicate LastFlags(devOnly: map<string, bool>, packages: seq<Package>) {
    forall k :: LastFlag(packages, k) == if k in devOnly then Some(devOnly[k]) else None
  }

  method AddPackage(g: DepGraph, p: Package, ghost done: seq<Package>)
    requires g.Valid() && g.norm == Python && Recorded(g.edges, g.present, Python, Copies(done))
    modifies g`edges, g`present
    ensures g.Valid() && Recorded(g.edges, g.present, Python, Copies(done + [p]))
  {
    ghost var e, present := g.edges, g.present;
    ghost var c := Unaliased(p.name, p.dev == Some(true), p.deps);
    g.Add(p.name, p.deps);
    RecordOne(e, present, g.edges, g.present, Python, Copies(done), c);
    assert Copies(done + [p]) == Copies(done) + [c];
  }

  method ParsePoetryLock(packages: seq<Package>, cap: nat) returns (g: DepGraph)
    ensures fresh(g) && g.Valid() && g.cap == cap && g.norm == Python && g.hasEdges && !g.rootKnown && !g.devSplit
    ensures g.root == [] && g.rootDev == []
    ensures Recorded(g.edges, g.present, Python, Copies(packages))
    ensures LastFlags(g.devOnlyFlag, packages)
    ensures forall k :: k in g.devOnlyFlag && g.devOnlyFlag[k] && SomeSays(packages, k, false) <==>
            Overwritten(packages, k)
    ensures g.devFlags <==> exists p :: p in packages && p.dev.Some?
  {
    hide Key, WellFormed;
    g := new DepGraph(Python, cap);
    g.hasEdges := true;
    for i := 0 to |packages|
      invariant g.hasEdges && !g.rootKnown && !g.devSplit && g.root == [] && g.rootDev == []
      invariant g.Valid() && Recorded(g.edges, g.present, Python, Copies(packages[..i]))
      invariant LastFlags(g.devOnlyFlag, packages[..i])
      invariant g.devFlags <==> exists p :: p in packages[..i] && p.dev.Some?
    {
      var p := packages[i];
      ghost var done := packages[..i];
      assert packages[..i + 1] == done + [p];
      AddPackage(g, p, done);
      FlagLast(g.devOnlyFlag, done, p);
      hide Recorded, LastFlags, Copies;
      if p.dev.Some? {
        assert p in done + [p];
        g.devFlags := true;
        g.devOnlyFlag := g.devOnlyFlag[Key(Python, p.name) := p.dev.value];
      }
    }
    assert packages[..|packages|] == packages;
    hide LastFlags, SomeSays, Overwritten;
    FlaggedThoughSaid(g.devOnlyFlag, packages);
  }

  lemma CopyOfBlock(packages: seq<Package>, c: Copy)
    ensures c in Copies(packages) <==>
            exists p :: p in packages && c == Unaliased(p.name, p.dev == Some(true), p.deps)
  {
    if c in Copies(packages) {
      var i :| 0 <= i < |Copies(packages)| && Copies(packages)[i] == c;
      assert packages[i] in packages;
    }
    if p :| p in packages && c == Unaliased(p.name, p.dev == Some(true), p.deps) {
      var i :| 0 <= i < |packages| && packages[i] == p;
      assert Copies(packages)[i] == c;
    }
  }

  /** The loaded graph, block by block. */
  lemma BlocksExactly(e: Edges, present: set<string>, packages: seq<Package>)
    requires Recorded(e, present, Python, Copies(packages))
    ensures forall k :: k in present <==> exists p :: p in packages && Key(Python, p.name) == k
    ensures forall x, y :: Linked(e, x, y) <==>
            && x != y && y != ""
            && exists p, d :: p in packages && d in p.deps && Key(Python, p.name) == x && Key(Python, d) == y
  {
    forall c { CopyOfBlock(packages, c); }
    hide Copies, Key, Linked;
    forall k ensures HasCopy(Python, Copies(packages), k) <==> exists p :: p in packages && Key(Python, p.name) == k {
      if p :| p in packages && Key(Python, p.name) == k {
        assert Unaliased(p.name, p.dev == Some(true), p.deps) in Copies(packages);
      }
    }
    forall x, y
      ensures SomeCopyDepends(Python, Copies(packages), x, y) <==>
              exists p, d :: p in packages && d in p.deps && Key(Python, p.name) == x && Key(Python, d) == y
    {
      if p, d :| p in packages && d in p.deps && Key(Python, p.name) == x && Key(Python, d) == y {
        var c := Unaliased(p.name, p.dev == Some(true), p.deps);
        assert c in Copies(packages) && DependsOn(Python, c, x, y);
      }
    }
  }

  /** A package is flagged dev-only although some block says runtime exactly when a later block overwrote that. */
  lemma FlaggedThoughSaid(devOnly: map<string, bool>, packages: seq<Package>)
    requires LastFlags(devOnly, packages)
    ensures forall k :: k in devOnly && devOnly[k] && SomeSays(packages, k, false) <==> Overwritten(packages, k)
  {
    forall k ensures LastFlag(packages, k) == Some(true) && SomeSays(packages, k, false) <==> Overwritten(packages, k) {
      RuntimeIsHiddenByRepetition(packages, k);
    }
    hide SomeSays, Overwritten, LastFlag;
  }

  lemma FlagLast(devOnly: map<string, bool>, packages: seq<Package>, p: Package)
    requires LastFlags(devOnly, packages)
    ensures LastFlags(if p.dev.Some? then devOnly[Key(Python, p.name) := p.dev.value] else devOnly, packages + [p])
  {
    hide Key;
    assert (packages + [p])[..|packages|] == packages;
  }

  /** The split by pyproject.toml; a manifest without dependencies changes nothing. */
  method RootFromManifest(g: DepGraph, runtime: seq<string>, dev: seq<string>)
    modifies g`root, g`rootDev, g`rootKnown, g`devSplit
    ensures runtime + dev == [] ==> g.root == old(g.root) && g.rootDev == old(g.rootDev)
    ensures runtime + dev == [] ==> g.rootKnown == old(g.rootKnown) && g.devSplit == old(g.devSplit)
    ensures runtime + dev != [] ==>
              && g.rootKnown && g.devSplit
              && (forall x :: x in g.root <==> Names(g.norm, runtime, x))
              && (forall x :: x in g.rootDev <==> Names(g.norm, dev, x) && !Names(g.norm, runtime, x))
  {
    if runtime + dev == [] { return; }
    g.root := MapKeys(g.norm, runtime);
    g.rootDev := Minus(MapKeys(g.norm, dev), g.root);
    g.rootKnown, g.devSplit := true, true;
  }

  /** A block of the name says runtime, a later one says dev, and no block after that says runtime again. */
  ghost predicate Overwritten(packages: seq<Package>, k: string) {
    exists i, j :: 0 <= i < j < |packages| && Says(packages[i], k, false) && DevFromHere(packages, k, j)
  }

  ghost predicate DevFromHere(packages: seq<Package>, k: string, j: nat) {
    && j < |packages| && Says(packages[j], k, true)
    && forall l :: j < l < |packages| ==> !Says(packages[l], k, false)
  }

  lemma {:induction false} LastFlagAt(packages: seq<Package>, k: string)
    ensures LastFlag(packages, k) == Some(true) <==> exists j :: DevFromHere(packages, k, j)
  {
    hide Key;
    if packages != [] {
      var n := |packages| - 1;
      LastFlagAt(packages[..n], k);
      if Key(Python, packages[n].name) == k && packages[n].dev.Some? {
        if packages[n].dev.value { assert DevFromHere(packages, k, n); }
      } else {
        if j :| DevFromHere(packages[..n], k, j) { assert DevFromHere(packages, k, j); }
        if j :| DevFromHere(packages, k, j) { assert DevFromHere(packages[..n], k, j); }
      }
    }
  }

  /** The loader calls a package dev-only although some copy of it is for runtime exactly when a later block of the same
      name overwrites the runtime flag. */
  lemma RuntimeIsHiddenByRepetition(packages: seq<Package>, k: string)
    ensures LastFlag(packages, k) == Some(true) && SomeSays(packages, k, false) <==> Overwritten(packages, k)
  {
    hide Key, LastFlag;
    LastFlagAt(packages, k);
    if LastFlag(packages, k) == Some(true) && SomeSays(packages, k, false) {
      var j :| DevFromHere(packages, k, j);
      var p :| p in packages && Says(p, k, false);
      var i :| 0 <= i < |packages| && packages[i] == p;
      assert i < j;
    }
    if Overwritten(packages, k) {
      var i, j :| 0 <= i < j < |packages| && Says(packages[i], k, false) && DevFromHere(packages, k, j);
      assert packages[i] in packages;
    }
  }

  function TwoBlocks(): seq<Package> { [Package("a", Some(false), []), Package("A", Some(true), [])] }

  /** Such a file. */
  lemma RepetitionHidesRuntime()
    ensures Key(Python, "a") == "a" && LastFlag(TwoBlocks(), "a") == Some(true) && SomeSays(TwoBlocks(), "a", false)
  {
    var packages := TwoBlocks();
    assert Key(Python, "A") == Lower(Collapse("A")) == "a" by { assert Collapse("A") == "A" + Collapse(""); }
    assert Key(Python, "a") == "a" by { assert Collapse("a") == "a" + Collapse(""); }
    assert Says(packages[0], "a", false) && packages[0] in packages;
  }
}

/** Pipfile.lock: a runtime and a development section, without edges. */
module PipfileLock {
  import opened Text
  import opened DepGraphs

  ghost predicate Spells(names: set<string>, k: string) {
    exists n :: n in names && Key(Python, n) == k
  }

  method AddRuntime(g: DepGraph, runtime: set<string>)
    requires g.Valid() && g.norm == Python && g.edges == map[] && g.present == {} && g.devOnlyFlag == map[]
    modifies g`edges, g`present, g`devOnlyFlag
    ensures g.Valid() && g.edges == map[] && forall k :: k in g.present <==> Spells(runtime, k)
    ensures g.devOnlyFlag.Keys == g.present && forall k :: k in g.devOnlyFlag ==> !g.devOnlyFlag[k]
  {
    NoneSpelled();
    hide Key, WellFormed, Spells;
    var names := runtime;
    assert runtime - runtime == {};
    while names != {}
      invariant names <= runtime && g.Valid() && g.edges == map[]
      invariant forall k :: k in g.present <==> Spells(runtime - names, k)
      invariant g.devOnlyFlag.Keys == g.present && forall k :: k in g.devOnlyFlag ==> !g.devOnlyFlag[k]
    {
      var n :| n in names;
      SpellsOneMore(runtime - names, n);
      assert runtime - (names - {n}) == (runtime - names) + {n};
      names := names - {n};
      g.AddName(n);
      g.devOnlyFlag := g.devOnlyFlag[Key(Python, n) := false];
    }
    assert runtime - {} == runtime;
  }

  method AddDevelop(g: DepGraph, runtime: set<string>, develop: set<string>)
    requires g.Valid() && g.norm == Python && g.edges == map[] && forall k :: k in g.present <==> Spells(runtime, k)
    requires g.devOnlyFlag.Keys == g.present && forall k :: k in g.devOnlyFlag ==> !g.devOnlyFlag[k]
    modifies g`edges, g`present, g`devOnlyFlag
    ensures g.Valid() && g.edges == map[] && forall k :: k in g.present <==> Spells(runtime, k) || Spells(develop, k)
    ensures g.devOnlyFlag.Keys == g.present
    ensures forall k :: k in g.devOnlyFlag ==> (g.devOnlyFlag[k] <==> Spells(develop - runtime, k))
  {
    NoneSpelled();
    hide Key, WellFormed, Spells;
    var names := develop;
    assert develop - develop == {} && {} - runtime == {};
    while names != {}
      invariant names <= develop && g.Valid() && g.edges == map[]
      invariant forall k :: k in g.present <==> Spells(runtime, k) || Spells(develop - names, k)
      invariant g.devOnlyFlag.Keys == g.present
      invariant forall k :: k in g.devOnlyFlag ==> (g.devOnlyFlag[k] <==> Spells((develop - names) - runtime, k))
    {
      var n :| n in names;
      SpellsOneMore(develop - names, n);
      SpellsOneMore((develop - names) - runtime, n);
      assert develop - (names - {n}) == (develop - names) + {n};
      assert (develop - (names - {n})) - runtime ==
             if n in runtime then (develop - names) - runtime else ((develop - names) - runtime) + {n};
      names := names - {n};
      g.AddName(n);
      if n !in runtime {
        g.devOnlyFlag := g.devOnlyFlag[Key(Python, n) := true];
      } else {
        SpelledByMember(runtime, n);
      }
    }
    assert develop - {} == develop;
  }

  /** The loader compares the two sections' names as written. */
  method ParsePipfileLock(runtime: set<string>, develop: set<string>, cap: nat) returns (g: DepGraph)
    ensures fresh(g) && g.Valid() && g.cap == cap && g.norm == Python && g.devFlags && !g.hasEdges && !g.rootKnown
    ensures g.edges == map[] && g.root == [] && g.rootDev == [] && !g.devSplit
    ensures forall k :: k in g.present <==> Spells(runtime, k) || Spells(develop, k)
    ensures forall k :: k in g.devOnlyFlag <==> k in g.present
    ensures forall k :: k in g.devOnlyFlag ==> (g.devOnlyFlag[k] <==> Spells(develop - runtime, k))
    ensures forall k :: k in g.devOnlyFlag && g.devOnlyFlag[k] && Spells(runtime, k) <==>
            SpelledTwoWays(runtime, develop, k)
  {
    hide Key, WellFormed, Spells, SpelledTwoWays;
    g := new DepGraph(Python, cap);
    g.devFlags := true;
    AddRuntime(g, runtime);
    AddDevelop(g, runtime, develop);
    FlaggedThoughRuntime(g.devOnlyFlag, g.present, runtime, develop);
  }

  /** A runtime package is flagged dev-only exactly when the two sections spell it differently. */
  lemma FlaggedThoughRuntime(devOnly: map<string, bool>, present: set<string>, runtime: set<string>,
                             develop: set<string>)
    requires forall k :: k in present <==> Spells(runtime, k) || Spells(develop, k)
    requires forall k :: k in devOnly <==> k in present
    requires forall k :: k in devOnly ==> (devOnly[k] <==> Spells(develop - runtime, k))
    ensures forall k :: k in devOnly && devOnly[k] && Spells(runtime, k) <==> SpelledTwoWays(runtime, develop, k)
  {
    forall k ensures Spells(develop - runtime, k) && Spells(runtime, k) <==> SpelledTwoWays(runtime, develop, k) {
      RuntimeIsHiddenBySpelling(runtime, develop, k);
    }
    hide Spells, SpelledTwoWays;
  }

  /** The split by the Pipfile. */
  method RootFromManifest(g: DepGraph, packages: seq<string>, devPackages: seq<string>)
    requires g.root == [] && g.rootDev == []
    modifies g`root, g`rootDev, g`rootKnown, g`devSplit
    ensures g.rootKnown && g.devSplit
    ensures forall x :: x in g.root <==> x != "" && Names(g.norm, packages, x)
    ensures forall x :: x in g.rootDev <==> x != "" && Names(g.norm, devPackages, x) && x !in g.root
  {
    g.root := AppendUniqueAll([], MapKeys(g.norm, packages));
    g.rootDev := AppendUniqueAll([], MapKeys(g.norm, devPackages));
    g.rootDev := Minus(g.rootDev, g.root);
    g.rootKnown, g.devSplit := true, true;
  }

  lemma NoneSpelled()
    ensures forall k :: !Spells({}, k)
  {
  }

  lemma SpelledByMember(names: set<string>, n: string)
    requires n in names
    ensures Spells(names, Key(Python, n))
  {
  }

  lemma SpellsOneMore(names: set<string>, n: string)
    ensures forall k :: Spells(names + {n}, k) <==> Spells(names, k) || k == Key(Python, n)
  {
    hide Key;
    forall k ensures Spells(names + {n}, k) <==> Spells(names, k) || k == Key(Python, n) {
      if k == Key(Python, n) { assert n in names + {n}; }
      if Spells(names, k) {
        var x :| x in names && Key(Python, x) == k;
        assert x in names + {n};
      }
    }
  }

  /** One package, spelled in the development section as it is nowhere in the runtime section. */
  ghost predicate SpelledTwoWays(runtime: set<string>, develop: set<string>, k: string) {
    exists r, d :: r in runtime && d in develop && d !in runtime && Key(Python, r) == k && Key(Python, d) == k
  }

  lemma RuntimeIsHiddenBySpelling(runtime: set<string>, develop: set<string>, k: string)
    ensures Spells(develop - runtime, k) && Spells(runtime, k) <==> SpelledTwoWays(runtime, develop, k)
  {
    hide Key;
    if Spells(develop - runtime, k) && Spells(runtime, k) {
      var d :| d in develop - runtime && Key(Python, d) == k;
      var r :| r in runtime && Key(Python, r) == k;
      assert SpelledTwoWays(runtime, develop, k);
    }
    if SpelledTwoWays(runtime, develop, k) {
      var r, d :| r in runtime && d in develop && d !in runtime && Key(Python, r) == k && Key(Python, d) == k;
      assert d in develop - runtime;
    }
  }

  /** Such a file. */
  lemma SpellingHidesRuntime()
    ensures Key(Python, "a") == "a" && SpelledTwoWays({"a"}, {"A"}, "a") && Spells({"a"}, "a")
  {
    assert Key(Python, "A") == "a" by { assert Collapse("A") == "A" + Collapse(""); }
    assert Key(Python, "a") == "a" by { assert Collapse("a") == "a" + Collapse(""); }
    assert "A"[0] != "a"[0];
  }
}
