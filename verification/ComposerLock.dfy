/** composer.lock and the dependency split of composer.json. */
module ComposerLock {
  import opened Text
  import opened Paths
  import opened DepGraphs
  import opened Quotient

  datatype Package = Package(name: string, require_: seq<string>)

  /** Platform requirements such as php and ext-json are not packages. */
  predicate IsPackage(name: string) { '/' in name && !HasPrefix(name, "composer-") }

  function Deps(require_: seq<string>): (r: seq<string>)
    ensures forall d :: d in r <==> d in require_ && IsPackage(d)
  {
    if require_ == [] then []
    else
      assert require_ == require_[..|require_| - 1] + [require_[|require_| - 1]];
      Deps(require_[..|require_| - 1]) + if IsPackage(require_[|require_| - 1]) then [require_[|require_| - 1]] else []
  }

  /** A required name is a dependency when it has a vendor, and is none of Composer's own. */
  lemma DependencyExactly(require_: seq<string>, d: string)
    ensures d in Deps(require_) <==> d in require_ && (exists i :: 0 <= i < |d| && d[i] == '/') && !("composer-" <= d)
  {
    PrefixExactly(d, "composer-");
  }

  function Copies(packages: seq<Package>, dev: bool): seq<Copy> {
    seq(|packages|, i requires 0 <= i < |packages| => Unaliased(packages[i].name, dev, Deps(packages[i].require_)))
  }

  lemma CopyOfPackage(packages: seq<Package>, dev: bool, c: Copy)
    ensures c in Copies(packages, dev) <==> exists p :: p in packages && c == Unaliased(p.name, dev, Deps(p.require_))
  {
    if c in Copies(packages, dev) {
      var i :| 0 <= i < |Copies(packages, dev)| && Copies(packages, dev)[i] == c;
      assert packages[i] in packages;
    }
    if p :| p in packages && c == Unaliased(p.name, dev, Deps(p.require_)) {
      var i :| 0 <= i < |packages| && packages[i] == p;
      assert Copies(packages, dev)[i] == c;
    }
  }

  /** The loaded graph and its flags, package by package of both lists: a name is flagged when only the development list
      has it. */
  lemma PackagesExactly(e: Edges, present: set<string>, devOnly: map<string, bool>, required: seq<Package>,
                        requiredDev: seq<Package>)
    requires Recorded(e, present, LowerCase, Copies(required, false) + Copies(requiredDev, true))
    requires FlagsAllDev(LowerCase, devOnly, Copies(required, false) + Copies(requiredDev, true))
    ensures forall k :: k in present <==> exists p :: (p in required || p in requiredDev) && Key(LowerCase, p.name) == k
    ensures forall k :: k in devOnly <==> k in present
    ensures forall k :: k in devOnly ==> (devOnly[k] <==> !exists p :: p in required && Key(LowerCase, p.name) == k)
    ensures forall x, y :: Linked(e, x, y) <==>
            && x != y && y != ""
            && exists p, d :: (p in required || p in requiredDev) && d in p.require_ && IsPackage(d) &&
                              Key(LowerCase, p.name) == x && Key(LowerCase, d) == y
  {
    var copies := Copies(required, false) + Copies(requiredDev, true);
    CopiesOfBoth(required, requiredDev);
    hide Copies, Key, Linked, Deps, IsPackage, HasCopy, SomeCopyDepends, AllDev;
    PresentAndFlagged(required, requiredDev, copies);
    forall x, y { DependsOfBoth(required, requiredDev, copies, x, y); }
  }

  /** The copies are those of the packages of both lists. */
  ghost predicate OfBoth(required: seq<Package>, requiredDev: seq<Package>, copies: seq<Copy>) {
    forall c :: c in copies <==>
      || (exists p :: p in required && c == Unaliased(p.name, false, Deps(p.require_)))
      || exists p :: p in requiredDev && c == Unaliased(p.name, true, Deps(p.require_))
  }

  lemma CopiesOfBoth(required: seq<Package>, requiredDev: seq<Package>)
    ensures OfBoth(required, requiredDev, Copies(required, false) + Copies(requiredDev, true))
  {
    forall c { CopyOfPackage(required, false, c); }
    forall c { CopyOfPackage(requiredDev, true, c); }
    hide Copies, Deps;
  }

  lemma DependsOfBoth(required: seq<Package>, requiredDev: seq<Package>, copies: seq<Copy>, x: string, y: string)
    requires OfBoth(required, requiredDev, copies)
    ensures SomeCopyDepends(LowerCase, copies, x, y) <==>
            exists p, d :: (p in required || p in requiredDev) && d in p.require_ && IsPackage(d) &&
                           Key(LowerCase, p.name) == x && Key(LowerCase, d) == y
  {
    hide Key, IsPackage;
    if p, d :| (p in required || p in requiredDev) && d in p.require_ && IsPackage(d) && Key(LowerCase, p.name) == x &&
               Key(LowerCase, d) == y {
      var c := Unaliased(p.name, p !in required, Deps(p.require_));
      assert d in c.deps && c in copies && DependsOn(LowerCase, c, x, y);
    }
    if c :| c in copies && DependsOn(LowerCase, c, x, y) {
      var d :| d in c.deps && Key(LowerCase, d) == y;
    }
  }

  lemma PresentAndFlagged(required: seq<Package>, requiredDev: seq<Package>, copies: seq<Copy>)
    requires OfBoth(required, requiredDev, copies)
    ensures forall k :: HasCopy(LowerCase, copies, k) <==>
            exists p :: (p in required || p in requiredDev) && Key(LowerCase, p.name) == k
    ensures forall k :: AllDev(LowerCase, copies, k) <==> !exists p :: p in required && Key(LowerCase, p.name) == k
  {
    hide Key, Deps;
    forall p | p in required ensures Unaliased(p.name, false, Deps(p.require_)) in copies {}
    forall p | p in requiredDev ensures Unaliased(p.name, true, Deps(p.require_)) in copies {}
  }

  method AddPackage(g: DepGraph, p: Package, dev: bool, ghost copies: seq<Copy>)
    requires g.Valid() && g.norm == LowerCase && Recorded(g.edges, g.present, LowerCase, copies) &&
             FlagsAllDev(LowerCase, g.devOnlyFlag, copies)
    modifies g`edges, g`present, g`devOnlyFlag
    ensures g.Valid()
    ensures Recorded(g.edges, g.present, LowerCase, copies + [Unaliased(p.name, dev, Deps(p.require_))])
    ensures FlagsAllDev(LowerCase, g.devOnlyFlag, copies + [Unaliased(p.name, dev, Deps(p.require_))])
  {
    ghost var e, present := g.edges, g.present;
    ghost var c := Unaliased(p.name, dev, Deps(p.require_));
    g.Add(p.name, Deps(p.require_));
    RecordOne(e, present, g.edges, g.present, LowerCase, copies, c);
    FlagOne(g.devOnlyFlag, copies, c);
    var k := Key(LowerCase, p.name);
    if dev {
      if k !in g.devOnlyFlag {
        g.devOnlyFlag := g.devOnlyFlag[k := true];
      }
    } else {
      g.devOnlyFlag := g.devOnlyFlag[k := false];
    }
  }

  method AddPackages(g: DepGraph, packages: seq<Package>, dev: bool, ghost before: seq<Copy>)
    requires g.Valid() && g.norm == LowerCase && Recorded(g.edges, g.present, LowerCase, before) &&
             FlagsAllDev(LowerCase, g.devOnlyFlag, before)
    modifies g`edges, g`present, g`devOnlyFlag
    ensures g.Valid()
    ensures Recorded(g.edges, g.present, LowerCase, before + Copies(packages, dev))
    ensures FlagsAllDev(LowerCase, g.devOnlyFlag, before + Copies(packages, dev))
  {
    ghost var copies := before;
    for i := 0 to |packages|
      invariant copies == before + Copies(packages[..i], dev)
      invariant g.Valid() && Recorded(g.edges, g.present, LowerCase, copies) &&
                FlagsAllDev(LowerCase, g.devOnlyFlag, copies)
    {
      AddPackage(g, packages[i], dev, copies);
      CopiesStep(before, packages, dev, i);
      copies := copies + [Unaliased(packages[i].name, dev, Deps(packages[i].require_))];
    }
    assert packages[..|packages|] == packages;
  }

  lemma CopiesStep(before: seq<Copy>, packages: seq<Package>, dev: bool, i: nat)
    requires i < |packages|
    ensures before + Copies(packages[..i + 1], dev) ==
            before + Copies(packages[..i], dev) + [Unaliased(packages[i].name, dev, Deps(packages[i].require_))]
  {
  }

  lemma FlagOne(devOnly: map<string, bool>, copies: seq<Copy>, c: Copy)
    requires FlagsAllDev(LowerCase, devOnly, copies)
    ensures var k := Key(LowerCase, c.name);
            FlagsAllDev(LowerCase, if c.dev && k in devOnly then devOnly else devOnly[k := c.dev], copies + [c])
  {
    hide Key;
    var k, more := Key(LowerCase, c.name), copies + [c];
    assert c in more;
    forall x ensures x in more <==> x in copies || x == c {}
    forall j | HasCopy(LowerCase, copies, j) ensures HasCopy(LowerCase, more, j) {
      var x :| x in copies && Key(LowerCase, x.name) == j;
      assert x in more;
    }
  }

  /** Runtime wins: a package listed both ways is not dev-only. */
  method ParseComposerLock(packages: seq<Package>, packagesDev: seq<Package>, cap: nat) returns (g: DepGraph)
    ensures fresh(g) && g.Valid() && g.cap == cap && g.norm == LowerCase && g.hasEdges && g.devFlags && !g.rootKnown
    ensures g.root == [] && g.rootDev == [] && !g.devSplit
    ensures Recorded(g.edges, g.present, LowerCase, Copies(packages, false) + Copies(packagesDev, true))
    ensures FlagsAllDev(LowerCase, g.devOnlyFlag, Copies(packages, false) + Copies(packagesDev, true))
  {
    g := new DepGraph(LowerCase, cap);
    g.hasEdges, g.devFlags := true, true;
    AddPackages(g, packages, false, []);
    assert [] + Copies(packages, false) == Copies(packages, false);
    AddPackages(g, packagesDev, true, Copies(packages, false));
  }

  method RootFromManifest(g: DepGraph, require_: seq<string>, requireDev: seq<string>)
    requires g.root == [] && g.rootDev == []
    modifies g`root, g`rootDev, g`rootKnown, g`devSplit
    ensures g.rootKnown && g.devSplit && NoDup(g.root) && NoDup(g.rootDev)
    ensures forall x :: x in g.root <==> x != "" && Names(g.norm, Deps(require_), x)
    ensures forall x :: x in g.rootDev <==> x != "" && Names(g.norm, Deps(requireDev), x) && x !in g.root
  {
    var runtime, dev := Deps(require_), Deps(requireDev);
    assert forall x :: !Names(g.norm, [], x);
    hide Names, Key;
    for i := 0 to |runtime|
      invariant NoDup(g.root) && g.rootDev == []
      invariant forall x :: x in g.root <==> x != "" && Names(g.norm, runtime[..i], x)
    {
      NamesStep(g.norm, runtime, i);
      g.root := AppendUnique(g.root, Key(g.norm, runtime[i]));
    }
    assert runtime[..|runtime|] == runtime;
    for i := 0 to |dev|
      invariant NoDup(g.root) && NoDup(g.rootDev)
      invariant forall x :: x in g.root <==> x != "" && Names(g.norm, runtime, x)
      invariant forall x :: x in g.rootDev <==> x != "" && Names(g.norm, dev[..i], x) && x !in g.root
    {
      NamesStep(g.norm, dev, i);
      if Key(g.norm, dev[i]) !in g.root {
        g.rootDev := AppendUnique(g.rootDev, Key(g.norm, dev[i]));
      }
    }
    assert dev[..|dev|] == dev;
    g.rootKnown, g.devSplit := true, true;
  }

  lemma NamesStep(norm: Norm, names: seq<string>, i: nat)
    requires i < |names|
    ensures forall x :: Names(norm, names[..i + 1], x) <==> Names(norm, names[..i], x) || x == Key(norm, names[i])
  {
    var more := names[..i + 1];
    assert more == names[..i] + [names[i]];
    forall d ensures d in more <==> d in names[..i] || d == names[i] {}
    forall x ensures Names(norm, more, x) <==> Names(norm, names[..i], x) || x == Key(norm, names[i]) {
      if Names(norm, names[..i], x) {
        var d :| d in names[..i] && Key(norm, d) == x;
        assert d in more;
      }
    }
  }
}
