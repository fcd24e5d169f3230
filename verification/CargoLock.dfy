/** Cargo.lock and the dependency split of Cargo.toml. */
module CargoLock {
  import opened Text
  import opened Paths
  import opened DepGraphs
  import opened Quotient

  /** One [[package]] block; a workspace member has no source line. */
  datatype Block = Block(name: string, hasSource: bool, deps: seq<string>)

  /** A block without a name leaves its lines to the block after it. */
  function Flushed(blocks: seq<Block>, hasSource: bool, deps: seq<string>): seq<Block>
    decreases |blocks|
  {
    if blocks == [] then []
    else
      var b := blocks[0];
      var src, ds := hasSource || b.hasSource, deps + b.deps;
      if b.name == "" then Flushed(blocks[1..], src, ds)
      else [Block(b.name, src, ds)] + Flushed(blocks[1..], false, [])
  }

  function Copies(blocks: seq<Block>): seq<Copy> {
    seq(|blocks|, i requires 0 <= i < |blocks| => Unaliased(blocks[i].name, false, blocks[i].deps))
  }

  function Members(blocks: seq<Block>): seq<string> {
    if blocks == [] then []
    else
      var b := blocks[|blocks| - 1];
      Members(blocks[..|blocks| - 1]) + if b.hasSource then [] else [Key(Crate, b.name)]
  }

  /** The dependency list kept for a workspace member: the last block of its name wins. */
  function MemberOf(blocks: seq<Block>): map<string, seq<string>> {
    if blocks == [] then map[]
    else
      var b := blocks[|blocks| - 1];
      var m := MemberOf(blocks[..|blocks| - 1]);
      if b.hasSource then m else m[Key(Crate, b.name) := b.deps]
  }

  function AllDeps(blocks: seq<Block>): seq<string> {
    if blocks == [] then [] else blocks[0].deps + AllDeps(blocks[1..])
  }

  /** Blocks without a name lend their source line and their dependencies to the named block after them, and are lost
      without one. */
  lemma {:induction false} FlushedExactly(nameless: seq<Block>, b: Block, rest: seq<Block>, hasSource: bool,
                                          deps: seq<string>)
    requires (forall x :: x in nameless ==> x.name == "") && b.name != ""
    ensures Flushed(nameless, hasSource, deps) == []
    ensures Flushed(nameless + [b] + rest, hasSource, deps) ==
            [Block(b.name, hasSource || b.hasSource || exists x :: x in nameless && x.hasSource,
                   deps + AllDeps(nameless) + b.deps)] +
            Flushed(rest, false, [])
    decreases |nameless|
  {
    var all := nameless + [b] + rest;
    if nameless == [] {
      assert all[0] == b && all[1..] == rest;
      assert deps + [] + b.deps == deps + b.deps;
    } else {
      var x, more := nameless[0], nameless[1..];
      assert nameless == [x] + more && all[0] == x && all[1..] == more + [b] + rest;
      FlushedExactly(more, b, rest, hasSource || x.hasSource, deps + x.deps);
      assert deps + (x.deps + AllDeps(more)) + b.deps == (deps + x.deps) + AllDeps(more) + b.deps;
    }
  }

  /** The last block of a name among those without a source line. */
  ghost predicate LastMember(f: seq<Block>, m: string, i: nat) {
    && i < |f| && !f[i].hasSource && Key(Crate, f[i].name) == m
    && forall j :: i < j < |f| && !f[j].hasSource ==> Key(Crate, f[j].name) != m
  }

  /** The members are the blocks without a source line, by key; of several, the last one's dependencies count. */
  lemma {:induction false} MembersExactly(f: seq<Block>, m: string)
    ensures m in Members(f) <==> exists b :: b in f && !b.hasSource && Key(Crate, b.name) == m
    ensures m in Members(f) <==> m in MemberOf(f)
    ensures forall i: nat :: LastMember(f, m, i) ==> m in MemberOf(f) && MemberOf(f)[m] == f[i].deps
    ensures m in Members(f) ==> exists i: nat :: LastMember(f, m, i)
  {
    hide Key;
    if f != [] {
      var n := |f| - 1;
      assert f == f[..n] + [f[n]];
      MembersExactly(f[..n], m);
      assert forall b :: b in f <==> b in f[..n] || b == f[n];
      if !f[n].hasSource && Key(Crate, f[n].name) == m {
        assert LastMember(f, m, n);
      } else {
        forall i: nat | i < n ensures LastMember(f, m, i) <==> LastMember(f[..n], m, i) {}
        if m in Members(f) {
          var i: nat :| LastMember(f[..n], m, i);
          assert LastMember(f, m, i);
        }
      }
    }
  }

  /** The roots are what the members list, in the last block of each, but for the members themselves. */
  lemma RootsExactly(f: seq<Block>, x: string)
    ensures IsRoot(f, x) <==>
            && x != "" && !(exists b :: b in f && !b.hasSource && Key(Crate, b.name) == x)
            && exists m, i: nat :: LastMember(f, m, i) && x in f[i].deps
  {
    forall m { MembersExactly(f, m); }
    hide Members, MemberOf, Key;
    if m :| m in Members(f) && m in MemberOf(f) && x in MemberOf(f)[m] {
      var i: nat :| LastMember(f, m, i);
      assert x in f[i].deps;
    }
    if m, i: nat :| LastMember(f, m, i) && x in f[i].deps {
      assert f[i] in f;
      assert m in Members(f);
    }
  }

  /** The loaded graph, block by block: what is there, and what depends on what. */
  lemma BlocksExactly(e: Edges, present: set<string>, root: seq<string>, f: seq<Block>)
    requires LoadedCargo(e, present, root, f)
    ensures forall k :: k in present <==> k !in Members(f) && exists b :: b in f && Key(Crate, b.name) == k
    ensures forall x, y :: Linked(e, x, y) <==>
            && x !in Members(f) && x != y && y != ""
            && exists b, d :: b in f && d in b.deps && Key(Crate, b.name) == x && Key(Crate, d) == y
  {
    forall c ensures c in Copies(f) <==> exists b :: b in f && c == Unaliased(b.name, false, b.deps) {
      CopyOfBlock(f, c);
    }
    hide Copies, Members, MemberOf, IsRoot, Key, Linked;
    forall k ensures HasCopy(Crate, Copies(f), k) <==> exists b :: b in f && Key(Crate, b.name) == k {
      if b :| b in f && Key(Crate, b.name) == k { assert Unaliased(b.name, false, b.deps) in Copies(f); }
    }
    forall x, y
      ensures SomeCopyDepends(Crate, Copies(f), x, y) <==>
              exists b, d :: b in f && d in b.deps && Key(Crate, b.name) == x && Key(Crate, d) == y
    {
      if b, d :| b in f && d in b.deps && Key(Crate, b.name) == x && Key(Crate, d) == y {
        var c := Unaliased(b.name, false, b.deps);
        assert c in Copies(f) && DependsOn(Crate, c, x, y);
      }
    }
  }

  lemma CopyOfBlock(f: seq<Block>, c: Copy)
    ensures c in Copies(f) <==> exists b :: b in f && c == Unaliased(b.name, false, b.deps)
  {
    if c in Copies(f) {
      var i :| 0 <= i < |Copies(f)| && Copies(f)[i] == c;
      assert f[i] in f;
    }
    if b :| b in f && c == Unaliased(b.name, false, b.deps) {
      var i :| 0 <= i < |f| && f[i] == b;
      assert Copies(f)[i] == c;
    }
  }

  lemma {:induction false} MembersAreKeys(blocks: seq<Block>)
    ensures forall m :: m in Members(blocks) <==> m in MemberOf(blocks)
    ensures forall m :: m in Members(blocks) ==> HasCopy(Crate, Copies(blocks), m)
  {
    if blocks != [] {
      var n := |blocks| - 1;
      MembersAreKeys(blocks[..n]);
      var c := Copies(blocks)[n];
      assert Copies(blocks) == Copies(blocks[..n]) + [c];
      assert c in Copies(blocks);
      forall m | HasCopy(Crate, Copies(blocks[..n]), m) ensures HasCopy(Crate, Copies(blocks), m) {
        var x :| x in Copies(blocks[..n]) && Key(Crate, x.name) == m;
        assert x in Copies(blocks);
      }
    }
  }

  lemma FlushOne(blocks: seq<Block>, i: nat, hasSrc: bool, deps: seq<string>, done: seq<Block>)
    requires i < |blocks|
    ensures var b := blocks[i];
            var src, ds := hasSrc || b.hasSource, deps + b.deps;
            done + Flushed(blocks[i..], hasSrc, deps) ==
            if b.name == "" then done + Flushed(blocks[i + 1..], src, ds)
            else done + [Block(b.name, src, ds)] + Flushed(blocks[i + 1..], false, [])
  {
    assert blocks[i..][1..] == blocks[i + 1..];
  }

  lemma SnocBlock(done: seq<Block>, b: Block)
    ensures Copies(done + [b]) == Copies(done) + [Unaliased(b.name, false, b.deps)]
    ensures Members(done + [b]) == Members(done) + if b.hasSource then [] else [Key(Crate, b.name)]
    ensures MemberOf(done + [b]) == if b.hasSource then MemberOf(done) else MemberOf(done)[Key(Crate, b.name) := b.deps]
  {
    assert (done + [b])[..|done|] == done;
  }

  method AddBlock(g: DepGraph, b: Block, ghost done: seq<Block>)
    requires g.Valid() && g.norm == Crate && Recorded(g.edges, g.present, Crate, Copies(done))
    modifies g`edges, g`present
    ensures g.Valid() && Recorded(g.edges, g.present, Crate, Copies(done + [b]))
  {
    ghost var e, present := g.edges, g.present;
    g.Add(b.name, b.deps);
    RecordOne(e, present, g.edges, g.present, Crate, Copies(done), Unaliased(b.name, false, b.deps));
    SnocBlock(done, b);
  }

  method ReadBlocks(g: DepGraph, blocks: seq<Block>) returns (members: seq<string>, memberOf: map<string, seq<string>>)
    requires g.Valid() && g.norm == Crate && g.edges == map[] && g.present == {}
    modifies g`edges, g`present
    ensures g.Valid()
    ensures var f := Flushed(blocks, false, []);
            Recorded(g.edges, g.present, Crate, Copies(f)) && members == Members(f) && memberOf == MemberOf(f)
  {
    members, memberOf := [], map[];
    var hasSrc, deps := false, [];
    ghost var done: seq<Block> := [];
    ghost var all := Flushed(blocks, false, []);
    assert blocks[0..] == blocks;
    assert Recorded(g.edges, g.present, Crate, Copies(done)) && Members(done) == [] && MemberOf(done) == map[];
    hide Recorded, Copies, Members, MemberOf, Flushed, WellFormed, Key;
    for i := 0 to |blocks|
      invariant all == done + Flushed(blocks[i..], hasSrc, deps)
      invariant g.Valid() && Recorded(g.edges, g.present, Crate, Copies(done))
      invariant members == Members(done) && memberOf == MemberOf(done)
    {
      var b := blocks[i];
      FlushOne(blocks, i, hasSrc, deps, done);
      hasSrc, deps := hasSrc || b.hasSource, deps + b.deps;
      if b.name == "" { continue; }
      AddBlock(g, Block(b.name, hasSrc, deps), done);
      SnocBlock(done, Block(b.name, hasSrc, deps));
      if !hasSrc {
        members := members + [Key(Crate, b.name)];
        memberOf := memberOf[Key(Crate, b.name) := deps];
      }
      done := done + [Block(b.name, hasSrc, deps)];
      hasSrc, deps := false, [];
    }
    assert blocks[|blocks|..] == [];
    EndFlush(hasSrc, deps);
    assert done + [] == done;
  }

  lemma EndFlush(hasSrc: bool, deps: seq<string>)
    ensures Flushed([], hasSrc, deps) == []
  {
  }

  /** Workspace members are the product: they leave the graph and their dependency names become the roots. */
  method DropMembers(g: DepGraph, members: seq<string>, memberOf: map<string, seq<string>>)
    requires g.root == [] && forall m :: m in members ==> m in memberOf
    modifies g`root, g`edges, g`present
    ensures forall k :: k in g.present <==> k in old(g.present) && k !in members
    ensures forall k :: k in g.edges <==> k in old(g.edges) && k !in members
    ensures forall k :: k in g.edges ==> g.edges[k] == old(g.edges)[k]
    ensures forall x :: x in g.root <==> x != "" && x !in members && Lists(members, memberOf, x)
  {
    for i := 0 to |members|
      invariant forall x :: x in g.root <==> x != "" && Lists(members[..i], memberOf, x)
      invariant forall k :: k in g.present <==> k in old(g.present) && k !in members[..i]
      invariant forall k :: k in g.edges <==> k in old(g.edges) && k !in members[..i]
      invariant forall k :: k in g.edges ==> g.edges[k] == old(g.edges)[k]
    {
      var m := members[i];
      ListsStep(members, memberOf, i);
      g.root := AppendUniqueAll(g.root, memberOf[m]);
      g.edges := g.edges - {m};
      g.present := g.present - {m};
    }
    assert members[..|members|] == members;
    g.root := Minus(g.root, members);
  }

  /** A name some workspace member lists as a dependency. */
  ghost predicate Lists(members: seq<string>, memberOf: map<string, seq<string>>, x: string) {
    exists m :: m in members && m in memberOf && x in memberOf[m]
  }

  lemma ListsStep(members: seq<string>, memberOf: map<string, seq<string>>, i: nat)
    requires i < |members| && members[i] in memberOf
    ensures members[..i + 1] == members[..i] + [members[i]]
    ensures forall x :: Lists(members[..i + 1], memberOf, x) <==>
            Lists(members[..i], memberOf, x) || x in memberOf[members[i]]
  {
    var m, more := members[i], members[..i + 1];
    assert more == members[..i] + [m];
    assert m in more;
    forall x | Lists(members[..i], memberOf, x) ensures Lists(more, memberOf, x) {
      var w :| w in members[..i] && w in memberOf && x in memberOf[w];
      assert w in more;
    }
  }

  lemma MembersDropped(e: Edges, present: set<string>, e': Edges, present': set<string>, root: seq<string>,
                       f: seq<Block>)
    requires Recorded(e, present, Crate, Copies(f))
    requires forall k :: k in present' <==> k in present && k !in Members(f)
    requires forall k :: k in e' <==> k in e && k !in Members(f)
    requires forall k :: k in e' ==> e'[k] == e[k]
    requires forall x :: x in root <==> x != "" && x !in Members(f) && Lists(Members(f), MemberOf(f), x)
    ensures LoadedCargo(e', present', root, f)
  {
    hide Key, Copies, Members, MemberOf, SomeCopyDepends, HasCopy;
    forall a, b ensures Linked(e', a, b) <==> a !in Members(f) && Linked(e, a, b) {}
  }

  method ParseCargoLock(blocks: seq<Block>, cap: nat) returns (g: DepGraph)
    ensures fresh(g) && g.Valid() && g.cap == cap && g.norm == Crate
    ensures g.hasEdges && !g.devFlags && !g.devSplit && g.rootDev == []
    ensures LoadedCargo(g.edges, g.present, g.root, Flushed(blocks, false, []))
    ensures g.rootKnown <==> Members(Flushed(blocks, false, [])) != []
  {
    hide Recorded, LoadedCargo, Flushed, Members, MemberOf, Lists, Copies, HasCopy, Key;
    g := new DepGraph(Crate, cap);
    g.hasEdges := true;
    var members, memberOf := ReadBlocks(g, blocks);
    ghost var f := Flushed(blocks, false, []);
    ghost var e, present := g.edges, g.present;
    MembersAreKeys(f);
    DropMembers(g, members, memberOf);
    MembersDropped(e, present, g.edges, g.present, g.root, f);
    g.rootKnown := |members| > 0;
  }

  ghost predicate LoadedCargo(e: Edges, present: set<string>, root: seq<string>, f: seq<Block>) {
    var members := Members(f);
    && (forall k :: k in present <==> k !in members && HasCopy(Crate, Copies(f), k))
    && (forall a, b :: Linked(e, a, b) <==>
        a !in members && a != b && b != "" && SomeCopyDepends(Crate, Copies(f), a, b))
    && (forall x :: x in root <==> IsRoot(f, x))
  }

  /** A dependency of some workspace member that is no member by that spelling. */
  ghost predicate IsRoot(f: seq<Block>, x: string) {
    x != "" && x !in Members(f) && Lists(Members(f), MemberOf(f), x)
  }

  /** The third-party packages among the blocks, without a loader. */
  function Dependencies(f: seq<Block>): Edges {
    var e := Graph(Crate, Copies(f));
    map a | a in e && a !in Members(f) :: e[a]
  }

  lemma DependencyLinks(f: seq<Block>)
    ensures forall a, b :: Linked(Dependencies(f), a, b) <==>
            a !in Members(f) && a != b && b != "" && SomeCopyDepends(Crate, Copies(f), a, b)
  {
    GraphLinks(Crate, Copies(f));
    hide Graph, Copies, Members, WellFormed, SomeCopyDepends;
  }

  /** Splits the roots by the manifest's runtime and development tables; a workspace manifest or an empty one changes
      nothing. */
  method RootFromManifest(g: DepGraph, workspace: bool, runtime: seq<string>, dev: seq<string>)
    modifies g`root, g`rootDev, g`devSplit
    ensures workspace || runtime + dev == [] ==>
            g.root == old(g.root) && g.rootDev == old(g.rootDev) && g.devSplit == old(g.devSplit)
    ensures !workspace && runtime + dev != [] ==>
              && g.devSplit
              && (forall x :: x in g.root <==> x in old(g.root) && !DevDeclared(g.norm, runtime, dev, x))
              && (forall x :: x in g.rootDev <==> x in old(g.root) && DevDeclared(g.norm, runtime, dev, x))
              && (forall x :: x in g.rootDev <==>
                    x in old(g.root) && Names(g.norm, dev, x) && !Names(g.norm, runtime, x))
  {
    if workspace || runtime + dev == [] { return; }
    var root: seq<string>, rootDev: seq<string> := [], [];
    var devKeys, runtimeKeys := MapKeys(g.norm, dev), MapKeys(g.norm, runtime);
    for i := 0 to |g.root|
      invariant forall x :: x in root <==> x in g.root[..i] && !DevDeclared(g.norm, runtime, dev, x)
      invariant forall x :: x in rootDev <==> x in g.root[..i] && DevDeclared(g.norm, runtime, dev, x)
    {
      var r := g.root[i];
      assert g.root[..i + 1] == g.root[..i] + [r];
      if r in devKeys && r !in runtimeKeys {
        rootDev := rootDev + [r];
      } else {
        root := root + [r];
      }
    }
    assert g.root[..|g.root|] == g.root;
    g.root, g.rootDev, g.devSplit := root, rootDev, true;
  }

  ghost predicate DevDeclared(norm: Norm, runtime: seq<string>, dev: seq<string>, r: string) {
    Names(norm, dev, r) && !Names(norm, runtime, r)
  }
}
