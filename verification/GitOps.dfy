/** Publishing a document to a git repository: directly to the base branch, or to a review branch rebuilt from it. Any
    git command may fail, a failing one may leave the clone in any state, and other people push in between. */
module GitOps {
  import opened Options

  type Tree = map<string, string>

  datatype Commit = Commit(parent: Option<Commit>, tree: Tree)

  /** The shared clone: its branches, the last fetched base, and the files in the working copy. */
  datatype Clone = Clone(branches: map<string, Commit>, origin: Option<Commit>, head: string, work: Tree)

  datatype Settings = Settings(repo: string, branch: string, prefix: string, path: string, pr: bool)

  /** slug is the branch-safe form of the product name, or of the file name when there is none. */
  datatype Document = Document(filename: string, content: string, slug: string)

  datatype Step =
    | CloneRepo | SetUrl | Fetch | Reset | Clean | CheckoutBase | CheckoutReview
    | MakeDir | WriteFile | AddFile | CommitFile | RevParse | Push | PullRequest

  /** What the world does to one run: which commands fail, the clone a failing one leaves, whether a failing push was
      applied all the same, and what the remote holds when the push arrives. */
  datatype World = World(fails: set<Step>, debris: Option<Clone>, applied: bool, remoteAtPush: map<string, Commit>)

  datatype Outcome =
    | Refused
    | Failed
    | Unchanged(branch: string)
    | Published(branch: string, commit: Commit, reviewed: bool)

  function Base(c: Settings): string { if c.branch == "" then "main" else c.branch }

  function BranchFor(c: Settings, d: Document): string { if c.prefix == "" then Base(c) else c.prefix + d.slug }

  function TrimSlashes(s: string): string {
    if s != "" && s[0] == '/' then TrimSlashes(s[1..])
    else if s != "" && s[|s| - 1] == '/' then TrimSlashes(s[..|s| - 1])
    else s
  }

  function File(c: Settings, d: Document): string {
    var dir := TrimSlashes(c.path);
    if dir == "" then d.filename else dir + "/" + d.filename
  }

  predicate ValidName(name: string) {
    name != "" && '/' !in name && '\\' !in name && name[0] != '.'
  }

  predicate Holds(t: Tree, file: string, content: string) { file in t && t[file] == content }

  /** The base as it was fetched, plus one commit that changes one file. */
  function Proposal(c: Settings, d: Document, base: Commit): Commit {
    Commit(Some(base), base.tree[File(c, d) := d.content])
  }

  predicate IsAncestor(a: Commit, b: Commit) {
    a == b || (b.parent.Some? && IsAncestor(a, b.parent.value))
  }

  /** The server takes a push that is forced or only adds to what is there. */
  predicate Accepts(remote: map<string, Commit>, branch: string, commit: Commit, force: bool) {
    force || branch !in remote || IsAncestor(remote[branch], commit)
  }

  /** What one run, however it goes, may do to the remote it finds at the push. */
  ghost predicate MayPush(c: Settings, d: Document, fetched: map<string, Commit>, before: map<string, Commit>,
                          after: map<string, Commit>) {
    || after == before
    || (Base(c) in fetched && !Holds(fetched[Base(c)].tree, File(c, d), d.content)
        && after == before[BranchFor(c, d) := Proposal(c, d, fetched[Base(c)])]
        && Accepts(before, BranchFor(c, d), Proposal(c, d, fetched[Base(c)]), BranchFor(c, d) != Base(c)))
  }

  class Remote {
    var branches: map<string, Commit>

    constructor (branches: map<string, Commit>)
      ensures this.branches == branches
    {
      this.branches := branches;
    }
  }

  class Publisher {
    const settings: Settings
    var clone: Option<Clone>

    constructor (settings: Settings)
      ensures this.settings == settings && clone == None
    {
      this.settings, clone := settings, None;
    }

    /** Brings the clone to the current base, whatever an aborted run left in it. */
    method Sync(remote: Remote, world: World) returns (ok: bool)
      modifies this`clone
      ensures ok ==>
                && Base(settings) in remote.branches && clone.Some?
                && clone.value.origin == Some(remote.branches[Base(settings)])
                && clone.value.head == Base(settings) && clone.value.work == remote.branches[Base(settings)].tree
                && Base(settings) in clone.value.branches
                && clone.value.branches[Base(settings)] == remote.branches[Base(settings)]
      ensures world.fails == {} && Base(settings) in remote.branches ==> ok
      ensures Base(settings) !in remote.branches ==> !ok
    {
      var base := Base(settings);
      if clone.None? {
        if CloneRepo in world.fails || base !in remote.branches { clone := world.debris; return false; }
        var tip := remote.branches[base];
        clone := Some(Clone(map[base := tip], Some(tip), base, tip.tree));
      } else {
        if SetUrl in world.fails { clone := world.debris; return false; }
        if Fetch in world.fails || base !in remote.branches { clone := world.debris; return false; }
        clone := Some(clone.value.(origin := Some(remote.branches[base])));
      }
      if Reset in world.fails { clone := world.debris; return false; }
      var c := clone.value;
      clone := Some(c.(work := if c.head in c.branches then c.branches[c.head].tree else map[]));
      if Clean in world.fails { clone := world.debris; return false; }
      if CheckoutBase in world.fails { clone := world.debris; return false; }
      CheckoutOrigin(base);
      return true;
    }

    /** Points branch at the fetched base and checks it out. */
    method CheckoutOrigin(branch: string)
      requires clone.Some? && clone.value.origin.Some?
      modifies this`clone
      ensures clone.Some? && clone.value.origin == old(clone.value.origin)
      ensures clone.value.head == branch && clone.value.work == clone.value.origin.value.tree
      ensures clone.value.branches == old(clone.value.branches)[branch := clone.value.origin.value]
    {
      var c := clone.value;
      var tip := c.origin.value;
      clone := Some(c.(branches := c.branches[branch := tip], head := branch, work := tip.tree));
    }

    /** Commits the working copy on the current branch. */
    method CommitWork() returns (commit: Commit)
      requires clone.Some? && clone.value.head in clone.value.branches
      modifies this`clone
      ensures commit == Commit(Some(old(clone.value.branches[clone.value.head])), old(clone.value.work))
      ensures clone == Some(old(clone.value).(branches := old(clone.value.branches)[old(clone.value.head) := commit]))
    {
      var c := clone.value;
      commit := Commit(Some(c.branches[c.head]), c.work);
      clone := Some(c.(branches := c.branches[c.head := commit]));
    }

    /** One run. The remote that the push meets is world.remoteAtPush. */
    method Publish(d: Document, remote: Remote, world: World) returns (r: Outcome)
      modifies this`clone, remote
      ensures r.Refused? <==>
                || d.filename == "" || '/' in d.filename || '\\' in d.filename || d.filename[0] == '.'
                || settings.repo == ""
      ensures r.Refused? || r.Unchanged? ==> remote.branches == old(remote.branches)
      ensures r.Unchanged? ==>
                && r.branch == BranchFor(settings, d) && Base(settings) in old(remote.branches)
                && File(settings, d) in old(remote.branches)[Base(settings)].tree
                && old(remote.branches)[Base(settings)].tree[File(settings, d)] == d.content
      ensures r.Published? ==>
                && Base(settings) in old(remote.branches)
                && var tree := old(remote.branches)[Base(settings)].tree;
                   File(settings, d) in tree ==> tree[File(settings, d)] != d.content
      ensures r.Published? ==>
                && r.branch == BranchFor(settings, d) && Base(settings) in old(remote.branches)
                && r.commit == Proposal(settings, d, old(remote.branches)[Base(settings)])
                && remote.branches == world.remoteAtPush[r.branch := r.commit]
                && Accepts(world.remoteAtPush, r.branch, r.commit, r.branch != Base(settings))
      ensures remote.branches == old(remote.branches) ||
              MayPush(settings, d, old(remote.branches), world.remoteAtPush, remote.branches)
      ensures !r.Refused? && world.fails == {} && Base(settings) in old(remote.branches) ==>
                var base := old(remote.branches)[Base(settings)];
                if Holds(base.tree, File(settings, d), d.content) then r == Unchanged(BranchFor(settings, d))
                else if Accepts(world.remoteAtPush, BranchFor(settings, d), Proposal(settings, d, base),
                                BranchFor(settings, d) != Base(settings))
                then r.Published?
                else r.Failed?
    {
      hide IsAncestor;
      if !ValidName(d.filename) || settings.repo == "" { return Refused; }
      var base := Base(settings);
      var ok := Sync(remote, world);
      if !ok { return Failed; }
      var branch := base;
      if settings.prefix != "" {
        branch := settings.prefix + d.slug;
        if CheckoutReview in world.fails { clone := world.debris; return Failed; }
        CheckoutOrigin(branch);
      }
      var file := File(settings, d);
      if MakeDir in world.fails { return Failed; }
      if Holds(clone.value.work, file, d.content) { return Unchanged(branch); }
      if WriteFile in world.fails { clone := world.debris; return Failed; }
      clone := Some(clone.value.(work := clone.value.work[file := d.content]));
      if AddFile in world.fails { clone := world.debris; return Failed; }
      if CommitFile in world.fails { clone := world.debris; return Failed; }
      var commit := CommitWork();
      if RevParse in world.fails { return Failed; }
      remote.branches := world.remoteAtPush;
      if !Accepts(remote.branches, branch, commit, branch != base) { return Failed; }
      if Push in world.fails {
        if world.applied { remote.branches := remote.branches[branch := commit]; }
        return Failed;
      }
      remote.branches := remote.branches[branch := commit];
      r := Published(branch, commit, settings.pr && branch != base && PullRequest !in world.fails);
    }
  }

  // ---- what a run proposes ----

  ghost predicate AllSlashes(s: string) {
    forall i :: 0 <= i < |s| ==> s[i] == '/'
  }

  /** Whatever slashes surround the directory, trimming leaves it, and nothing at all of a path of slashes. */
  lemma {:induction false} TrimSlashesIs(pre: string, dir: string, post: string)
    requires AllSlashes(pre) && AllSlashes(post)
    requires dir != "" ==> dir[0] != '/' && dir[|dir| - 1] != '/'
    ensures TrimSlashes(pre + dir + post) == dir
    decreases |pre| + |post|
  {
    var s := pre + dir + post;
    if pre != "" {
      assert s[1..] == pre[1..] + dir + post;
      TrimSlashesIs(pre[1..], dir, post);
    } else if post != "" {
      assert s[..|s| - 1] == pre + dir + post[..|post| - 1];
      TrimSlashesIs(pre, dir, post[..|post| - 1]);
      if s[0] == '/' {
        assert dir == "" && s == post && AllSlashes(s);
        assert s[1..] == pre + dir + post[1..];
        TrimSlashesIs(pre, dir, post[1..]);
      }
    } else {
      assert s == dir;
    }
  }

  /** The proposal follows the base and changes one file: the document, in the configured directory if there is one. */
  lemma ProposalExactly(c: Settings, d: Document, base: Commit, pre: string, dir: string, post: string)
    requires AllSlashes(pre) && AllSlashes(post) && c.path == pre + dir + post
    requires dir != "" ==> dir[0] != '/' && dir[|dir| - 1] != '/'
    ensures var p := Proposal(c, d, base);
            var file := if dir == "" then d.filename else dir + "/" + d.filename;
            && p.parent == Some(base) && file in p.tree && p.tree[file] == d.content
            && forall f :: f != file ==>
                 (f in p.tree <==> f in base.tree) && (f in p.tree ==> p.tree[f] == base.tree[f])
  {
    TrimSlashesIs(pre, dir, post);
  }

  /** Where a run goes: to base, main unless another is named, or with a prefix to the product's own branch. */
  lemma TargetExactly(c: Settings, d: Document)
    ensures c.branch == "" ==> Base(c) == "main"
    ensures c.branch != "" ==> Base(c) == c.branch
    ensures c.prefix == "" ==> BranchFor(c, d) == Base(c)
    ensures c.prefix != "" ==> BranchFor(c, d) == c.prefix + d.slug
  {
  }

  /** Each commit is the parent of the one before. */
  ghost predicate Lineage(chain: seq<Commit>) {
    chain != [] && forall i, j :: 0 <= i && j == i + 1 < |chain| ==> chain[i].parent == Some(chain[j])
  }

  /** An ancestor is what following parents leads to. */
  lemma {:induction false} AncestorExactly(a: Commit, b: Commit)
    ensures IsAncestor(a, b) <==>
            exists chain :: Lineage(chain) && chain[0] == b && chain[|chain| - 1] == a
    decreases b
  {
    if b.parent.Some? {
      AncestorExactly(a, b.parent.value);
      if chain: seq<Commit> :| Lineage(chain) && chain[0] == b.parent.value && chain[|chain| - 1] == a {
        assert Lineage([b] + chain) && ([b] + chain)[0] == b && ([b] + chain)[|chain|] == a;
      }
    }
    if a == b { assert Lineage([b]) && [b][0] == b; }
    if chain: seq<Commit> :| Lineage(chain) && chain[0] == b && chain[|chain| - 1] == a {
      if |chain| > 1 {
        assert chain[0].parent == Some(chain[1]);
        assert Lineage(chain[1..]);
      }
    }
  }

  /** A push is taken exactly when it is forced, the branch is new, or the commit follows what is there. */
  lemma AcceptsExactly(remote: map<string, Commit>, branch: string, commit: Commit, force: bool)
    ensures Accepts(remote, branch, commit, force) <==>
            (!force && branch in remote ==>
             exists chain :: Lineage(chain) && chain[0] == commit && chain[|chain| - 1] == remote[branch])
  {
    if branch in remote { AncestorExactly(remote[branch], commit); }
    hide IsAncestor, Lineage;
  }

  // ---- what review mode guarantees ----

  /** A run changes no branch but its own, and a review branch is always the fetched base plus the one commit. */
  lemma OnlyOwnBranch(c: Settings, d: Document, fetched: map<string, Commit>, before: map<string, Commit>,
                      after: map<string, Commit>)
    requires MayPush(c, d, fetched, before, after)
    ensures forall b :: b != BranchFor(c, d) ==>
            (b in after <==> b in before) && (b in before ==> after[b] == before[b])
  {
    hide Accepts;
  }

  /** A push to base, by whatever settings it comes, loses nothing that was there. */
  lemma BaseHistoryIsKept(c: Settings, d: Document, fetched: map<string, Commit>, before: map<string, Commit>,
                          after: map<string, Commit>)
    requires MayPush(c, d, fetched, before, after) && Base(c) in before
    ensures Base(c) in after && IsAncestor(before[Base(c)], after[Base(c)])
  {
  }

  /** One change of the remote: somebody else's push, or a run of the publisher. */
  datatype Turn =
    | Others(to: map<string, Commit>)
    | Run(d: Document, fetched: map<string, Commit>, to: map<string, Commit>)

  ghost predicate History(c: Settings, start: map<string, Commit>, turns: seq<Turn>) {
    forall i :: 0 <= i < |turns| && turns[i].Run? ==>
           MayPush(c, turns[i].d, turns[i].fetched, RemoteAfter(start, turns, i), turns[i].to)
  }

  function RemoteAfter(start: map<string, Commit>, turns: seq<Turn>, n: nat): map<string, Commit>
    requires n <= |turns|
  {
    if n == 0 then start else turns[n - 1].to
  }

  /** No run of this history has base as its review branch. */
  ghost predicate ReviewOnly(c: Settings, turns: seq<Turn>) {
    forall i :: 0 <= i < |turns| && turns[i].Run? ==> BranchFor(c, turns[i].d) != Base(c)
  }

  ghost predicate OthersKeepBase(c: Settings, start: map<string, Commit>, turns: seq<Turn>) {
    forall i :: 0 <= i < |turns| && turns[i].Others? ==> SameAt(Base(c), RemoteAfter(start, turns, i), turns[i].to)
  }

  predicate SameAt(b: string, x: map<string, Commit>, y: map<string, Commit>) {
    (b in x <==> b in y) && (b in x ==> x[b] == y[b])
  }

  /** In review mode base moves only when somebody else moves it, over any history of runs, failed ones included. */
  lemma {:induction false} ReviewNeverMovesBase(c: Settings, start: map<string, Commit>, turns: seq<Turn>, n: nat)
    requires n <= |turns| && History(c, start, turns) && ReviewOnly(c, turns) && OthersKeepBase(c, start, turns)
    ensures SameAt(Base(c), start, RemoteAfter(start, turns, n))
  {
    if n > 0 {
      ReviewNeverMovesBase(c, start, turns, n - 1);
      var t := turns[n - 1];
      if t.Run? {
        OnlyOwnBranch(c, t.d, t.fetched, RemoteAfter(start, turns, n - 1), t.to);
      }
    }
  }

  ghost predicate LeavesBase(c: Settings, d: Document) {
    forall fetched, before, after :: MayPush(c, d, fetched, before, after) ==> SameAt(Base(c), before, after)
  }

  /** A document is safe from landing on base unreviewed exactly when prefix and slug do not spell base. */
  lemma ReviewProtectsBase(c: Settings, d: Document)
    ensures LeavesBase(c, d) <==> c.prefix != "" && c.prefix + d.slug != Base(c)
  {
    if BranchFor(c, d) != Base(c) {
      forall fetched, before, after | MayPush(c, d, fetched, before, after) ensures SameAt(Base(c), before, after) {
        OnlyOwnBranch(c, d, fetched, before, after);
      }
    } else {
      var first := Commit(None, map[]);
      var before := map[Base(c) := first];
      var after := before[Base(c) := Proposal(c, d, first)];
      assert IsAncestor(first, Proposal(c, d, first));
      assert !Holds(first.tree, File(c, d), d.content) && Accepts(before, Base(c), Proposal(c, d, first), false);
      assert MayPush(c, d, before, before, after);
      assert after[Base(c)] != before[Base(c)];
    }
  }

  /** A prefix that together with a slug spells the base branch turns review off: the document lands on base. */
  lemma PrefixCanSpellBase(d: Document, base: Commit)
    requires d.slug == "in" && !Holds(base.tree, d.filename, d.content)
    ensures var c := Settings("url", "main", "ma", "", true);
            var remote := map["main" := base];
            MayPush(c, d, remote, remote, map["main" := Proposal(c, d, base)])
  {
    var c := Settings("url", "main", "ma", "", true);
    var remote := map["main" := base];
    assert "ma" + "in" == "main";
    assert IsAncestor(base, Proposal(c, d, base));
    assert remote["main" := Proposal(c, d, base)] == map["main" := Proposal(c, d, base)];
  }
}
