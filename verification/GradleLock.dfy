/** gradle.lockfile. */
module GradleLock {
  import opened Text
  import opened DepGraphs

  predicate Contains(s: string, sub: string) {
    HasPrefix(s, sub) || (s != "" && Contains(s[1..], sub))
  }

  /** Configurations of tests and of build tools. */
  predicate IsTest(configuration: string) {
    var l := Lower(configuration);
    || HasPrefix(l, "test") || Contains(l, "test") || HasPrefix(l, "annotationprocessor") || HasPrefix(l, "kapt")
    || HasPrefix(l, "ksp") || HasPrefix(l, "checkstyle") || HasPrefix(l, "pmd") || HasPrefix(l, "spotbugs")
    || HasPrefix(l, "detekt") || HasPrefix(l, "jacoco")
  }

  /** A configuration counts as one for tests or tools when, in lower case, it has the word test anywhere or starts like
      a tool's. */
  lemma IsTestExactly(configuration: string)
    ensures var l := Lower(configuration);
            IsTest(configuration) <==>
            || (exists i, j :: 0 <= i && j == i + 4 <= |l| && l[i..j] == "test")
            || "annotationprocessor" <= l || "kapt" <= l || "ksp" <= l || "checkstyle" <= l || "pmd" <= l
            || "spotbugs" <= l || "detekt" <= l || "jacoco" <= l
  {
    var l := Lower(configuration);
    ContainsExactly(l, "test");
    assert HasPrefix(l, "test") ==> Contains(l, "test");
    PrefixExactly(l, "annotationprocessor");
    PrefixExactly(l, "kapt");
    PrefixExactly(l, "ksp");
    PrefixExactly(l, "checkstyle");
    PrefixExactly(l, "pmd");
    PrefixExactly(l, "spotbugs");
    PrefixExactly(l, "detekt");
    PrefixExactly(l, "jacoco");
    hide Lower, HasPrefix, Contains;
  }

  lemma {:induction false} ContainsExactly(s: string, sub: string)
    ensures Contains(s, sub) <==> exists i, j :: 0 <= i && j == i + |sub| <= |s| && s[i..j] == sub
  {
    if HasPrefix(s, sub) {
      assert s[0..|sub|] == sub;
    } else if s != "" {
      ContainsExactly(s[1..], sub);
      if i, j :| 0 <= i && j == i + |sub| <= |s[1..]| && s[1..][i..j] == sub {
        assert s[i + 1..j + 1] == s[1..][i..j];
      }
      if i, j :| 0 <= i && j == i + |sub| <= |s| && s[i..j] == sub {
        assert i > 0;
        assert s[1..][i - 1..j - 1] == s[i..j];
      }
    }
  }

  /** The search for the word goes through all of the name: a variant called latest. */
  lemma LatestCountsAsTest()
    ensures IsTest("latest") && !IsTest("x")
  {
    var l := Lower("latest");
    assert l == "latest" && l[1..][1..] == "test";
    assert HasPrefix(l[1..][1..], "test");
    assert Contains(l[1..][1..], "test");
    assert Contains(l[1..], "test");
    assert Lower("x") == "x" && "x"[1..] == "" && !Contains("", "test") && !Contains("x", "test");
  }

  /** One locked module and the configurations that resolve it. */
  datatype Row = Row(name: string, confs: seq<string>)

  /** Some configuration of the list is not a test configuration. */
  ghost predicate HasRuntime(confs: seq<string>) {
    exists c :: c in confs && !IsTest(c)
  }

  ghost predicate InRuntime(rows: seq<Row>, k: string) {
    exists r :: r in rows && Key(LowerCase, r.name) == k && HasRuntime(r.confs)
  }

  ghost predicate Listed(rows: seq<Row>, k: string) {
    exists r :: r in rows && Key(LowerCase, r.name) == k
  }

  lemma RowStep(rows: seq<Row>, i: nat)
    requires i < |rows|
    ensures forall k :: Listed(rows[..i + 1], k) <==> Listed(rows[..i], k) || k == Key(LowerCase, rows[i].name)
    ensures forall k :: InRuntime(rows[..i + 1], k) <==>
                        InRuntime(rows[..i], k) || (k == Key(LowerCase, rows[i].name) && HasRuntime(rows[i].confs))
  {
    assert rows[..i + 1] == rows[..i] + [rows[i]];
    assert rows[i] in rows[..i + 1];
    forall k | Listed(rows[..i], k) ensures Listed(rows[..i + 1], k) {
      var r :| r in rows[..i] && Key(LowerCase, r.name) == k;
      assert r in rows[..i + 1];
    }
    forall k | InRuntime(rows[..i], k) ensures InRuntime(rows[..i + 1], k) {
      var r :| r in rows[..i] && Key(LowerCase, r.name) == k && HasRuntime(r.confs);
      assert r in rows[..i + 1];
    }
  }

  /** What the row loop has collected: names, and per name the configurations that are seen. */
  ghost predicate Collected(rows: seq<Row>, present: set<string>, runtimeConf: bool, confs: map<string, seq<string>>) {
    && (forall k :: k in present <==> Listed(rows, k))
    && confs.Keys == present
    && (runtimeConf <==> exists k :: InRuntime(rows, k))
    && (forall k :: k in confs ==> (InRuntime(rows, k) <==> HasRuntime(confs[k])))
  }

  lemma CollectOne(rows: seq<Row>, present: set<string>, runtimeConf: bool, confs: map<string, seq<string>>, i: nat)
    requires i < |rows| && Collected(rows[..i], present, runtimeConf, confs)
    ensures var k, cs := Key(LowerCase, rows[i].name), rows[i].confs;
            Collected(rows[..i + 1], present + {k}, runtimeConf || HasRuntime(cs),
                      confs[k := (if k in confs then confs[k] else []) + cs])
  {
    hide HasRuntime, InRuntime, Listed, Key;
    RowStep(rows, i);
    var k, cs := Key(LowerCase, rows[i].name), rows[i].confs;
    var before, more, confs' := rows[..i], rows[..i + 1], confs[k := (if k in confs then confs[k] else []) + cs];
    forall j | InRuntime(before, j) ensures j in confs && InRuntime(more, j) {
      RuntimeIsListed(before, j);
    }
    var was := if k in confs then confs[k] else [];
    MoreRuntime(was, cs);
    NoneRuntime();
    assert HasRuntime(was) <==> InRuntime(before, k);
    forall j | j in confs' ensures InRuntime(more, j) <==> HasRuntime(confs'[j]) {
      if j == k { assert confs'[j] == was + cs; }
    }
    if HasRuntime(cs) { assert InRuntime(more, k); }
    if exists j :: InRuntime(more, j) {
      var j :| InRuntime(more, j);
      assert InRuntime(before, j) || HasRuntime(cs);
    }
  }

  lemma NoneRuntime()
    ensures !HasRuntime([])
  {
  }

  lemma MoreRuntime(a: seq<string>, b: seq<string>)
    ensures HasRuntime(a + b) <==> HasRuntime(a) || HasRuntime(b)
  {
    forall c ensures c in a + b <==> c in a || c in b {}
  }

  method ReadRows(g: DepGraph, rows: seq<Row>)
    returns (runtimeConf: bool, confs: map<string, seq<string>>)
    requires g.Valid() && g.norm == LowerCase && g.edges == map[] && g.present == {}
    requires forall r :: r in rows ==> r.confs != []
    modifies g`edges, g`present
    ensures g.Valid() && g.edges == map[] && Collected(rows, g.present, runtimeConf, confs)
  {
    runtimeConf, confs := false, map[];
    for i := 0 to |rows|
      invariant g.Valid() && g.edges == map[]
      invariant Collected(rows[..i], g.present, runtimeConf, confs)
    {
      var row := rows[i];
      CollectOne(rows, g.present, runtimeConf, confs, i);
      assert row.confs != [];
      g.AddName(row.name);
      runtimeConf, confs := AddConfigurations(row.confs, Key(LowerCase, row.name), runtimeConf, confs);
    }
    assert rows[..|rows|] == rows;
  }

  lemma RuntimeIsListed(rows: seq<Row>, k: string)
    requires InRuntime(rows, k)
    ensures Listed(rows, k)
  {
  }

  /** A module is dev-only when all its configurations are test configurations. The flags exist only when some module
      is locked in another configuration, so a graph with flags always has a package that is not dev-only. */
  method ParseGradleLockfile(rows: seq<Row>, cap: nat) returns (g: DepGraph)
    requires forall r :: r in rows ==> r.confs != []
    ensures fresh(g) && g.Valid() && g.cap == cap && g.norm == LowerCase
    ensures g.edges == map[] && !g.hasEdges && !g.rootKnown && !g.devSplit && g.root == [] && g.rootDev == []
    ensures forall k :: k in g.present <==> Listed(rows, k)
    ensures g.devFlags <==> exists k :: InRuntime(rows, k)
    ensures g.devFlags ==> g.devOnlyFlag.Keys == g.present &&
                           forall k :: k in g.present ==> (g.devOnlyFlag[k] <==> !InRuntime(rows, k))
    ensures g.devFlags ==> exists k :: k in g.present && !g.devOnlyFlag[k]
  {
    hide HasRuntime, InRuntime, Listed, WellFormed, Key;
    g := new DepGraph(LowerCase, cap);
    var runtimeConf, confs := ReadRows(g, rows);
    if runtimeConf {
      g.devFlags := true;
      g.devOnlyFlag := FlagTestOnly(confs);
      ghost var k :| InRuntime(rows, k);
      RuntimeIsListed(rows, k);
    }
  }

  method AddConfigurations(cs: seq<string>, k: string, runtimeConf: bool, confs: map<string, seq<string>>)
    returns (runtimeConf': bool, confs': map<string, seq<string>>)
    requires cs != []
    ensures runtimeConf' <==> runtimeConf || HasRuntime(cs)
    ensures confs' == confs[k := (if k in confs then confs[k] else []) + cs]
  {
    runtimeConf', confs' := runtimeConf, confs;
    for j := 0 to |cs|
      invariant runtimeConf' <==> runtimeConf || HasRuntime(cs[..j])
      invariant confs' == WithConfigurations(confs, k, cs[..j])
    {
      assert cs[..j + 1] == cs[..j] + [cs[j]];
      MoreRuntime(cs[..j], [cs[j]]);
      OneConfiguration(confs, k, cs[..j], cs[j]);
      confs' := confs'[k := (if k in confs' then confs'[k] else []) + [cs[j]]];
      if !IsTest(cs[j]) {
        assert cs[j] in [cs[j]];
        runtimeConf' := true;
      }
    }
    assert cs[..|cs|] == cs;
  }

  function WithConfigurations(confs: map<string, seq<string>>, k: string, cs: seq<string>): map<string, seq<string>> {
    if cs == [] then confs else confs[k := (if k in confs then confs[k] else []) + cs]
  }

  lemma OneConfiguration(confs: map<string, seq<string>>, k: string, cs: seq<string>, c: string)
    ensures var m := WithConfigurations(confs, k, cs);
            WithConfigurations(confs, k, cs + [c]) == m[k := (if k in m then m[k] else []) + [c]]
  {
    var was := if k in confs then confs[k] else [];
    assert was + (cs + [c]) == was + cs + [c];
    assert was + [] == was;
  }

  method FlagTestOnly(confs: map<string, seq<string>>) returns (devOnly: map<string, bool>)
    ensures devOnly.Keys == confs.Keys
    ensures forall k :: k in confs ==> (devOnly[k] <==> !HasRuntime(confs[k]))
  {
    devOnly := map[];
    var keys := confs.Keys;
    while keys != {}
      invariant keys <= confs.Keys
      invariant devOnly.Keys == confs.Keys - keys
      invariant forall k :: k in devOnly ==> (devOnly[k] <==> !HasRuntime(confs[k]))
    {
      var k :| k in keys;
      keys := keys - {k};
      var cs := confs[k];
      var dev := true;
      for j := 0 to |cs|
        invariant dev <==> !HasRuntime(cs[..j])
      {
        assert cs[..j + 1] == cs[..j] + [cs[j]];
        if !IsTest(cs[j]) { dev := false; }
      }
      assert cs[..|cs|] == cs;
      devOnly := devOnly[k := dev];
    }
  }

  // ---- what the build uses its configurations for ----

  /** Some configuration that resolves the module is none of those that the build has for tests and tools. */
  ghost predicate InProduct(rows: seq<Row>, tests: set<string>, k: string) {
    exists r, c :: r in rows && Key(LowerCase, r.name) == k && c in r.confs && c !in tests
  }

  /** All configurations of the module read like test configurations, one of them is none, and some other module has one
      that does not read so. */
  ghost predicate TakenForTest(rows: seq<Row>, tests: set<string>, k: string) {
    && (forall r, c :: r in rows && Key(LowerCase, r.name) == k && c in r.confs ==> IsTest(c))
    && (exists r, c :: r in rows && Key(LowerCase, r.name) == k && c in r.confs && c !in tests && IsTest(c))
    && exists r, c :: r in rows && c in r.confs && !IsTest(c)
  }

  /** A module of the product is flagged dev-only exactly when its configurations are taken for test configurations. */
  lemma FlaggedThoughInProduct(rows: seq<Row>, tests: set<string>, k: string)
    ensures (exists j :: InRuntime(rows, j)) && !InRuntime(rows, k) && InProduct(rows, tests, k) <==>
            TakenForTest(rows, tests, k)
  {
    hide Key, IsTest;
    forall r, c | r in rows && c in r.confs && !IsTest(c) ensures InRuntime(rows, Key(LowerCase, r.name)) {}
    if j :| InRuntime(rows, j) {
      var r :| r in rows && Key(LowerCase, r.name) == j && HasRuntime(r.confs);
      var c :| c in r.confs && !IsTest(c);
      assert exists r, c :: r in rows && c in r.confs && !IsTest(c);
    }
  }

  function LatestRows(): seq<Row> { [Row("a", ["latest"]), Row("b", ["x"])] }

  /** Two such rows. */
  lemma LatestIsTakenForTest(tests: set<string>)
    requires "latest" !in tests
    ensures Key(LowerCase, "a") == "a" && InProduct(LatestRows(), tests, "a") && TakenForTest(LatestRows(), tests, "a")
  {
    LatestCountsAsTest();
    hide IsTest;
    var rows := LatestRows();
    assert Key(LowerCase, "a") == "a" && Key(LowerCase, "b") == "b";
    assert "a"[0] != "b"[0];
    assert rows[0] in rows && rows[1] in rows && "latest" in rows[0].confs && rows[1].confs[0] in rows[1].confs;
    assert InProduct(rows, tests, "a");
  }
}
