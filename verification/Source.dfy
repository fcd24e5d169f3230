/** Turns the vulnerability rows of one SBOM into findings: alias twins of one package become a single finding.
    Timestamps are instants; zero stands for an absent or unreadable one. */
module Sources {
  import opened Options
  import opened Text

  datatype Row = Row(vulnID: string, purl: string, fixedVersion: string, vexStatus: string, vexTime: int,
                     vexTooling: string,
                     aliases: seq<string>, scope: string)

  datatype Finding = Finding(vulnID: string, purl: string, fixedVersion: string, vexStatus: string, vexTime: int,
                             vexTooling: string,
                             aliases: seq<string>, direct: bool, directKnown: bool, packageName: string,
                             packageVersion: string)

  datatype Package = Package(name: string, version: string)

  /** What the dependency tree and the raw SBOM say about packages. */
  datatype Context = Context(direct: set<string>, directKnown: bool, names: map<string, Package>,
                             docNames: map<string, Package>)

  function FindingFor(v: Row, c: Context): Finding {
    var purl := TrimSpace(v.purl);
    var scoped := v.scope == "direct" || v.scope == "transitive";
    var p := if purl in c.names then c.names[purl] else if purl in c.docNames then c.docNames[purl]
      else Package("", "");
    Finding(TrimSpace(v.vulnID), purl, v.fixedVersion, v.vexStatus, v.vexTime, v.vexTooling, v.aliases,
            if scoped then v.scope == "direct" else purl in c.direct, scoped || c.directKnown, p.name, p.version)
  }

  /** The key that ties an id to a package: the two joined by a NUL. */
  function StatementKey(id: string, purl: string): string { id + "\0" + purl }

  function Ids(f: Finding): seq<string> { [f.vulnID] + f.aliases }

  predicate HasKey(f: Finding, key: string) {
    exists id :: id in Ids(f) && StatementKey(id, f.purl) == key
  }

  datatype Loaded = Loaded(findings: seq<Finding>, seen: map<string, nat>)

  function FindSeen(seen: map<string, nat>, ids: seq<string>, purl: string): (r: Option<nat>)
    ensures r.None? ==> forall id :: id in ids ==> StatementKey(id, purl) !in seen
    ensures r.Some? ==>
            exists id :: id in ids && StatementKey(id, purl) in seen && seen[StatementKey(id, purl)] == r.value
  {
    if ids == [] then None
    else if StatementKey(ids[0], purl) in seen then Some(seen[StatementKey(ids[0], purl)])
    else FindSeen(seen, ids[1..], purl)
  }

  function Register(seen: map<string, nat>, ids: seq<string>, purl: string, n: nat): (r: map<string, nat>)
    ensures forall k :: k in r <==> k in seen || exists id :: id in ids && StatementKey(id, purl) == k
    ensures forall k :: k in r ==>
              r[k] == if exists id :: id in ids && StatementKey(id, purl) == k then n
                      else if k in seen then seen[k] else n
  {
    if ids == [] then seen
    else
      var m := |ids| - 1;
      assert ids == ids[..m] + [ids[m]];
      assert forall id :: id in ids <==> id in ids[..m] || id == ids[m];
      Register(seen, ids[..m], purl, n)[StatementKey(ids[m], purl) := n]
  }

  /** A duplicate row only lends its verdict to a finding that has none. */
  function Absorb(prev: Finding, f: Finding): Finding {
    if f.vexStatus != "" && prev.vexStatus == ""
    then prev.(vexStatus := f.vexStatus, vexTime := f.vexTime, vexTooling := f.vexTooling)
    else prev
  }

  predicate Usable(f: Finding) { f.vulnID != "" && f.purl != "" }

  function AddRow(l: Loaded, f: Finding): Loaded {
    if !Usable(f) then l
    else
      var twin := FindSeen(l.seen, Ids(f), f.purl);
      if twin.Some? then
        if twin.value < |l.findings|
        then l.(findings := l.findings[twin.value := Absorb(l.findings[twin.value], f)])
        else l
      else Loaded(l.findings + [f], Register(l.seen, Ids(f), f.purl, |l.findings|))
  }

  function Load(rows: seq<Row>, c: Context): Loaded {
    if rows == [] then Loaded([], map[]) else AddRow(Load(rows[..|rows| - 1], c), FindingFor(rows[|rows| - 1], c))
  }

  /** What a row says of a finding: its own scope counts before the tree, and the tree's names before the document's. */
  lemma FindingFields(v: Row, c: Context)
    ensures var f := FindingFor(v, c);
            && f.vulnID == TrimSpace(v.vulnID) && f.purl == TrimSpace(v.purl)
            && f.fixedVersion == v.fixedVersion && f.aliases == v.aliases
            && (f.directKnown <==> v.scope == "direct" || v.scope == "transitive" || c.directKnown)
            && (f.direct <==> v.scope == "direct" || (v.scope != "transitive" && f.purl in c.direct))
            && (forall p :: f.purl in c.names && c.names[f.purl] == p ==>
                  f.packageName == p.name && f.packageVersion == p.version)
            && (forall p :: f.purl !in c.names && f.purl in c.docNames && c.docNames[f.purl] == p ==>
                  f.packageName == p.name && f.packageVersion == p.version)
            && (f.purl !in c.names && f.purl !in c.docNames ==> f.packageName == "" && f.packageVersion == "")
  {
    hide TrimSpace;
    assert |"direct"| == 6 && |"transitive"| == 10;
  }

  // ---- what loading keeps ----

  /** Every finding is usable and owns exactly the keys that seen ties to it. */
  ghost predicate Consistent(l: Loaded) {
    && (forall i :: 0 <= i < |l.findings| ==> Usable(l.findings[i]))
    && (forall k :: k in l.seen ==> l.seen[k] < |l.findings| && HasKey(l.findings[l.seen[k]], k))
    && (forall i, k :: 0 <= i < |l.findings| && HasKey(l.findings[i], k) ==> k in l.seen && l.seen[k] == i)
  }

  lemma AbsorbKeeps(l: Loaded, i: nat, f: Finding)
    requires Consistent(l) && i < |l.findings|
    ensures Consistent(l.(findings := l.findings[i := Absorb(l.findings[i], f)]))
  {
    hide StatementKey;
    var m := l.(findings := l.findings[i := Absorb(l.findings[i], f)]);
    forall j, k | 0 <= j < |m.findings| ensures HasKey(m.findings[j], k) <==> HasKey(l.findings[j], k) {
      assert Ids(m.findings[j]) == Ids(l.findings[j]) && m.findings[j].purl == l.findings[j].purl;
    }
  }

  lemma RegisterOwns(seen: map<string, nat>, f: Finding, n: nat)
    ensures var r := Register(seen, Ids(f), f.purl, n);
            && (forall k :: k in r <==> k in seen || HasKey(f, k))
            && (forall k :: k in r ==> r[k] == if HasKey(f, k) then n else seen[k])
  {
    hide StatementKey, Ids;
  }

  lemma Grown(l: Loaded, m: Loaded, f: Finding)
    requires Consistent(l) && Usable(f) && m.findings == l.findings + [f]
    requires forall k :: HasKey(f, k) ==> k !in l.seen
    requires forall k :: k in m.seen <==> k in l.seen || HasKey(f, k)
    requires forall k :: k in m.seen ==> m.seen[k] == if HasKey(f, k) then |l.findings| else l.seen[k]
    ensures Consistent(m)
  {
    hide HasKey, Usable;
    forall i, k | 0 <= i < |m.findings| && HasKey(m.findings[i], k) ensures k in m.seen && m.seen[k] == i {
      if i < |l.findings| { assert HasKey(l.findings[i], k); }
    }
  }

  lemma AppendKeeps(l: Loaded, f: Finding)
    requires Consistent(l) && Usable(f) && forall id :: id in Ids(f) ==> StatementKey(id, f.purl) !in l.seen
    ensures Consistent(Loaded(l.findings + [f], Register(l.seen, Ids(f), f.purl, |l.findings|)))
  {
    hide StatementKey, Ids, Usable, Register, Consistent;
    RegisterOwns(l.seen, f, |l.findings|);
    Grown(l, Loaded(l.findings + [f], Register(l.seen, Ids(f), f.purl, |l.findings|)), f);
  }

  lemma AddRowKeeps(l: Loaded, f: Finding)
    requires Consistent(l)
    ensures Consistent(AddRow(l, f))
    ensures Usable(f) ==> exists k :: HasKey(f, k) && k in AddRow(l, f).seen
    ensures forall k :: k in l.seen ==> k in AddRow(l, f).seen
  {
    OwnId(f);
    hide StatementKey, Consistent, Ids;
    if Usable(f) {
      var twin := FindSeen(l.seen, Ids(f), f.purl);
      if twin.Some? {
        var id :| id in Ids(f) && StatementKey(id, f.purl) in l.seen && l.seen[StatementKey(id, f.purl)] == twin.value;
        assert HasKey(f, StatementKey(id, f.purl));
        SeenIsInside(l, StatementKey(id, f.purl));
        AbsorbKeeps(l, twin.value, f);
      } else {
        AppendKeeps(l, f);
        assert HasKey(f, StatementKey(f.vulnID, f.purl));
      }
    }
  }

  lemma SeenIsInside(l: Loaded, k: string)
    requires Consistent(l) && k in l.seen
    ensures l.seen[k] < |l.findings|
  {
  }

  lemma {:induction false} LoadIsConsistent(rows: seq<Row>, c: Context)
    ensures Consistent(Load(rows, c))
  {
    if rows != [] {
      LoadIsConsistent(rows[..|rows| - 1], c);
      AddRowKeeps(Load(rows[..|rows| - 1], c), FindingFor(rows[|rows| - 1], c));
    }
  }

  /** No two findings share a key, so the key of a finding names it uniquely and twins of one package share no id. */
  lemma FindingsAreDistinct(rows: seq<Row>, c: Context, i: nat, j: nat)
    requires i < j < |Load(rows, c).findings|
    ensures var f, g := Load(rows, c).findings[i], Load(rows, c).findings[j];
            && (forall k :: !(HasKey(f, k) && HasKey(g, k)))
            && StatementKey(f.vulnID, f.purl) != StatementKey(g.vulnID, g.purl)
            && (f.purl == g.purl ==> forall id :: !(id in Ids(f) && id in Ids(g)))
  {
    LoadIsConsistent(rows, c);
    hide StatementKey, Load, Ids;
    var f, g := Load(rows, c).findings[i], Load(rows, c).findings[j];
    hide HasKey;
    var l := Load(rows, c);
    forall k ensures HasKey(l.findings[i], k) ==> k in l.seen && l.seen[k] == i {}
    forall k ensures HasKey(l.findings[j], k) ==> k in l.seen && l.seen[k] == j {}
    OwnId(f);
    OwnId(g);
    assert HasKey(f, StatementKey(f.vulnID, f.purl)) && HasKey(g, StatementKey(g.vulnID, g.purl));
    if f.purl == g.purl {
      forall id ensures !(id in Ids(f) && id in Ids(g)) {
        IdGivesKey(f, id);
        IdGivesKey(g, id);
      }
    }
  }

  lemma IdGivesKey(f: Finding, id: string)
    ensures id in Ids(f) ==> HasKey(f, StatementKey(id, f.purl))
  {
  }

  lemma OwnId(f: Finding)
    ensures f.vulnID in Ids(f) && HasKey(f, StatementKey(f.vulnID, f.purl))
  {
  }

  /** Every usable row shares a key with some finding. */
  lemma {:induction false} RowsAreCovered(rows: seq<Row>, c: Context, i: nat)
    requires i < |rows| && Usable(FindingFor(rows[i], c))
    ensures exists k :: HasKey(FindingFor(rows[i], c), k) && k in Load(rows, c).seen
  {
    hide FindingFor, HasKey, AddRow;
    var n := |rows| - 1;
    LoadIsConsistent(rows[..n], c);
    AddRowKeeps(Load(rows[..n], c), FindingFor(rows[n], c));
    if i < n {
      RowsAreCovered(rows[..n], c, i);
    }
  }

  /** The id and the package can be read off a key when the id holds no NUL. */
  lemma KeyTellsPair(id: string, purl: string, id': string, purl': string)
    requires '\0' !in id && '\0' !in id' && StatementKey(id, purl) == StatementKey(id', purl')
    ensures id == id' && purl == purl'
  {
    assert "\0" == ['\0'];
    SplitFirst(id, purl, id', purl', '\0');
  }

  ghost predicate PlainIds(rows: seq<Row>, c: Context) {
    forall i, id :: 0 <= i < |rows| && id in Ids(FindingFor(rows[i], c)) ==> '\0' !in id
  }

  lemma {:induction false} FindingsKeepIds(rows: seq<Row>, c: Context)
    requires PlainIds(rows, c)
    ensures forall f, id :: f in Load(rows, c).findings && id in Ids(f) ==> '\0' !in id
  {
    hide FindingFor, StatementKey;
    if rows != [] {
      var n := |rows| - 1;
      assert forall i :: 0 <= i < n ==> rows[..n][i] == rows[i];
      FindingsKeepIds(rows[..n], c);
      var l, f := Load(rows[..n], c), FindingFor(rows[n], c);
      forall g, id | g in AddRow(l, f).findings && id in Ids(g) ensures '\0' !in id {
        var j :| 0 <= j < |AddRow(l, f).findings| && AddRow(l, f).findings[j] == g;
        if j < |l.findings| { assert l.findings[j] in l.findings && Ids(g) == Ids(l.findings[j]); }
      }
    }
  }

  /** With ids free of NUL, every usable row shares its package and one of its ids with some finding. */
  lemma RowsAreRepresented(rows: seq<Row>, c: Context, i: nat)
    requires PlainIds(rows, c) && i < |rows| && Usable(FindingFor(rows[i], c))
    ensures exists f, id :: f in Load(rows, c).findings && f.purl == FindingFor(rows[i], c).purl &&
                            id in Ids(f) && id in Ids(FindingFor(rows[i], c))
  {
    RowsAreCovered(rows, c, i);
    LoadIsConsistent(rows, c);
    FindingsKeepIds(rows, c);
    hide FindingFor, StatementKey, Load;
    var r, l := FindingFor(rows[i], c), Load(rows, c);
    var k :| HasKey(r, k) && k in l.seen;
    var f := l.findings[l.seen[k]];
    var id :| id in Ids(r) && StatementKey(id, r.purl) == k;
    var id' :| id' in Ids(f) && StatementKey(id', f.purl) == k;
    assert f in l.findings;
    KeyTellsPair(id, r.purl, id', f.purl);
  }

  // ---- where a verdict comes from ----

  /** The finding a row ends up in, if it is usable. */
  function Route(rows: seq<Row>, c: Context, i: nat): Option<nat>
    requires i < |rows|
  {
    var l, f := Load(rows[..i], c), FindingFor(rows[i], c);
    if !Usable(f) then None
    else
      var twin := FindSeen(l.seen, Ids(f), f.purl);
      if twin.Some? then twin else Some(|l.findings|)
  }

  predicate SameVerdict(f: Finding, v: Row) {
    f.vexStatus == v.vexStatus && f.vexTime == v.vexTime && f.vexTooling == v.vexTooling
  }

  /** Row i is the first one with a status among those that ended up in finding k. */
  ghost predicate FirstVerdict(rows: seq<Row>, c: Context, k: nat, i: nat) {
    && i < |rows| && Route(rows, c, i) == Some(k) && rows[i].vexStatus != ""
    && forall j :: 0 <= j < i && Route(rows, c, j) == Some(k) ==> rows[j].vexStatus == ""
  }

  lemma RoutePrefix(rows: seq<Row>, c: Context, n: nat, i: nat)
    requires i < n <= |rows|
    ensures Route(rows[..n], c, i) == Route(rows, c, i)
  {
    assert rows[..n][..i] == rows[..i];
  }

  /** What one finding's verdict must be, given all the rows. */
  ghost predicate Explained(rows: seq<Row>, c: Context, k: nat, f: Finding) {
    && (f.vexStatus != "" ==> exists i: nat :: FirstVerdict(rows, c, k, i) && SameVerdict(f, rows[i]))
    && (f.vexStatus == "" ==> forall i :: 0 <= i < |rows| && Route(rows, c, i) == Some(k) ==> rows[i].vexStatus == "")
  }

  lemma VerdictCopied(v: Row, c: Context)
    ensures SameVerdict(FindingFor(v, c), v)
  {
  }

  lemma RoutesOfFront(rows: seq<Row>, c: Context)
    requires rows != []
    ensures forall i :: 0 <= i < |rows| - 1 ==> Route(rows[..|rows| - 1], c, i) == Route(rows, c, i)
  {
    hide Route;
    var n := |rows| - 1;
    forall i | 0 <= i < n ensures Route(rows[..n], c, i) == Route(rows, c, i) { RoutePrefix(rows, c, n, i); }
  }

  lemma ExplainedStays(rows: seq<Row>, c: Context, k: nat, f: Finding)
    requires rows != [] && Explained(rows[..|rows| - 1], c, k, f)
    requires f.vexStatus != "" || Route(rows, c, |rows| - 1) != Some(k) || rows[|rows| - 1].vexStatus == ""
    ensures Explained(rows, c, k, f)
  {
    hide Route;
    RoutesOfFront(rows, c);
    var n := |rows| - 1;
    if f.vexStatus != "" {
      var i: nat :| FirstVerdict(rows[..n], c, k, i) && SameVerdict(f, rows[..n][i]);
      assert FirstVerdict(rows, c, k, i) && SameVerdict(f, rows[i]);
    }
  }

  lemma ExplainedByLast(rows: seq<Row>, c: Context, k: nat, f: Finding)
    requires rows != [] && Route(rows, c, |rows| - 1) == Some(k) && SameVerdict(f, rows[|rows| - 1])
    requires forall i :: 0 <= i < |rows| - 1 && Route(rows, c, i) == Some(k) ==> rows[i].vexStatus == ""
    ensures Explained(rows, c, k, f)
  {
    hide Route;
    if f.vexStatus != "" { assert FirstVerdict(rows, c, k, |rows| - 1); }
  }

  /** A finding's status, time and tooling all come from the first of its rows that has a status; it has no status
      only when none of them has. Newer verdicts of later rows are not taken. */
  lemma {:induction false} VerdictFromFirstRow(rows: seq<Row>, c: Context, k: nat)
    requires k < |Load(rows, c).findings|
    ensures Explained(rows, c, k, Load(rows, c).findings[k])
  {
    var n := |rows| - 1;
    var l, v := Load(rows[..n], c), FindingFor(rows[n], c);
    LoadIsConsistent(rows[..n], c);
    RoutesAreInside(rows[..n], c);
    RoutesOfFront(rows, c);
    LastRoute(rows, c);
    VerdictCopied(rows[n], c);
    hide Route, FindingFor, Load, AddRow, Consistent;
    var f := Load(rows, c).findings[k];
    if k < |l.findings| {
      VerdictFromFirstRow(rows[..n], c, k);
      var was := l.findings[k];
      if Route(rows, c, n) != Some(k) || was.vexStatus != "" || rows[n].vexStatus == "" {
        assert f == was;
        ExplainedStays(rows, c, k, f);
      } else {
        assert SameVerdict(f, rows[n]);
        ExplainedByLast(rows, c, k, f);
      }
    } else {
      assert f == v;
      ExplainedByLast(rows, c, k, f);
    }
  }

  /** Row i is the first one that ended up in finding k. */
  ghost predicate Opens(rows: seq<Row>, c: Context, k: nat, i: nat) {
    && i < |rows| && Route(rows, c, i) == Some(k)
    && forall j :: 0 <= j < i ==> Route(rows, c, j) != Some(k)
  }

  function WithoutVerdict(f: Finding): Finding { f.(vexStatus := "", vexTime := 0, vexTooling := "") }

  ghost predicate OpenedBy(rows: seq<Row>, c: Context, k: nat, f: Finding) {
    exists i: nat :: Opens(rows, c, k, i) && WithoutVerdict(f) == WithoutVerdict(FindingFor(rows[i], c))
  }

  lemma AbsorbTouchesVerdict(prev: Finding, f: Finding)
    ensures WithoutVerdict(Absorb(prev, f)) == WithoutVerdict(prev)
  {
  }

  lemma OpenedStays(rows: seq<Row>, c: Context, k: nat, f: Finding, g: Finding)
    requires rows != [] && OpenedBy(rows[..|rows| - 1], c, k, f) && WithoutVerdict(g) == WithoutVerdict(f)
    ensures OpenedBy(rows, c, k, g)
  {
    hide Route, FindingFor, WithoutVerdict;
    RoutesOfFront(rows, c);
    var n := |rows| - 1;
    var i: nat :| Opens(rows[..n], c, k, i) && WithoutVerdict(f) == WithoutVerdict(FindingFor(rows[..n][i], c));
    assert Opens(rows, c, k, i);
  }

  /** All of a finding but its verdict comes from the first of its rows. */
  lemma {:induction false} FindingIsItsFirstRow(rows: seq<Row>, c: Context, k: nat)
    requires k < |Load(rows, c).findings|
    ensures OpenedBy(rows, c, k, Load(rows, c).findings[k])
  {
    var n := |rows| - 1;
    var l, v := Load(rows[..n], c), FindingFor(rows[n], c);
    LoadIsConsistent(rows[..n], c);
    RoutesAreInside(rows[..n], c);
    RoutesOfFront(rows, c);
    LastRoute(rows, c);
    hide Route, FindingFor, Load, AddRow, Consistent, Absorb, WithoutVerdict;
    var f := Load(rows, c).findings[k];
    if k < |l.findings| {
      FindingIsItsFirstRow(rows[..n], c, k);
      AbsorbTouchesVerdict(l.findings[k], v);
      OpenedStays(rows, c, k, l.findings[k], f);
    } else {
      assert f == v && Opens(rows, c, k, n);
    }
  }

  /** The last row's route says how it changed the findings. */
  lemma LastRoute(rows: seq<Row>, c: Context)
    requires rows != [] && Consistent(Load(rows[..|rows| - 1], c))
    ensures var n := |rows| - 1;
            var l, m, v := Load(rows[..n], c).findings, Load(rows, c).findings, FindingFor(rows[n], c);
            match Route(rows, c, n)
            case None => m == l
            case Some(k) => if k < |l| then m == l[k := Absorb(l[k], v)] else k == |l| && m == l + [v]
  {
    var n := |rows| - 1;
    var l, f := Load(rows[..n], c), FindingFor(rows[n], c);
    hide StatementKey, FindingFor, Ids, HasKey, Absorb, Register;
    var twin := FindSeen(l.seen, Ids(f), f.purl);
    if twin.Some? {
      var id :| id in Ids(f) && StatementKey(id, f.purl) in l.seen && l.seen[StatementKey(id, f.purl)] == twin.value;
      SeenIsInside(l, StatementKey(id, f.purl));
    }
  }

  lemma {:induction false} RoutesAreInside(rows: seq<Row>, c: Context)
    ensures forall i :: 0 <= i < |rows| && Route(rows, c, i).Some? ==>
            Route(rows, c, i).value < |Load(rows, c).findings|
  {
    hide FindingFor, StatementKey, Ids, HasKey;
    if rows != [] {
      var n := |rows| - 1;
      RoutesAreInside(rows[..n], c);
      LoadIsConsistent(rows[..n], c);
      LastRoute(rows, c);
      forall i | 0 <= i < n ensures Route(rows[..n], c, i) == Route(rows, c, i) { RoutePrefix(rows, c, n, i); }
      assert |Load(rows, c).findings| >= |Load(rows[..n], c).findings|;
      assert Route(rows, c, n).Some? ==> Route(rows, c, n).value < |Load(rows, c).findings|;
    }
  }

  /** No key belongs to two findings. */
  ghost predicate OwnKeysApart(findings: seq<Finding>) {
    forall i, j, k :: 0 <= i < j < |findings| && HasKey(findings[i], k) ==> !HasKey(findings[j], k)
  }

  lemma OwnersAreUnique(l: Loaded)
    requires Consistent(l)
    ensures OwnKeysApart(l.findings)
  {
    hide HasKey, Usable;
    forall i, j, k | 0 <= i < j < |l.findings| && HasKey(l.findings[i], k) ensures !HasKey(l.findings[j], k) {
      assert k in l.seen && l.seen[k] == i;
    }
  }

  /** The row loop; what it returns are usable findings, each of which has its keys to itself. */
  method LoadSBOM(rows: seq<Row>, c: Context) returns (findings: seq<Finding>)
    ensures findings == Load(rows, c).findings
    ensures OwnKeysApart(findings) && forall f :: f in findings ==> Usable(f)
  {
    LoadIsConsistent(rows, c);
    OwnersAreUnique(Load(rows, c));
    findings := [];
    var seen: map<string, nat> := map[];
    for i := 0 to |rows|
      invariant Loaded(findings, seen) == Load(rows[..i], c)
    {
      assert rows[..i + 1][..i] == rows[..i];
      LoadIsConsistent(rows[..i], c);
      var f := FindingFor(rows[i], c);
      if f.vulnID == "" || f.purl == "" { continue; }
      var twin := FindSeen(seen, Ids(f), f.purl);
      if twin.Some? {
        var prev := findings[twin.value];
        if f.vexStatus != "" && prev.vexStatus == "" {
          prev := prev.(vexStatus := f.vexStatus, vexTime := f.vexTime, vexTooling := f.vexTooling);
        }
        findings := findings[twin.value := prev];
        continue;
      }
      seen := Register(seen, Ids(f), f.purl, |findings|);
      findings := findings + [f];
    }
    assert rows[..|rows|] == rows;
  }

  ghost predicate FirstSeen(seen: map<string, nat>, ids: seq<string>, purl: string, i: nat) {
    && i < |ids| && StatementKey(ids[i], purl) in seen
    && forall j :: 0 <= j < i ==> StatementKey(ids[j], purl) !in seen
  }

  /** The first of the ids that is known decides which finding a row belongs to. */
  lemma {:induction false} FirstSeenDecides(seen: map<string, nat>, ids: seq<string>, purl: string)
    ensures forall i: nat :: FirstSeen(seen, ids, purl, i) ==>
              FindSeen(seen, ids, purl) == Some(seen[StatementKey(ids[i], purl)])
  {
    hide StatementKey;
    if ids != [] && StatementKey(ids[0], purl) !in seen {
      FirstSeenDecides(seen, ids[1..], purl);
      forall i: nat | FirstSeen(seen, ids, purl, i) ensures FirstSeen(seen, ids[1..], purl, i - 1) {
        assert i > 0 && ids[1..][i - 1] == ids[i];
        forall j | 0 <= j < i - 1 ensures StatementKey(ids[1..][j], purl) !in seen { assert ids[1..][j] == ids[j + 1]; }
      }
    }
  }

  /** A row goes by its own id first and then by its aliases: to the finding that owns the first known key, or to a new
      one. */
  lemma RouteExactly(rows: seq<Row>, c: Context, i: nat)
    requires i < |rows| && Route(rows, c, i).Some?
    ensures var seen, v := Load(rows[..i], c).seen, rows[i];
            var ids, purl := [TrimSpace(v.vulnID)] + v.aliases, TrimSpace(v.purl);
            && (forall k: nat :: FirstSeen(seen, ids, purl, k) ==>
                  Route(rows, c, i) == Some(seen[StatementKey(ids[k], purl)]))
            && ((forall k :: 0 <= k < |ids| ==> StatementKey(ids[k], purl) !in seen) ==>
                  Route(rows, c, i) == Some(|Load(rows[..i], c).findings|))
  {
    hide TrimSpace, Load, StatementKey;
    var v := rows[i];
    FirstSeenDecides(Load(rows[..i], c).seen, [TrimSpace(v.vulnID)] + v.aliases, TrimSpace(v.purl));
  }

  /** A row counts exactly when its id and package url are more than space. */
  lemma RoutedExactly(rows: seq<Row>, c: Context, i: nat)
    requires i < |rows|
    ensures Route(rows, c, i).Some? <==> TrimSpace(rows[i].vulnID) != "" && TrimSpace(rows[i].purl) != ""
  {
    hide TrimSpace, Load;
  }

  // ---- direct dependencies from the tree ----

  datatype Node = Node(index: nat, purl: string, name: string, version: string, children: seq<nat>)

  function ByIndex(nodes: seq<Node>): map<nat, Node> {
    if nodes == [] then map[]
    else ByIndex(nodes[..|nodes| - 1])[nodes[|nodes| - 1].index := nodes[|nodes| - 1]]
  }

  function ByPurl(nodes: seq<Node>): map<string, Package> {
    if nodes == [] then map[]
    else
      var n := nodes[|nodes| - 1];
      var m := ByPurl(nodes[..|nodes| - 1]);
      if n.purl != "" then m[n.purl := Package(n.name, n.version)] else m
  }

  /** The last node with an index stands for it. */
  ghost predicate LastWithIndex(nodes: seq<Node>, i: nat, at: nat) {
    at < |nodes| && nodes[at].index == i && forall j :: at < j < |nodes| ==> nodes[j].index != i
  }

  ghost predicate LastWithPurl(nodes: seq<Node>, purl: string, at: nat) {
    at < |nodes| && nodes[at].purl == purl && forall j :: at < j < |nodes| ==> nodes[j].purl != purl
  }

  /** A node's package url is that of the last node with its index. */
  lemma {:induction false} UrlOfNode(nodes: seq<Node>, i: nat)
    ensures forall at: nat :: LastWithIndex(nodes, i, at) ==> i in ByIndex(nodes) && ByIndex(nodes)[i] == nodes[at]
    ensures i in ByIndex(nodes) <==> exists n :: n in nodes && n.index == i
    ensures PurlOf(nodes, i) == if i in ByIndex(nodes) then ByIndex(nodes)[i].purl else ""
  {
    if nodes != [] {
      var n := |nodes| - 1;
      assert nodes == nodes[..n] + [nodes[n]];
      UrlOfNode(nodes[..n], i);
      forall at: nat | at < n ensures LastWithIndex(nodes, i, at) ==> LastWithIndex(nodes[..n], i, at) {}
      assert forall m :: m in nodes <==> m in nodes[..n] || m == nodes[n];
    }
  }

  /** A package's name and version are those of the last node with its url. */
  lemma {:induction false} NameOfPackage(nodes: seq<Node>, purl: string)
    ensures purl in ByPurl(nodes) <==> purl != "" && exists n :: n in nodes && n.purl == purl
    ensures forall at: nat :: LastWithPurl(nodes, purl, at) && purl != "" ==>
              purl in ByPurl(nodes) && ByPurl(nodes)[purl] == Package(nodes[at].name, nodes[at].version)
  {
    if nodes != [] {
      var n := |nodes| - 1;
      assert nodes == nodes[..n] + [nodes[n]];
      NameOfPackage(nodes[..n], purl);
      forall at: nat | at < n ensures LastWithPurl(nodes, purl, at) ==> LastWithPurl(nodes[..n], purl, at) {}
      assert forall m :: m in nodes <==> m in nodes[..n] || m == nodes[n];
    }
  }

  ghost predicate IsChild(nodes: seq<Node>, i: nat) {
    exists n :: n in nodes && i in n.children
  }

  /** Some root node, one that no node lists as a child, lists a node with this package url. */
  ghost predicate ChildOfRoot(roots: seq<Node>, all: seq<Node>, purl: string) {
    exists n, c :: n in roots && c in n.children && !IsChild(all, n.index) && PurlOf(all, c) == purl
  }

  function PurlOf(nodes: seq<Node>, i: nat): string {
    if i in ByIndex(nodes) then ByIndex(nodes)[i].purl else ""
  }

  lemma ChildrenSoFar(nodes: seq<Node>, i: nat)
    requires i < |nodes|
    ensures forall j :: IsChild(nodes[..i + 1], j) <==> IsChild(nodes[..i], j) || j in nodes[i].children
  {
    var n := nodes[i];
    assert nodes[..i + 1] == nodes[..i] + [n];
    forall j ensures IsChild(nodes[..i + 1], j) <==> IsChild(nodes[..i], j) || j in n.children {
      if j in n.children { assert n in nodes[..i + 1]; }
    }
  }

  method IndexNodes(nodes: seq<Node>)
    returns (byIndex: map<nat, Node>, names: map<string, Package>, hasParent: set<nat>, edges: nat)
    ensures byIndex == ByIndex(nodes) && names == ByPurl(nodes)
    ensures forall i :: i in hasParent <==> IsChild(nodes, i)
    ensures edges == 0 <==> forall i :: !IsChild(nodes, i)
  {
    byIndex, names, hasParent, edges := map[], map[], {}, 0;
    assert forall j :: !IsChild(nodes[..0], j);
    hide IsChild;
    for i := 0 to |nodes|
      invariant byIndex == ByIndex(nodes[..i]) && names == ByPurl(nodes[..i])
      invariant forall j :: j in hasParent <==> IsChild(nodes[..i], j)
      invariant edges == 0 <==> hasParent == {}
    {
      var n := nodes[i];
      assert nodes[..i + 1][..i] == nodes[..i];
      ChildrenSoFar(nodes, i);
      byIndex := byIndex[n.index := n];
      if n.purl != "" { names := names[n.purl := Package(n.name, n.version)]; }
      hasParent := hasParent + set c | c in n.children;
      edges := edges + |n.children|;
      if n.children != [] { assert n.children[0] in hasParent; }
    }
    assert nodes[..|nodes|] == nodes;
    assert edges == 0 ==> forall i :: i !in hasParent;
  }

  /** A package is direct exactly when a root of the tree lists it; without any edge the tree says nothing. */
  method MarkDirect(nodes: seq<Node>) returns (direct: set<string>, names: map<string, Package>, known: bool)
    ensures names == ByPurl(nodes)
    ensures known <==> exists i :: IsChild(nodes, i)
    ensures known ==> forall p :: p in direct <==> p != "" && ChildOfRoot(nodes, nodes, p)
    ensures !known ==> direct == {}
  {
    var byIndex, hasParent, edges;
    direct := {};
    byIndex, names, hasParent, edges := IndexNodes(nodes);
    if edges == 0 { return direct, names, false; }
    for i := 0 to |nodes|
      invariant forall p :: p in direct <==> p != "" && ChildOfRoot(nodes[..i], nodes, p)
    {
      var n := nodes[i];
      RootStep(nodes, i);
      if n.index in hasParent { continue; }
      direct := direct + set c | c in n.children && c in byIndex && byIndex[c].purl != "" :: byIndex[c].purl;
    }
    assert nodes[..|nodes|] == nodes;
    return direct, names, true;
  }

  datatype Component = Component(purl: string, direct: bool)

  datatype Depth = Depth(direct: set<string>, known: bool)

  /** What the raw SBOM adds to what the tree said. */
  function Opinion(components: seq<Component>, d: Depth): Depth {
    if components == [] then d
    else
      var before, last := Opinion(components[..|components| - 1], d), components[|components| - 1];
      if !before.known && last.direct then Depth(before.direct + {last.purl}, true) else before
  }

  ghost predicate FirstDirect(components: seq<Component>, i: nat) {
    i < |components| && components[i].direct && forall j :: 0 <= j < i ==> !components[j].direct
  }

  /** The raw SBOM's opinion counts only when the tree gave none, and then only its first direct component does:
      finding it already settles the question for all the others. */
  lemma {:induction false} OpinionIsFirst(components: seq<Component>, d: Depth)
    ensures var o := Opinion(components, d);
            && (d.known ==> o == d)
            && (!d.known ==> (o.known <==> exists c :: c in components && c.direct))
            && (!d.known && !o.known ==> o == d)
            && (!d.known && o.known ==>
                exists i: nat :: FirstDirect(components, i) && o.direct == d.direct + {components[i].purl})
  {
    if components != [] {
      var n := |components| - 1;
      var front := components[..n];
      OpinionIsFirst(front, d);
      assert components == front + [components[n]];
      var before := Opinion(front, d);
      if !d.known && before.known {
        var i: nat :| FirstDirect(front, i) && before.direct == d.direct + {front[i].purl};
        assert FirstDirect(components, i) && components[i] == front[i];
      } else if !d.known && components[n].direct {
        assert forall j :: 0 <= j < n ==> front[j] in front;
        assert FirstDirect(components, n);
      }
    }
  }

  method SecondOpinion(components: seq<Component>, direct: set<string>, known: bool)
    returns (direct': set<string>, known': bool)
    ensures Depth(direct', known') == Opinion(components, Depth(direct, known))
    ensures known ==> direct' == direct && known'
    ensures !known ==> (known' <==> exists c :: c in components && c.direct)
    ensures !known && known' ==> exists i: nat :: FirstDirect(components, i) && direct' == direct + {components[i].purl}
  {
    OpinionIsFirst(components, Depth(direct, known));
    direct', known' := direct, known;
    for i := 0 to |components|
      invariant Depth(direct', known') == Opinion(components[..i], Depth(direct, known))
    {
      assert components[..i + 1][..i] == components[..i];
      if !known' && components[i].direct {
        direct', known' := direct' + {components[i].purl}, true;
      }
    }
    assert components[..|components|] == components;
  }

  ghost predicate AllDirectReported(components: seq<Component>) {
    forall c :: c in components && c.direct ==> c.purl in Opinion(components, Depth({}, false)).direct
  }

  /** When the tree said nothing, every direct component of the raw SBOM is taken for direct exactly when all of them
      are one package. */
  lemma DirectComponentsReportedExactly(components: seq<Component>)
    ensures AllDirectReported(components) <==>
            forall c, d :: c in components && d in components && c.direct && d.direct ==> c.purl == d.purl
  {
    OpinionIsFirst(components, Depth({}, false));
    var o := Opinion(components, Depth({}, false));
    hide Opinion;
    if o.known {
      var i: nat :| FirstDirect(components, i) && o.direct == {} + {components[i].purl};
      assert components[i] in components;
    }
  }

  /** Of two direct packages the second one's findings are reported as known to be transitive. */
  lemma SecondDirectComponentLost(v: Row, first: string, names: map<string, Package>, docNames: map<string, Package>)
    requires v.scope != "direct" && v.scope != "transitive" && TrimSpace(v.purl) != first
    ensures var o := Opinion([Component(first, true), Component(TrimSpace(v.purl), true)], Depth({}, false));
            var f := FindingFor(v, Context(o.direct, o.known, names, docNames));
            f.directKnown && !f.direct
  {
    var components := [Component(first, true), Component(TrimSpace(v.purl), true)];
    OpinionIsFirst(components, Depth({}, false));
    hide Opinion;
    assert components[0] in components && components[0].direct;
    assert forall i: nat :: FirstDirect(components, i) ==> i == 0;
  }

  lemma RootStep(nodes: seq<Node>, i: nat)
    requires i < |nodes|
    ensures forall p :: ChildOfRoot(nodes[..i + 1], nodes, p) <==>
                        || ChildOfRoot(nodes[..i], nodes, p)
                        || (!IsChild(nodes, nodes[i].index) &&
                            exists c :: c in nodes[i].children && PurlOf(nodes, c) == p)
  {
    hide IsChild, PurlOf;
    var more := nodes[..i + 1];
    assert more == nodes[..i] + [nodes[i]];
    assert nodes[i] in more;
    forall p | ChildOfRoot(nodes[..i], nodes, p) ensures ChildOfRoot(more, nodes, p) {
      var n, c :| n in nodes[..i] && c in n.children && !IsChild(nodes, n.index) && PurlOf(nodes, c) == p;
      assert n in more;
    }
    forall p | ChildOfRoot(more, nodes, p) && !ChildOfRoot(nodes[..i], nodes, p)
      ensures !IsChild(nodes, nodes[i].index) && exists c :: c in nodes[i].children && PurlOf(nodes, c) == p
    {
      var n, c :| n in more && c in n.children && !IsChild(nodes, n.index) && PurlOf(nodes, c) == p;
      assert n == nodes[i];
    }
  }
}
