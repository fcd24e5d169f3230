/** When rows about one vulnerability end in one finding, whose verdict that finding keeps, and when rows about
    different packages are mistaken for each other. */
module Duplicates {
  import opened Options
  import opened Text
  import opened Sources

  /** Row i is usable and one of its ids makes key k. */
  ghost predicate Carries(rows: seq<Row>, c: Context, i: nat, k: string) {
    i < |rows| && Usable(FindingFor(rows[i], c)) && HasKey(FindingFor(rows[i], c), k)
  }

  /** Row i starts a finding of its own. */
  ghost predicate Opening(rows: seq<Row>, c: Context, i: nat) {
    i < |rows| && Route(rows, c, i) == Some(|Load(rows[..i], c).findings|)
  }

  /** Row i is absorbed by an earlier finding. */
  ghost predicate Dropped(rows: seq<Row>, c: Context, i: nat) {
    i < |rows| && Route(rows, c, i).Some? && Route(rows, c, i).value < |Load(rows[..i], c).findings|
  }

  ghost predicate OpenedEarlier(rows: seq<Row>, c: Context, n: nat, k: string) {
    exists i: nat :: i < n && Opening(rows, c, i) && Carries(rows, c, i, k)
  }

  ghost predicate DroppedEarlier(rows: seq<Row>, c: Context, n: nat, k: string) {
    exists i: nat :: i < n && Dropped(rows, c, i) && Carries(rows, c, i, k)
  }

  ghost predicate CarriedEarlier(rows: seq<Row>, c: Context, n: nat, k: string) {
    exists i: nat :: i < n && Carries(rows, c, i, k)
  }

  lemma UsableIsRouted(rows: seq<Row>, c: Context, i: nat)
    requires i < |rows|
    ensures Usable(FindingFor(rows[i], c)) <==> Opening(rows, c, i) || Dropped(rows, c, i)
    ensures !(Opening(rows, c, i) && Dropped(rows, c, i))
  {
    LoadIsConsistent(rows[..i], c);
    hide FindingFor, StatementKey, Ids, HasKey, Load;
  }

  lemma PrefixAlike(rows: seq<Row>, c: Context, n: nat, i: nat)
    requires i < n <= |rows|
    ensures Opening(rows[..n], c, i) == Opening(rows, c, i) && Dropped(rows[..n], c, i) == Dropped(rows, c, i)
    ensures Route(rows[..n], c, i) == Route(rows, c, i)
    ensures forall k :: Carries(rows[..n], c, i, k) == Carries(rows, c, i, k)
  {
    hide Route, FindingFor, HasKey, Load;
    RoutePrefix(rows, c, n, i);
    assert rows[..n][..i] == rows[..i];
  }

  /** Finding m was opened by a row that carries k. */
  ghost predicate OpenedAs(rows: seq<Row>, c: Context, k: string, m: nat) {
    exists i: nat :: Opening(rows, c, i) && Carries(rows, c, i, k) && Route(rows, c, i) == Some(m)
  }

  lemma OpenedSnoc(rows: seq<Row>, c: Context, k: string)
    requires rows != []
    ensures var n := |rows| - 1;
            OpenedEarlier(rows, c, |rows|, k) <==>
            OpenedEarlier(rows[..n], c, n, k) || (Opening(rows, c, n) && Carries(rows, c, n, k))
  {
    hide Opening, Carries;
    var n := |rows| - 1;
    forall i: nat | i < n
      ensures Opening(rows[..n], c, i) == Opening(rows, c, i) && Carries(rows[..n], c, i, k) == Carries(rows, c, i, k)
    {
      PrefixAlike(rows, c, n, i);
    }
    if OpenedEarlier(rows[..n], c, n, k) {
      var i: nat :| i < n && Opening(rows[..n], c, i) && Carries(rows[..n], c, i, k);
      assert Opening(rows, c, i) && Carries(rows, c, i, k);
    }
    if i: nat :| i < |rows| && Opening(rows, c, i) && Carries(rows, c, i, k) {
      if i < n { assert Opening(rows[..n], c, i) && Carries(rows[..n], c, i, k); }
    }
  }

  lemma OpenedAsStays(rows: seq<Row>, c: Context, k: string, m: nat)
    requires rows != [] && OpenedAs(rows[..|rows| - 1], c, k, m)
    ensures OpenedAs(rows, c, k, m)
  {
    hide Carries, Route;
    var n := |rows| - 1;
    var i: nat :| Opening(rows[..n], c, i) && Carries(rows[..n], c, i, k) && Route(rows[..n], c, i) == Some(m);
    InRange(rows[..n], c, i);
    PrefixAlike(rows, c, n, i);
    hide Opening;
  }

  /** The keys that are remembered are those of opening rows, each with the finding its row opened. */
  lemma {:induction false} SeenIsOpened(rows: seq<Row>, c: Context, k: string)
    ensures k in Load(rows, c).seen <==> OpenedEarlier(rows, c, |rows|, k)
    ensures k in Load(rows, c).seen ==> OpenedAs(rows, c, k, Load(rows, c).seen[k])
  {
    hide Carries, OpenedEarlier, OpenedAs, FindingFor, HasKey, Route;
    if rows == [] {
      assert !OpenedEarlier(rows, c, 0, k) by { NoneOpened(rows, c, k); }
    } else {
      var n := |rows| - 1;
      SeenIsOpened(rows[..n], c, k);
      LastSeen(rows, c, k);
      OpenedSnoc(rows, c, k);
      if Opening(rows, c, n) && Carries(rows, c, n, k) {
        OpenedNow(rows, c, n, k);
      } else if k in Load(rows[..n], c).seen {
        OpenedAsStays(rows, c, k, Load(rows[..n], c).seen[k]);
      }
    }
  }

  lemma NoneOpened(rows: seq<Row>, c: Context, k: string)
    ensures !OpenedEarlier(rows, c, 0, k)
  {
  }

  lemma OpenedNow(rows: seq<Row>, c: Context, i: nat, k: string)
    requires Opening(rows, c, i) && Carries(rows, c, i, k)
    ensures OpenedAs(rows, c, k, |Load(rows[..i], c).findings|)
  {
    hide Carries, Route;
    assert Route(rows, c, i) == Some(|Load(rows[..i], c).findings|);
  }

  lemma InRange(rows: seq<Row>, c: Context, i: nat)
    requires Opening(rows, c, i)
    ensures i < |rows|
  {
  }

  /** The last row adds its keys if it opens a finding, and none otherwise. */
  lemma LastSeen(rows: seq<Row>, c: Context, k: string)
    requires rows != []
    ensures var n := |rows| - 1;
            var l, m := Load(rows[..n], c), Load(rows, c);
            && (k in m.seen <==> k in l.seen || (Opening(rows, c, n) && Carries(rows, c, n, k)))
            && (k in m.seen ==>
                m.seen[k] == if Opening(rows, c, n) && Carries(rows, c, n, k) then |l.findings| else l.seen[k])
            && (k in l.seen ==> m.seen[k] == l.seen[k])
  {
    var n := |rows| - 1;
    var l, f := Load(rows[..n], c), FindingFor(rows[n], c);
    LoadIsConsistent(rows[..n], c);
    RegisterOwns(l.seen, f, |l.findings|);
    FreshKeys(l, f);
    hide StatementKey, Ids, FindingFor, HasKey;
  }

  lemma FreshKeys(l: Loaded, f: Finding)
    ensures FindSeen(l.seen, Ids(f), f.purl).None? ==> forall k :: HasKey(f, k) ==> k !in l.seen
  {
    hide StatementKey, Ids;
  }

  // ---- when rows that share a key stay apart ----

  /** A row opens a finding exactly when no opening row before it carries one of its keys. */
  lemma OpensExactly(rows: seq<Row>, c: Context, n: nat)
    requires n < |rows| && Usable(FindingFor(rows[n], c))
    ensures Opening(rows, c, n) <==> forall k :: Carries(rows, c, n, k) ==> !OpenedEarlier(rows, c, n, k)
  {
    var l, f := Load(rows[..n], c), FindingFor(rows[n], c);
    LoadIsConsistent(rows[..n], c);
    forall k ensures k in l.seen <==> OpenedEarlier(rows, c, n, k) {
      SeenIsOpened(rows[..n], c, k);
      OpenedPrefix(rows, c, n, k);
    }
    hide OpenedEarlier, FindingFor, Load, StatementKey, Ids;
    var twin := FindSeen(l.seen, Ids(f), f.purl);
    if twin.Some? {
      var id :| id in Ids(f) && StatementKey(id, f.purl) in l.seen && l.seen[StatementKey(id, f.purl)] == twin.value;
      assert Carries(rows, c, n, StatementKey(id, f.purl));
    }
  }

  lemma OpenedPrefix(rows: seq<Row>, c: Context, n: nat, k: string)
    requires n <= |rows|
    ensures OpenedEarlier(rows[..n], c, n, k) <==> OpenedEarlier(rows, c, n, k)
  {
    hide Opening, Carries;
    forall i: nat | i < n
      ensures Opening(rows[..n], c, i) == Opening(rows, c, i) && Carries(rows[..n], c, i, k) == Carries(rows, c, i, k)
    {
      PrefixAlike(rows, c, n, i);
    }
  }

  lemma CarriedExactly(rows: seq<Row>, c: Context, n: nat, k: string)
    requires n <= |rows|
    ensures CarriedEarlier(rows, c, n, k) <==> OpenedEarlier(rows, c, n, k) || DroppedEarlier(rows, c, n, k)
  {
    forall i: nat | i < n && Carries(rows, c, i, k) ensures Opening(rows, c, i) || Dropped(rows, c, i) {
      UsableIsRouted(rows, c, i);
    }
    hide Opening, Dropped, Carries;
    if i: nat :| i < n && Carries(rows, c, i, k) {
      assert Opening(rows, c, i) || Dropped(rows, c, i);
    }
  }

  /** Alias merging fails exactly so: a row opens a second finding although an earlier row shares one of its keys, if
      and only if no opening row carries any of its keys and a dropped row carries one. */
  lemma SecondFindingExactly(rows: seq<Row>, c: Context, n: nat)
    requires n < |rows| && Usable(FindingFor(rows[n], c))
    ensures Opening(rows, c, n) && (exists k :: Carries(rows, c, n, k) && CarriedEarlier(rows, c, n, k)) <==>
            && (forall k :: Carries(rows, c, n, k) ==> !OpenedEarlier(rows, c, n, k))
            && exists k :: Carries(rows, c, n, k) && DroppedEarlier(rows, c, n, k)
  {
    OpensExactly(rows, c, n);
    hide Opening, Carries, CarriedEarlier, OpenedEarlier, DroppedEarlier, FindingFor, Usable;
    forall k ensures CarriedEarlier(rows, c, n, k) <==> OpenedEarlier(rows, c, n, k) || DroppedEarlier(rows, c, n, k) {
      CarriedExactly(rows, c, n, k);
    }
  }

  /** The finding that a route leads to has the key. */
  ghost predicate Owns(rows: seq<Row>, c: Context, route: Option<nat>, k: string) {
    route.Some? && route.value < |Load(rows, c).findings| && HasKey(Load(rows, c).findings[route.value], k)
  }

  /** Whatever ids a dropped row has, its finding has them too. */
  ghost predicate DropsAddNothing(rows: seq<Row>, c: Context) {
    forall i: nat, k :: Dropped(rows, c, i) && Carries(rows, c, i, k) ==> Owns(rows, c, Route(rows, c, i), k)
  }

  lemma {:induction false} SeenStays(rows: seq<Row>, c: Context, n: nat, k: string)
    requires n <= |rows| && k in Load(rows[..n], c).seen
    ensures k in Load(rows, c).seen && Load(rows, c).seen[k] == Load(rows[..n], c).seen[k]
    decreases |rows|
  {
    hide Load;
    if n < |rows| {
      var m := |rows| - 1;
      assert rows[..m][..n] == rows[..n];
      SeenStays(rows[..m], c, n, k);
      LastSeen(rows, c, k);
    } else {
      assert rows[..n] == rows;
    }
  }

  lemma OwnerIsSeen(rows: seq<Row>, c: Context, route: Option<nat>, k: string)
    requires Owns(rows, c, route, k)
    ensures k in Load(rows, c).seen && Some(Load(rows, c).seen[k]) == route
  {
    LoadIsConsistent(rows, c);
    hide HasKey, Load, Usable;
  }

  lemma CarrierIsSeen(rows: seq<Row>, c: Context, i: nat, k: string)
    requires DropsAddNothing(rows, c) && Carries(rows, c, i, k)
    ensures k in Load(rows, c).seen && Some(Load(rows, c).seen[k]) == Route(rows, c, i)
  {
    UsableIsRouted(rows, c, i);
    hide Load, Route, Owns, FindingFor, HasKey, Usable;
    if Opening(rows, c, i) {
      var upTo := rows[..i + 1];
      assert upTo[..i] == rows[..i] && |upTo| - 1 == i;
      PrefixAlike(rows, c, i + 1, i);
      LastSeen(upTo, c, k);
      SeenStays(rows, c, i + 1, k);
    } else {
      OwnerIsSeen(rows, c, Route(rows, c, i), k);
    }
  }

  /** Where dropped rows bring no ids of their own, any two rows that share a key end in one finding. */
  lemma TwinsEndTogether(rows: seq<Row>, c: Context, i: nat, j: nat, k: string)
    requires DropsAddNothing(rows, c) && Carries(rows, c, i, k) && Carries(rows, c, j, k)
    ensures i < |rows| && j < |rows| && Route(rows, c, i).Some? && Route(rows, c, i) == Route(rows, c, j)
  {
    CarrierIsSeen(rows, c, i, k);
    CarrierIsSeen(rows, c, j, k);
    hide Route, Load, DropsAddNothing;
  }

  // ---- whose verdict is kept ----

  ghost predicate HasVerdictFor(rows: seq<Row>, c: Context, k: nat, i: nat) {
    i < |rows| && Route(rows, c, i) == Some(k) && rows[i].vexStatus != ""
  }

  /** A finding keeps the newest of its rows' verdicts exactly when none of them after the first is newer. */
  lemma KeptVerdictIsNewest(rows: seq<Row>, c: Context, k: nat)
    requires k < |Load(rows, c).findings| && Load(rows, c).findings[k].vexStatus != ""
    ensures (forall j: nat ::
               HasVerdictFor(rows, c, k, j) ==> rows[j].vexTime <= Load(rows, c).findings[k].vexTime) <==>
            forall i: nat, j: nat :: FirstVerdict(rows, c, k, i) && i < j && HasVerdictFor(rows, c, k, j) ==>
                                     rows[j].vexTime <= rows[i].vexTime
  {
    VerdictFromFirstRow(rows, c, k);
    hide Route, Load;
    var i: nat :| FirstVerdict(rows, c, k, i) && SameVerdict(Load(rows, c).findings[k], rows[i]);
    assert HasVerdictFor(rows, c, k, i);
    forall j: nat | HasVerdictFor(rows, c, k, j) ensures i <= j {}
  }

  // ---- two rows ----

  /** What a row for one package needs to be loaded as it is written. */
  predicate Clean(v: Row) {
    TrimSpace(v.vulnID) == v.vulnID != "" && TrimSpace(v.purl) == v.purl != "" && v.aliases == []
  }

  lemma CleanRow(v: Row, c: Context)
    requires Clean(v)
    ensures var f := FindingFor(v, c);
            Usable(f) && f.vulnID == v.vulnID && f.purl == v.purl && Ids(f) == [v.vulnID] && SameVerdict(f, v)
  {
  }

  lemma LoadOne(v: Row, c: Context)
    requires Clean(v)
    ensures Load([v], c).findings == [FindingFor(v, c)]
    ensures forall k :: k in Load([v], c).seen <==> k == StatementKey(v.vulnID, v.purl)
    ensures forall k :: k in Load([v], c).seen ==> Load([v], c).seen[k] == 0
  {
    CleanRow(v, c);
    hide FindingFor, StatementKey;
    assert [v][..0] == [];
    assert Load([v], c) == AddRow(Loaded([], map[]), FindingFor(v, c));
    assert v.vulnID in [v.vulnID];
  }

  /** Two plain rows become one finding, with the first one's verdict if it has any, exactly when their keys agree. */
  lemma LoadTwo(v: Row, w: Row, c: Context)
    requires Clean(v) && Clean(w)
    ensures |Load([v, w], c).findings| == 1 <==> StatementKey(v.vulnID, v.purl) == StatementKey(w.vulnID, w.purl)
    ensures |Load([v, w], c).findings| == 1 ==>
              var f := Load([v, w], c).findings[0];
              f.vulnID == v.vulnID && f.purl == v.purl && (v.vexStatus != "" ==> SameVerdict(f, v))
  {
    var rows := [v, w];
    CleanRow(v, c);
    CleanRow(w, c);
    LoadOne(v, c);
    assert rows[..1] == [v];
    hide FindingFor, StatementKey;
    var one := Load([v], c);
    assert Load(rows, c) == AddRow(one, FindingFor(w, c));
    hide Load, Register;
    assert [w.vulnID][0] == w.vulnID && [w.vulnID][1..] == [];
  }

  /** The comment promises the newest verdict of duplicate rows; the older one is kept when it comes first. */
  lemma OlderVerdictIsKept(v: Row, w: Row, c: Context)
    requires Clean(v) && Clean(w) && w.vulnID == v.vulnID && w.purl == v.purl
    requires v.vexStatus != "" && w.vexStatus != "" && v.vexTime < w.vexTime
    ensures |Load([v, w], c).findings| == 1 && Load([v, w], c).findings[0].vexTime == v.vexTime < w.vexTime
  {
    LoadTwo(v, w, c);
    hide Load;
  }

  // ---- keys of different packages ----

  /** The longer id goes on with a NUL and some text with which, after another NUL, the other package url begins. */
  ghost predicate Overlaps(id: string, purl: string, id': string, purl': string) {
    exists m: string :: id' == id + "\0" + m && purl == m + "\0" + purl'
  }

  lemma JoinedLength(a: string, b: string)
    ensures |StatementKey(a, b)| == |a| + 1 + |b|
    ensures StatementKey(a, b)[..|a|] == a && StatementKey(a, b)[|a|] == '\0' && StatementKey(a, b)[|a| + 1..] == b
  {
  }

  lemma OverlapFromKeys(id: string, purl: string, id': string, purl': string)
    requires StatementKey(id, purl) == StatementKey(id', purl') && |id| < |id'|
    ensures Overlaps(id, purl, id', purl')
  {
    JoinedLength(id, purl);
    JoinedLength(id', purl');
    var k := StatementKey(id, purl);
    hide StatementKey;
    var m := id'[|id| + 1..];
    assert id' == k[..|id'|] && id'[..|id|] == k[..|id|] && id'[|id|] == k[|id|];
    assert id' == id + "\0" + m;
    assert purl == k[|id| + 1..] && purl[..|m|] == m && purl[|m|] == k[|id'|] && purl[|m| + 1..] == k[|id'| + 1..];
    assert purl == m + "\0" + purl';
  }

  /** Keys of two pairs agree exactly when the pairs do or one overlaps the other. */
  lemma KeysAgree(id: string, purl: string, id': string, purl': string)
    ensures StatementKey(id, purl) == StatementKey(id', purl') <==>
            (id == id' && purl == purl') || Overlaps(id, purl, id', purl') || Overlaps(id', purl', id, purl)
  {
    JoinedLength(id, purl);
    JoinedLength(id', purl');
    if StatementKey(id, purl) == StatementKey(id', purl') {
      if |id| < |id'| {
        OverlapFromKeys(id, purl, id', purl');
      } else if |id'| < |id| {
        OverlapFromKeys(id', purl', id, purl);
      } else {
        assert id == id';
      }
    }
    OverlapMakesKeys(id, purl, id', purl');
    OverlapMakesKeys(id', purl', id, purl);
  }

  lemma OverlapMakesKeys(id: string, purl: string, id': string, purl': string)
    ensures Overlaps(id, purl, id', purl') ==> StatementKey(id, purl) == StatementKey(id', purl')
  {
    if m: string :| id' == id + "\0" + m && purl == m + "\0" + purl' {
      assert id + "\0" + (m + "\0" + purl') == (id + "\0" + m) + "\0" + purl';
    }
  }

  ghost predicate SomeOverlap(f: Finding, g: Finding) {
    exists id, id' :: id in Ids(f) && id' in Ids(g) &&
           (Overlaps(id, f.purl, id', g.purl) || Overlaps(id', g.purl, id, f.purl))
  }

  /** Rows of different packages share a key exactly when a NUL inside an id and a package url lets them overlap. */
  lemma DifferentPackagesShareKey(f: Finding, g: Finding)
    requires f.purl != g.purl
    ensures (exists k :: HasKey(f, k) && HasKey(g, k)) <==> SomeOverlap(f, g)
  {
    hide StatementKey, Ids, Overlaps;
    forall id, id' ensures StatementKey(id, f.purl) == StatementKey(id', g.purl) <==>
                           Overlaps(id, f.purl, id', g.purl) || Overlaps(id', g.purl, id, f.purl) {
      KeysAgree(id, f.purl, id', g.purl);
    }
    if k :| HasKey(f, k) && HasKey(g, k) {
      var id :| id in Ids(f) && StatementKey(id, f.purl) == k;
      var id' :| id' in Ids(g) && StatementKey(id', g.purl) == k;
      assert SomeOverlap(f, g);
    }
    if SomeOverlap(f, g) {
      var id, id' :| id in Ids(f) && id' in Ids(g) &&
        (Overlaps(id, f.purl, id', g.purl) || Overlaps(id', g.purl, id, f.purl));
      assert HasKey(f, StatementKey(id, f.purl)) && HasKey(g, StatementKey(id, f.purl));
    }
  }

  function PlainRow(id: string, purl: string, aliases: seq<string>): Row {
    Row(id, purl, "", "", 0, "", aliases, "")
  }

  lemma NulKeysAgree()
    ensures StatementKey("a", "b\0c") == StatementKey("a\0b", "c") && "b\0c" != "c"
  {
    assert "a" + "\0" + "b\0c" == "a\0b" + "\0" + "c";
    assert |"b\0c"| == 3 && |"c"| == 1;
  }

  lemma NulRowsAreClean()
    ensures Clean(PlainRow("a", "b\0c", [])) && Clean(PlainRow("a\0b", "c", []))
  {
    TrimmedAlready("a");
    TrimmedAlready("b\0c");
    TrimmedAlready("a\0b");
    TrimmedAlready("c");
    hide TrimSpace;
  }

  /** Two such packages: their rows load as one finding, and the second package is lost. */
  lemma NulMergesPackages(c: Context)
    ensures var rows := [PlainRow("a", "b\0c", []), PlainRow("a\0b", "c", [])];
            |Load(rows, c).findings| == 1 && Load(rows, c).findings[0].purl == "b\0c" != "c"
  {
    NulKeysAgree();
    NulRowsAreClean();
    hide Load, Clean, StatementKey;
    LoadTwo(PlainRow("a", "b\0c", []), PlainRow("a\0b", "c", []), c);
  }

  // ---- three rows ----

  lemma KeysApart(a: string, b: string, purl: string)
    requires a != b
    ensures StatementKey(a, purl) != StatementKey(b, purl)
  {
    JoinedLength(a, purl);
    JoinedLength(b, purl);
    hide StatementKey;
  }

  /** A row whose alias is the first row's id, and what it leaves. */
  lemma TwinIsDropped(v: Row, w: Row, c: Context)
    requires Clean(v) && w.purl == v.purl && w.aliases == [v.vulnID]
    requires TrimSpace(w.vulnID) == w.vulnID != "" && w.vulnID != v.vulnID
    ensures Load([v, w], c).seen == Load([v], c).seen && |Load([v, w], c).findings| == 1
    ensures Route([v, w], c, 1) == Some(0)
  {
    var rows := [v, w];
    LoadOne(v, c);
    KeysApart(v.vulnID, w.vulnID, v.purl);
    assert rows[..1] == [v];
    var one, g := Load([v], c), FindingFor(w, c);
    assert g.vulnID == w.vulnID && g.purl == w.purl && Ids(g) == [w.vulnID] + [v.vulnID] && Usable(g);
    assert ([w.vulnID] + [v.vulnID])[1..] == [v.vulnID];
    hide FindingFor, StatementKey, Register, Ids;
    assert FindSeen(one.seen, [v.vulnID], g.purl) == Some(0);
    assert FindSeen(one.seen, Ids(g), g.purl) == Some(0);
    assert Load(rows, c) == AddRow(one, g);
  }

  /** The ids of a dropped duplicate are not remembered: w's alias puts it with v, yet a later row u for w's own id
      becomes a second finding of the same package. */
  lemma MergingIsNotTransitive(v: Row, w: Row, u: Row, c: Context)
    requires Clean(v) && Clean(u) && w.purl == v.purl == u.purl && w.aliases == [v.vulnID]
    requires w.vulnID == u.vulnID != v.vulnID
    ensures var rows := [v, w, u];
            Route(rows, c, 1) == Some(0) && Route(rows, c, 2) == Some(1) && |Load(rows, c).findings| == 2
  {
    var rows := [v, w, u];
    assert rows[..2] == [v, w] && rows[..2][..1] == rows[..1];
    TwinIsDropped(v, w, c);
    LoadOne(v, c);
    CleanRow(u, c);
    KeysApart(v.vulnID, u.vulnID, v.purl);
    RoutePrefix(rows, c, 2, 1);
    var two, g := Load([v, w], c), FindingFor(u, c);
    hide FindingFor, StatementKey, Register;
    assert [u.vulnID][1..] == [];
    assert FindSeen(two.seen, Ids(g), g.purl) == None;
    assert Load(rows, c) == AddRow(two, g);
  }
}
