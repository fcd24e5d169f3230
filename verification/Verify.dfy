/** What an upload achieved, read back from the rows the server shows afterwards. */
module Verification {
  import opened Options
  import opened Sources
  import opened Duplicates

  /** One statement of the uploaded document. */
  datatype Claim = Claim(vulnID: string, purl: string, status: string)

  datatype Shown = Shown(claim: Claim, actual: string)

  datatype Result = Result(applied: nat, overridden: seq<Shown>, pending: seq<Shown>)

  predicate IsRowOf(v: Row, k: string) { StatementKey(v.vulnID, v.purl) == k }

  /** What the rows say about a key; none when no row has it. */
  function Status(rows: seq<Row>, k: string): Option<string> {
    if rows == [] then None
    else
      var v, before := rows[|rows| - 1], Status(rows[..|rows| - 1], k);
      if IsRowOf(v, k) && (v.vexStatus != "" || before.None? || before.value == "") then Some(v.vexStatus) else before
  }

  ghost predicate LastStatusAt(rows: seq<Row>, k: string, i: nat) {
    && i < |rows| && IsRowOf(rows[i], k) && rows[i].vexStatus != ""
    && forall j :: i < j < |rows| && IsRowOf(rows[j], k) ==> rows[j].vexStatus == ""
  }

  /** It is the status of the last row of the key that has one. */
  lemma {:induction false} StatusIsLast(rows: seq<Row>, k: string)
    ensures Status(rows, k).None? <==> forall v :: v in rows ==> !IsRowOf(v, k)
    ensures Status(rows, k).Some? && Status(rows, k).value != "" <==> exists i: nat :: LastStatusAt(rows, k, i)
    ensures forall i: nat :: LastStatusAt(rows, k, i) ==> Status(rows, k) == Some(rows[i].vexStatus)
  {
    hide IsRowOf;
    if rows != [] {
      var n := |rows| - 1;
      assert rows == rows[..n] + [rows[n]];
      StatusIsLast(rows[..n], k);
      if IsRowOf(rows[n], k) && rows[n].vexStatus != "" {
        assert LastStatusAt(rows, k, n);
      } else {
        forall i: nat | i < n ensures LastStatusAt(rows, k, i) <==> LastStatusAt(rows[..n], k, i) {}
        assert forall i: nat :: LastStatusAt(rows, k, i) <==> LastStatusAt(rows[..n], k, i);
      }
    }
  }

  function ActualOf(rows: seq<Row>, c: Claim): string {
    var s := Status(rows, StatementKey(c.vulnID, c.purl));
    if s.Some? then s.value else ""
  }

  function Classify(rows: seq<Row>, claims: seq<Claim>): Result {
    if claims == [] then Result(0, [], [])
    else
      var c, r := claims[|claims| - 1], Classify(rows, claims[..|claims| - 1]);
      var actual := ActualOf(rows, c);
      if actual == "" then r.(pending := r.pending + [Shown(c, actual)])
      else if actual == c.status then r.(applied := r.applied + 1)
      else r.(overridden := r.overridden + [Shown(c, actual)])
  }

  method Verify(rows: seq<Row>, claims: seq<Claim>) returns (r: Result)
    ensures r == Classify(rows, claims)
  {
    hide StatementKey;
    var status: map<string, string> := map[];
    for i := 0 to |rows|
      invariant forall k :: Status(rows[..i], k) == if k in status then Some(status[k]) else None
    {
      assert rows[..i + 1][..i] == rows[..i];
      var v := rows[i];
      var k := StatementKey(v.vulnID, v.purl);
      if v.vexStatus != "" || (if k in status then status[k] else "") == "" {
        status := status[k := v.vexStatus];
      }
    }
    assert rows[..|rows|] == rows;
    r := Result(0, [], []);
    for i := 0 to |claims|
      invariant r == Classify(rows, claims[..i])
    {
      assert claims[..i + 1][..i] == claims[..i];
      var c := claims[i];
      var k := StatementKey(c.vulnID, c.purl);
      var actual := if k in status then status[k] else "";
      if k !in status || actual == "" {
        r := r.(pending := r.pending + [Shown(c, actual)]);
      } else if actual == c.status {
        r := r.(applied := r.applied + 1);
      } else {
        r := r.(overridden := r.overridden + [Shown(c, actual)]);
      }
    }
    assert claims[..|claims|] == claims;
  }

  ghost predicate ShowsStatus(rows: seq<Row>, c: Claim) {
    exists v :: v in rows && IsRowOf(v, StatementKey(c.vulnID, c.purl)) && v.vexStatus != ""
  }

  /** Every statement is counted once, and the result is complete exactly when the server shows some status for each. */
  lemma {:induction false} ClaimsAreClassified(rows: seq<Row>, claims: seq<Claim>)
    ensures var r := Classify(rows, claims);
            && r.applied + |r.overridden| + |r.pending| == |claims|
            && (r.pending == [] <==> forall c :: c in claims ==> ShowsStatus(rows, c))
            && (forall s :: s in r.overridden <==>
                  s.claim in claims && s.actual != "" && s.actual != s.claim.status &&
                  s.actual == ActualOf(rows, s.claim))
            && (forall c :: c in claims && !ShowsStatus(rows, c) ==> exists s :: s in r.pending && s.claim == c)
            && (forall s :: s in r.pending ==> s.claim in claims && !ShowsStatus(rows, s.claim))
  {
    hide ShowsStatus, ActualOf;
    if claims != [] {
      var n := |claims| - 1;
      assert claims == claims[..n] + [claims[n]];
      ClaimsAreClassified(rows, claims[..n]);
      ShownWhenActual(rows, claims[n]);
    }
  }

  lemma ShownWhenActual(rows: seq<Row>, c: Claim)
    ensures ActualOf(rows, c) != "" <==> ShowsStatus(rows, c)
  {
    hide StatementKey;
    var k := StatementKey(c.vulnID, c.purl);
    StatusIsLast(rows, k);
    if ActualOf(rows, c) != "" {
      var i: nat :| LastStatusAt(rows, k, i);
      assert rows[i] in rows;
    }
    if ShowsStatus(rows, c) {
      var v :| v in rows && IsRowOf(v, k) && v.vexStatus != "";
      SomeLast(rows, k, v);
    }
  }

  lemma {:induction false} SomeLast(rows: seq<Row>, k: string, v: Row)
    requires v in rows && IsRowOf(v, k) && v.vexStatus != ""
    ensures exists i: nat :: LastStatusAt(rows, k, i)
  {
    hide IsRowOf;
    var n := |rows| - 1;
    assert rows == rows[..n] + [rows[n]];
    if IsRowOf(rows[n], k) && rows[n].vexStatus != "" {
      assert LastStatusAt(rows, k, n);
    } else {
      SomeLast(rows[..n], k, v);
      var i: nat :| LastStatusAt(rows[..n], k, i);
      assert LastStatusAt(rows, k, i);
    }
  }

  /** For a claim about a loaded finding that is reported applied: loading takes the same status exactly when the first
      status among the finding's rows is the last status among the rows of its key. */
  lemma AppliedIsLoadedExactly(rows: seq<Row>, c: Context, k: nat, claim: Claim)
    requires k < |Load(rows, c).findings|
    requires claim.vulnID == Load(rows, c).findings[k].vulnID && claim.purl == Load(rows, c).findings[k].purl
    requires ActualOf(rows, claim) == claim.status != ""
    ensures Load(rows, c).findings[k].vexStatus == claim.status <==>
            exists i: nat, j: nat :: FirstVerdict(rows, c, k, i) &&
                   LastStatusAt(rows, StatementKey(claim.vulnID, claim.purl), j) &&
                                     rows[i].vexStatus == rows[j].vexStatus
  {
    var key, f := StatementKey(claim.vulnID, claim.purl), Load(rows, c).findings[k];
    StatusIsLast(rows, key);
    VerdictFromFirstRow(rows, c, k);
    hide Load, Route, Status, StatementKey, IsRowOf;
    var j: nat :| LastStatusAt(rows, key, j);
    if f.vexStatus != "" {
      var i: nat :| FirstVerdict(rows, c, k, i) && SameVerdict(f, rows[i]);
      assert f.vexStatus == rows[i].vexStatus;
    } else {
      assert forall i: nat :: !FirstVerdict(rows, c, k, i);
    }
  }

  /** With two statuses under one key a statement is reported applied while the next run loads the other verdict. */
  lemma AppliedYetLoadedOtherwise(v: Row, c: Context, other: string)
    requires Clean(v) && v.vexStatus != "" && other != "" && other != v.vexStatus
    ensures var rows := [v, v.(vexStatus := other)];
            && Classify(rows, [Claim(v.vulnID, v.purl, other)]) == Result(1, [], [])
            && |Load(rows, c).findings| == 1 && Load(rows, c).findings[0].vexStatus == v.vexStatus
  {
    var w := v.(vexStatus := other);
    var rows, k := [v, w], StatementKey(v.vulnID, v.purl);
    assert LastStatusAt(rows, k, 1);
    StatusIsLast(rows, k);
    OneClaim(rows, Claim(v.vulnID, v.purl, other));
    hide Classify, Load, StatementKey;
    LoadTwo(v, w, c);
  }

  lemma OneClaim(rows: seq<Row>, c: Claim)
    requires ActualOf(rows, c) == c.status != ""
    ensures Classify(rows, [c]) == Result(1, [], [])
  {
    assert [c][..0] == [];
  }
}
