/** Which findings of an SBOM a run asks about: expired statements, the filter, and what its counters count. */
module Pipelines {
  import opened Options
  import opened Text
  import opened Sources

  datatype RunOptions = RunOptions(regenerate: bool, force: bool, noCache: bool, only: seq<string>, reassessAfter: int)

  predicate IsSettled(status: string) { status == "not_affected" || status == "fixed" }

  predicate IsReassessable(status: string) { status == "under_investigation" || status == "affected" }

  /** Written by a human or another tool. */
  predicate IsForeign(tooling: string) { tooling != "" && !HasPrefix(tooling, "vexviper/") }

  function KeyOf(f: Finding): string { StatementKey(f.vulnID, f.purl) }

  // ---- stale statements ----

  datatype VexStatement = VexStatement(vulnID: string, productPurl: string, vexTime: int, ingestedAt: int)

  function TimeOf(s: VexStatement): int { if s.vexTime != 0 then s.vexTime else s.ingestedAt }

  /** The newest time of a statement under key k; zero when none has a time. */
  function Newest(stmts: seq<VexStatement>, k: string): (t: int)
    ensures t >= 0
  {
    if stmts == [] then 0
    else
      var s := stmts[|stmts| - 1];
      var before := Newest(stmts[..|stmts| - 1], k);
      if StatementKey(s.vulnID, s.productPurl) == k && TimeOf(s) > before then TimeOf(s) else before
  }

  /** It is the maximum: some statement of the key has it, unless it is zero, and none exceeds it. */
  lemma {:induction false} NewestIsMaximum(stmts: seq<VexStatement>, k: string)
    ensures forall s :: s in stmts && StatementKey(s.vulnID, s.productPurl) == k ==> TimeOf(s) <= Newest(stmts, k)
    ensures Newest(stmts, k) > 0 ==>
              exists s :: s in stmts && StatementKey(s.vulnID, s.productPurl) == k && TimeOf(s) == Newest(stmts, k)
  {
    hide StatementKey;
    if stmts != [] {
      var n := |stmts| - 1;
      NewestIsMaximum(stmts[..n], k);
      assert stmts == stmts[..n] + [stmts[n]];
      assert stmts[n] in stmts;
      if Newest(stmts[..n], k) > 0 {
        var s :| s in stmts[..n] && StatementKey(s.vulnID, s.productPurl) == k && TimeOf(s) == Newest(stmts[..n], k);
        assert s in stmts;
      }
    }
  }

  /** The finding's verdict may be revisited and is older than the cutoff; without a time of its own the newest
      listed statement of its key decides. */
  predicate IsStale(f: Finding, cutoff: int, stmts: Option<seq<VexStatement>>) {
    && IsReassessable(f.vexStatus)
    && if f.vexTime != 0 then f.vexTime < cutoff
       else stmts.Some? && 0 < Newest(stmts.value, KeyOf(f)) < cutoff
  }

  function StaleKeys(findings: seq<Finding>, ttl: int, now: int, stmts: Option<seq<VexStatement>>): set<string> {
    set f | f in findings && ttl > 0 && IsStale(f, now - ttl, stmts) :: KeyOf(f)
  }

  method NewestByKey(stmts: seq<VexStatement>) returns (newest: map<string, int>)
    ensures forall k :: (if k in newest then newest[k] else 0) == Newest(stmts, k)
    ensures forall k :: k in newest ==> newest[k] > 0
  {
    newest := map[];
    for i := 0 to |stmts|
      invariant forall k :: (if k in newest then newest[k] else 0) == Newest(stmts[..i], k)
      invariant forall k :: k in newest ==> newest[k] > 0
    {
      assert stmts[..i + 1][..i] == stmts[..i];
      var s := stmts[i];
      var ts := s.vexTime;
      if ts == 0 { ts := s.ingestedAt; }
      var k := StatementKey(s.vulnID, s.productPurl);
      if ts > (if k in newest then newest[k] else 0) {
        newest := newest[k := ts];
      }
    }
    assert stmts[..|stmts|] == stmts;
  }

  /** stmts is None when the statements cannot be listed. */
  method StaleStatements(findings: seq<Finding>, ttl: int, now: int, stmts: Option<seq<VexStatement>>)
    returns (stale: set<string>)
    ensures stale == StaleKeys(findings, ttl, now, stmts)
  {
    hide Newest, StatementKey;
    stale := {};
    if ttl <= 0 { return; }
    var cutoff := now - ttl;
    var missing: seq<Finding> := [];
    for i := 0 to |findings|
      invariant forall f :: f in missing <==> f in findings[..i] && IsReassessable(f.vexStatus) && f.vexTime == 0
      invariant forall k :: k in stale <==>
                            exists f :: f in findings[..i] && f.vexTime != 0 && IsStale(f, cutoff, stmts) &&
                                   KeyOf(f) == k
    {
      var f := findings[i];
      assert findings[..i + 1] == findings[..i] + [f];
      if !IsReassessable(f.vexStatus) { continue; }
      if f.vexTime == 0 {
        missing := missing + [f];
        continue;
      }
      if f.vexTime < cutoff {
        assert f in findings[..i + 1];
        stale := stale + {KeyOf(f)};
      }
    }
    assert findings[..|findings|] == findings;
    if missing == [] {
      assert forall f :: f in findings && IsStale(f, cutoff, stmts) ==> f.vexTime != 0;
      return;
    }
    if stmts.None? { return; }
    var newest := NewestByKey(stmts.value);
    ghost var own := stale;
    for i := 0 to |missing|
      invariant forall k :: k in stale <==>
                            k in own || exists f :: f in missing[..i] && IsStale(f, cutoff, stmts) && KeyOf(f) == k
    {
      var f := missing[i];
      assert missing[..i + 1] == missing[..i] + [f];
      assert f in missing;
      if KeyOf(f) in newest && newest[KeyOf(f)] < cutoff {
        assert f in missing[..i + 1];
        stale := stale + {KeyOf(f)};
      }
    }
    assert missing[..|missing|] == missing;
  }

  // ---- the filter ----

  datatype Decision =
    | SkipHuman
    | SkipKept(settled: bool)
    | SkipUnwanted(reassessed: bool)
    | Take(reassessed: bool)

  predicate Listed(only: seq<string>, id: string) {
    exists x :: x in only && Lower(x) == Lower(id)
  }

  function Wanted(f: Finding, o: RunOptions, reassessed: bool): Decision {
    if |o.only| > 0 && !Listed(o.only, f.vulnID) then SkipUnwanted(reassessed) else Take(reassessed)
  }

  function Decide(f: Finding, o: RunOptions, stale: set<string>): Decision {
    if f.vexStatus != "" && !o.force then
      if IsForeign(f.vexTooling) then SkipHuman
      else if o.regenerate && !IsSettled(f.vexStatus) then Wanted(f, o, false)
      else if KeyOf(f) in stale then Wanted(f, o, true)
      else SkipKept(o.regenerate && IsSettled(f.vexStatus))
    else Wanted(f, o, false)
  }

  function Selected(loaded: seq<Finding>, o: RunOptions, stale: set<string>): (r: seq<Finding>)
    ensures forall f :: f in r <==> f in loaded && Decide(f, o, stale).Take?
  {
    if loaded == [] then []
    else
      var n := |loaded| - 1;
      assert loaded == loaded[..n] + [loaded[n]];
      Selected(loaded[..n], o, stale) + if Decide(loaded[n], o, stale).Take? then [loaded[n]] else []
  }

  ghost predicate Distinct(findings: seq<Finding>) {
    forall i, j :: 0 <= i < j < |findings| ==> KeyOf(findings[i]) != KeyOf(findings[j])
  }

  lemma LoadedAreDistinct(rows: seq<Row>, c: Context)
    ensures Distinct(Load(rows, c).findings)
  {
    hide Load;
    var fs := Load(rows, c).findings;
    forall i, j | 0 <= i < j < |fs| ensures KeyOf(fs[i]) != KeyOf(fs[j]) {
      FindingsAreDistinct(rows, c, i, j);
    }
  }

  /** Among findings with distinct keys, a key is stale only through the finding that owns it. */
  lemma StaleIsOwn(findings: seq<Finding>, f: Finding, ttl: int, now: int, stmts: Option<seq<VexStatement>>)
    requires Distinct(findings) && f in findings
    ensures KeyOf(f) in StaleKeys(findings, ttl, now, stmts) <==> ttl > 0 && IsStale(f, now - ttl, stmts)
  {
    hide IsStale, StatementKey;
    if KeyOf(f) in StaleKeys(findings, ttl, now, stmts) {
      var g :| g in findings && ttl > 0 && IsStale(g, now - ttl, stmts) && KeyOf(g) == KeyOf(f);
      var i :| 0 <= i < |findings| && findings[i] == f;
      var j :| 0 <= j < |findings| && findings[j] == g;
      assert i == j;
    }
  }

  /** The time a listed statement counts for: its own, or when it came in. */
  ghost predicate IssuedAt(s: VexStatement, k: string, t: int) {
    && StatementKey(s.vulnID, s.productPurl) == k
    && t == if s.vexTime != 0 then s.vexTime else s.ingestedAt
  }

  /** The verdict is open and older than ttl: by its own time, or, where it has none, because some listed statement of
      its key has a time and every such time is older. */
  ghost predicate HasExpired(f: Finding, ttl: int, now: int, stmts: Option<seq<VexStatement>>) {
    && ttl > 0 && (f.vexStatus == "under_investigation" || f.vexStatus == "affected")
    && if f.vexTime != 0 then now - f.vexTime > ttl
       else && stmts.Some?
            && (exists s, t :: s in stmts.value && IssuedAt(s, StatementKey(f.vulnID, f.purl), t) && t > 0)
            && forall s, t :: s in stmts.value && IssuedAt(s, StatementKey(f.vulnID, f.purl), t) ==> now - t > ttl
  }

  /** That is what being stale means. */
  lemma StaleExactly(f: Finding, ttl: int, now: int, stmts: Option<seq<VexStatement>>)
    ensures ttl > 0 && IsStale(f, now - ttl, stmts) <==> HasExpired(f, ttl, now, stmts)
  {
    hide StatementKey, Newest;
    if stmts.Some? {
      var k := KeyOf(f);
      NewestIsMaximum(stmts.value, k);
      assert forall s, t :: IssuedAt(s, k, t) <==> StatementKey(s.vulnID, s.productPurl) == k && t == TimeOf(s);
      var newest := Newest(stmts.value, k);
      if newest > 0 {
        var s :| s in stmts.value && StatementKey(s.vulnID, s.productPurl) == k && TimeOf(s) == newest;
        assert IssuedAt(s, k, newest);
      }
      if s, t :| s in stmts.value && IssuedAt(s, k, t) && t > 0 { assert newest >= t; }
    }
  }

  /** Exactly which findings of an SBOM a run without Force asks about: open ones, and those whose own verdict is
      VEXViper's, is not settled, and is to be regenerated or has expired, as far as Only wants them. */
  lemma AskedWithoutForce(rows: seq<Row>, c: Context, o: RunOptions, now: int, stmts: Option<seq<VexStatement>>,
                          f: Finding)
    requires !o.force && f in Load(rows, c).findings
    ensures var loaded := Load(rows, c).findings;
            f in Selected(loaded, o, StaleKeys(loaded, o.reassessAfter, now, stmts)) <==>
            && (o.only != [] ==> exists x :: x in o.only && Lower(x) == Lower(f.vulnID))
            && (f.vexStatus != "" ==>
                  && (f.vexTooling == "" || "vexviper/" <= f.vexTooling)
                  && f.vexStatus != "not_affected" && f.vexStatus != "fixed"
                  && (o.regenerate || HasExpired(f, o.reassessAfter, now, stmts)))
  {
    LoadedAreDistinct(rows, c);
    StaleIsOwn(Load(rows, c).findings, f, o.reassessAfter, now, stmts);
    StaleExactly(f, o.reassessAfter, now, stmts);
    NamedOrForeign(f, o);
    assert IsReassessable(f.vexStatus) ==> !IsSettled(f.vexStatus) by { ReassessableIsOpen(f.vexStatus); }
    hide Load, StaleKeys, Newest, StatementKey, Listed, IsForeign, IsSettled;
  }

  lemma NamedOrForeign(f: Finding, o: RunOptions)
    ensures Listed(o.only, f.vulnID) <==> exists x :: x in o.only && Lower(x) == Lower(f.vulnID)
    ensures IsForeign(f.vexTooling) <==> f.vexTooling != "" && !("vexviper/" <= f.vexTooling)
    ensures IsSettled(f.vexStatus) <==> f.vexStatus == "not_affected" || f.vexStatus == "fixed"
  {
    PrefixExactly(f.vexTooling, "vexviper/");
  }

  /** With Force everything that Only lets through is asked about, whatever its verdict and whoever wrote it. */
  lemma AskedWithForce(loaded: seq<Finding>, o: RunOptions, stale: set<string>, f: Finding)
    requires o.force && f in loaded
    ensures f in Selected(loaded, o, stale) <==>
            (o.only != [] ==> exists x :: x in o.only && Lower(x) == Lower(f.vulnID))
  {
    NamedOrForeign(f, o);
    hide Listed, StatementKey, IsForeign, IsSettled;
  }

  lemma ReassessableIsOpen(status: string)
    ensures IsReassessable(status) ==> !IsSettled(status)
  {
    assert |"not_affected"| == 12 && |"fixed"| == 5 && |"under_investigation"| == 19 && |"affected"| == 8;
  }

  /** Without Force no closed verdict, and no verdict of another tool or a human, is ever asked about again. */
  lemma ClosedAndForeignStay(rows: seq<Row>, c: Context, o: RunOptions, now: int, stmts: Option<seq<VexStatement>>,
                             f: Finding)
    requires !o.force
    requires var loaded := Load(rows, c).findings;
             f in Selected(loaded, o, StaleKeys(loaded, o.reassessAfter, now, stmts))
    ensures f.vexStatus != "not_affected" && f.vexStatus != "fixed"
    ensures f.vexStatus != "" ==> f.vexTooling == "" || "vexviper/" <= f.vexTooling
  {
    AskedWithoutForce(rows, c, o, now, stmts, f);
  }

  datatype Counters = Counters(skipped: nat, settled: nat, reassessed: nat, human: nat)

  function Count(d: Decision, c: Counters): Counters {
    match d
    case SkipHuman => c.(skipped := c.skipped + 1, human := c.human + 1)
    case SkipKept(settled) => c.(skipped := c.skipped + 1, settled := c.settled + if settled then 1 else 0)
    case SkipUnwanted(re) => c.(skipped := c.skipped + 1, reassessed := c.reassessed + if re then 1 else 0)
    case Take(re) => c.(reassessed := c.reassessed + if re then 1 else 0)
  }

  function Tally(loaded: seq<Finding>, o: RunOptions, stale: set<string>): Counters {
    if loaded == [] then Counters(0, 0, 0, 0)
    else Count(Decide(loaded[|loaded| - 1], o, stale), Tally(loaded[..|loaded| - 1], o, stale))
  }

  /** How many findings a decision was taken for. */
  function HowMany(loaded: seq<Finding>, o: RunOptions, stale: set<string>, d: Decision): nat {
    if loaded == [] then 0
    else HowMany(loaded[..|loaded| - 1], o, stale, d) + if Decide(loaded[|loaded| - 1], o, stale) == d then 1 else 0
  }

  /** The finding has a verdict that this run may not override, and VEXViper wrote it. */
  ghost predicate OwnVerdict(f: Finding, o: RunOptions) {
    f.vexStatus != "" && !o.force && (f.vexTooling == "" || "vexviper/" <= f.vexTooling)
  }

  ghost predicate Closed(f: Finding) { f.vexStatus == "not_affected" || f.vexStatus == "fixed" }

  /** Why a finding is skipped or taken: a foreign verdict; an own one that is settled under Regenerate, or neither
      regenerated nor stale; and as reassessed exactly a stale own one that Regenerate does not take anyway. */
  lemma DecisionExactly(f: Finding, o: RunOptions, stale: set<string>)
    ensures var d, k := Decide(f, o, stale), StatementKey(f.vulnID, f.purl);
            && (d == SkipHuman <==>
                  f.vexStatus != "" && !o.force && f.vexTooling != "" && !("vexviper/" <= f.vexTooling))
            && (d == SkipKept(true) <==> OwnVerdict(f, o) && o.regenerate && Closed(f) && k !in stale)
            && (d == SkipKept(false) <==> OwnVerdict(f, o) && !o.regenerate && k !in stale)
            && (d == SkipUnwanted(true) || d == Take(true) <==>
                  OwnVerdict(f, o) && (o.regenerate ==> Closed(f)) && k in stale)
            && (d.SkipUnwanted? ==> o.only != [] && forall x :: x in o.only ==> Lower(x) != Lower(f.vulnID))
            && (d.Take? ==> o.only == [] || exists x :: x in o.only && Lower(x) == Lower(f.vulnID))
  {
    NamedOrForeign(f, o);
    hide StatementKey, Listed, IsForeign, IsSettled, Lower;
  }

  ghost function DecidedAt(loaded: seq<Finding>, o: RunOptions, stale: set<string>, d: Decision): set<int> {
    set i | 0 <= i < |loaded| && Decide(loaded[i], o, stale) == d
  }

  lemma DecidedAtSnoc(loaded: seq<Finding>, f: Finding, o: RunOptions, stale: set<string>, d: Decision)
    ensures DecidedAt(loaded + [f], o, stale, d) ==
            DecidedAt(loaded, o, stale, d) + (if Decide(f, o, stale) == d then {|loaded|} else {})
    ensures |loaded| !in DecidedAt(loaded, o, stale, d)
  {
    hide Decide;
  }

  lemma {:induction false} HowManyIsNumber(loaded: seq<Finding>, o: RunOptions, stale: set<string>, d: Decision)
    ensures HowMany(loaded, o, stale, d) == |DecidedAt(loaded, o, stale, d)|
  {
    hide Decide;
    if loaded != [] {
      var n := |loaded| - 1;
      HowManyIsNumber(loaded[..n], o, stale, d);
      DecidedAtSnoc(loaded[..n], loaded[n], o, stale, d);
      assert loaded == loaded[..n] + [loaded[n]];
      hide DecidedAt;
    }
  }

  /** Every finding is either skipped or selected, and each counter is the number of findings it names. Reassessed also
      counts expired findings that Only then drops, so it is the number of expired findings asked about exactly when
      Only drops none of them. */
  lemma {:induction false} CountersAddUp(loaded: seq<Finding>, o: RunOptions, stale: set<string>)
    ensures var t := Tally(loaded, o, stale);
            && t.skipped + |Selected(loaded, o, stale)| == |loaded|
            && t.human == HowMany(loaded, o, stale, SkipHuman)
            && t.settled == HowMany(loaded, o, stale, SkipKept(true))
            && t.human + t.settled <= t.skipped
            && t.reassessed == HowMany(loaded, o, stale, Take(true)) + HowMany(loaded, o, stale, SkipUnwanted(true))
    ensures o.only == [] ==> HowMany(loaded, o, stale, SkipUnwanted(true)) == 0
  {
    hide Decide;
    if loaded != [] {
      CountersAddUp(loaded[..|loaded| - 1], o, stale);
      UnwantedNeedsOnly(loaded[|loaded| - 1], o, stale);
    }
  }

  /** The finding is taken up again because its verdict has expired, if Only lets it. */
  predicate Expired(f: Finding, o: RunOptions, stale: set<string>) {
    && f.vexStatus != "" && !o.force && !IsForeign(f.vexTooling)
    && !(o.regenerate && !IsSettled(f.vexStatus)) && KeyOf(f) in stale
  }

  /** Reassessed is the number of expired findings that are asked about exactly when Only lists every expired one. */
  lemma {:induction false} ReassessedIsExactWhen(loaded: seq<Finding>, o: RunOptions, stale: set<string>)
    ensures Tally(loaded, o, stale).reassessed == HowMany(loaded, o, stale, Take(true)) <==>
            forall f :: f in loaded && Expired(f, o, stale) ==> o.only == [] || Listed(o.only, f.vulnID)
  {
    CountersAddUp(loaded, o, stale);
    hide Tally;
    DroppedByOnly(loaded, o, stale);
  }

  lemma {:induction false} DroppedByOnly(loaded: seq<Finding>, o: RunOptions, stale: set<string>)
    ensures HowMany(loaded, o, stale, SkipUnwanted(true)) == 0 <==>
            forall f :: f in loaded && Expired(f, o, stale) ==> o.only == [] || Listed(o.only, f.vulnID)
  {
    if loaded != [] {
      var n := |loaded| - 1;
      assert loaded == loaded[..n] + [loaded[n]];
      DroppedByOnly(loaded[..n], o, stale);
      ExpiredUnwanted(loaded[n], o, stale);
      hide Decide, Expired, Listed;
    }
  }

  lemma ExpiredUnwanted(f: Finding, o: RunOptions, stale: set<string>)
    ensures Decide(f, o, stale) == SkipUnwanted(true) <==>
            Expired(f, o, stale) && o.only != [] && !Listed(o.only, f.vulnID)
  {
    hide Listed, StatementKey, IsForeign, IsSettled;
  }

  /** One expired finding that Only does not name is counted as reassessed, and nothing is asked. */
  lemma ReassessedOvercounts(f: Finding, o: RunOptions, other: string)
    requires Expired(f, o, {KeyOf(f)}) && o.only == [other] && Lower(other) != Lower(f.vulnID)
    ensures Tally([f], o, {KeyOf(f)}).reassessed == 1 && Selected([f], o, {KeyOf(f)}) == []
  {
    ExpiredUnwanted(f, o, {KeyOf(f)});
    assert [f][..0] == [];
    hide Decide, Expired, StatementKey;
  }

  lemma UnwantedNeedsOnly(f: Finding, o: RunOptions, stale: set<string>)
    ensures o.only == [] ==> !Decide(f, o, stale).SkipUnwanted?
  {
    hide Listed, StatementKey, IsForeign, IsSettled;
  }

  lemma FilterStarts(loaded: seq<Finding>, o: RunOptions, stale: set<string>)
    ensures loaded[..0] == [] && Selected([], o, stale) == [] && Tally([], o, stale) == Counters(0, 0, 0, 0)
  {
  }

  lemma FilterStep(loaded: seq<Finding>, o: RunOptions, stale: set<string>, i: nat)
    requires i < |loaded|
    ensures Selected(loaded[..i + 1], o, stale) ==
            Selected(loaded[..i], o, stale) + if Decide(loaded[i], o, stale).Take? then [loaded[i]] else []
    ensures Tally(loaded[..i + 1], o, stale) == Count(Decide(loaded[i], o, stale), Tally(loaded[..i], o, stale))
  {
    hide Decide, Count;
    assert loaded[..i + 1][..i] == loaded[..i];
  }

  method Filter(loaded: seq<Finding>, o: RunOptions, stale: set<string>) returns (findings: seq<Finding>, c: Counters)
    ensures findings == Selected(loaded, o, stale) && c == Tally(loaded, o, stale)
  {
    findings, c := [], Counters(0, 0, 0, 0);
    FilterStarts(loaded, o, stale);
    hide Selected, Tally, StatementKey, Listed, IsForeign, IsSettled;
    for i := 0 to |loaded|
      invariant findings == Selected(loaded[..i], o, stale) && c == Tally(loaded[..i], o, stale)
    {
      var f := loaded[i];
      FilterStep(loaded, o, stale, i);
      if f.vexStatus != "" && !o.force {
        if IsForeign(f.vexTooling) {
          c := c.(skipped := c.skipped + 1, human := c.human + 1);
          continue;
        } else if o.regenerate && !IsSettled(f.vexStatus) {
        } else if KeyOf(f) in stale {
          c := c.(reassessed := c.reassessed + 1);
        } else {
          c := c.(skipped := c.skipped + 1);
          if o.regenerate && IsSettled(f.vexStatus) { c := c.(settled := c.settled + 1); }
          continue;
        }
      }
      if |o.only| > 0 && !Listed(o.only, f.vulnID) {
        c := c.(skipped := c.skipped + 1);
        continue;
      }
      findings := findings + [f];
    }
    assert loaded[..|loaded|] == loaded;
  }
}
