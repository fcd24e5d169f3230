/** Results of the Go call-graph analyser: reading its message stream, merging the modules of a product, and the
    evidence drawn from them. */
module Govulncheck {
  import opened Options
  import opened Evidence

  /** The vulnerable symbol's function name comes first; it is empty where the analysis stopped at package level. */
  datatype Frame = Frame(package: string, function_: string)

  type Trace = seq<Frame>

  datatype Message =
    | Config(level: string)
    | Modules(modules: seq<(string, string)>)
    | Osv(id: string, aliases: seq<string>)
    | Found(osv: string, trace: Trace)
    | Other

  datatype Result = Result(findings: map<string, seq<Trace>>, modules: map<string, string>,
                           aliases: map<string, string>,
                           level: string)

  const EMPTY := Result(map[], map[], map[], "")

  const SYMBOL := "symbol"

  function At(m: map<string, seq<Trace>>, k: string): seq<Trace> { if k in m then m[k] else [] }

  function WithAliases(m: map<string, string>, aliases: seq<string>, id: string): map<string, string> {
    if aliases == [] then m else WithAliases(m, aliases[..|aliases| - 1], id)[aliases[|aliases| - 1] := id]
  }

  function WithModules(m: map<string, string>, modules: seq<(string, string)>): map<string, string> {
    if modules == [] then m
    else WithModules(m, modules[..|modules| - 1])[modules[|modules| - 1].0 := modules[|modules| - 1].1]
  }

  function Read(g: Result, msg: Message): Result {
    match msg
    case Config(level) => g.(level := level)
    case Modules(ms) => g.(modules := WithModules(g.modules, ms))
    case Osv(id, more) => g.(aliases := WithAliases(g.aliases[id := id], more, id))
    case Found(osv, trace) => g.(findings := g.findings[osv := At(g.findings, osv) + [trace]])
    case Other => g
  }

  function Parsed(ms: seq<Message>): Result {
    if ms == [] then EMPTY else Read(Parsed(ms[..|ms| - 1]), ms[|ms| - 1])
  }

  function MergedLevel(g: string, o: string): string { if g == "" || o == SYMBOL then o else g }

  function MergedFindings(g: map<string, seq<Trace>>, o: map<string, seq<Trace>>): map<string, seq<Trace>> {
    map k | k in g.Keys + o.Keys :: At(g, k) + At(o, k)
  }

  function Merged(g: Result, o: Result): Result {
    Result(MergedFindings(g.findings, o.findings), g.modules + o.modules, g.aliases + o.aliases,
           MergedLevel(g.level, o.level))
  }

  method Parse(ms: seq<Message>) returns (g: Result)
    ensures g == Parsed(ms)
  {
    g := EMPTY;
    for i := 0 to |ms|
      invariant g == Parsed(ms[..i])
    {
      assert ms[..i + 1][..i] == ms[..i];
      match ms[i]
      case Config(level) => g := g.(level := level);
      case Modules(modules) =>
        var m := g.modules;
        for j := 0 to |modules|
          invariant m == WithModules(g.modules, modules[..j])
        {
          assert modules[..j + 1][..j] == modules[..j];
          m := m[modules[j].0 := modules[j].1];
        }
        assert modules[..|modules|] == modules;
        g := g.(modules := m);
      case Osv(id, aliases) =>
        var m := g.aliases[id := id];
        for j := 0 to |aliases|
          invariant m == WithAliases(g.aliases[id := id], aliases[..j], id)
        {
          assert aliases[..j + 1][..j] == aliases[..j];
          m := m[aliases[j] := id];
        }
        assert aliases[..|aliases|] == aliases;
        g := g.(aliases := m);
      case Found(osv, trace) => g := g.(findings := g.findings[osv := At(g.findings, osv) + [trace]]);
      case Other =>
    }
    assert ms[..|ms|] == ms;
  }

  method Merge(g: Result, o: Result) returns (r: Result)
    ensures r == Merged(g, o)
  {
    var findings := g.findings;
    var keys := o.findings.Keys;
    while keys != {}
      invariant keys <= o.findings.Keys
      invariant findings.Keys == g.findings.Keys + (o.findings.Keys - keys)
      invariant forall k :: k in findings ==>
                findings[k] == At(g.findings, k) + if k in keys then [] else At(o.findings, k)
    {
      var k :| k in keys;
      keys := keys - {k};
      findings := findings[k := At(findings, k) + o.findings[k]];
    }
    assert findings == MergedFindings(g.findings, o.findings);
    r := Result(findings, g.modules + o.modules, g.aliases + o.aliases,
                if g.level == "" || o.level == SYMBOL then o.level else g.level);
  }

  // ---- what reading finds ----

  /** The traces reported for an id, in stream order. */
  function TracesOf(ms: seq<Message>, id: string): seq<Trace> {
    if ms == [] then []
    else
      var m := ms[|ms| - 1];
      TracesOf(ms[..|ms| - 1], id) + if m.Found? && m.osv == id then [m.trace] else []
  }

  predicate NamesOsv(m: Message, a: string) { m.Osv? && (m.id == a || a in m.aliases) }

  /** Message i is the last advisory that goes by the name a. */
  ghost predicate LastAdvisory(ms: seq<Message>, a: string, i: nat) {
    && i < |ms| && NamesOsv(ms[i], a)
    && forall j :: i < j < |ms| ==> !NamesOsv(ms[j], a)
  }

  lemma {:induction false} AliasesAre(m: map<string, string>, more: seq<string>, id: string)
    ensures forall a :: a in WithAliases(m, more, id) <==> a in m || a in more
    ensures forall a :: a in WithAliases(m, more, id) ==> WithAliases(m, more, id)[a] == if a in more then id else m[a]
  {
    if more != [] {
      var n := |more| - 1;
      assert more == more[..n] + [more[n]];
      AliasesAre(m, more[..n], id);
    }
  }

  lemma {:induction false} ParsedTraces(ms: seq<Message>, id: string)
    ensures At(Parsed(ms).findings, id) == TracesOf(ms, id)
  {
    hide WithModules, WithAliases;
    if ms != [] { ParsedTraces(ms[..|ms| - 1], id); }
  }

  lemma ReadAliases(g: Result, m: Message, a: string)
    ensures a in Read(g, m).aliases <==> a in g.aliases || NamesOsv(m, a)
    ensures a in Read(g, m).aliases ==> Read(g, m).aliases[a] == if NamesOsv(m, a) then m.id else g.aliases[a]
  {
    if m.Osv? { AliasesAre(g.aliases[m.id := m.id], m.aliases, m.id); }
    hide WithModules, WithAliases;
  }

  lemma {:induction false} ParsedAliases(ms: seq<Message>, a: string)
    ensures a in Parsed(ms).aliases <==> exists i: nat :: LastAdvisory(ms, a, i)
    ensures forall i: nat :: LastAdvisory(ms, a, i) ==> Parsed(ms).aliases[a] == ms[i].id
  {
    if ms != [] {
      var n := |ms| - 1;
      ParsedAliases(ms[..n], a);
      ReadAliases(Parsed(ms[..n]), ms[n], a);
      hide Read, NamesOsv;
      if NamesOsv(ms[n], a) {
        assert LastAdvisory(ms, a, n);
      } else {
        forall i: nat | i < n ensures LastAdvisory(ms, a, i) <==> LastAdvisory(ms[..n], a, i) {}
        assert forall i: nat :: LastAdvisory(ms, a, i) <==> LastAdvisory(ms[..n], a, i);
      }
    }
  }

  /** Traces are kept per id and in order; a name maps to the id of the last advisory that goes by it, and only then. */
  lemma ParsedMeaning(ms: seq<Message>, id: string, a: string)
    ensures At(Parsed(ms).findings, id) == TracesOf(ms, id)
    ensures a in Parsed(ms).aliases <==> exists i: nat :: LastAdvisory(ms, a, i)
    ensures forall i: nat :: LastAdvisory(ms, a, i) ==> Parsed(ms).aliases[a] == ms[i].id
  {
    hide Parsed, TracesOf, LastAdvisory;
    ParsedTraces(ms, id);
    ParsedAliases(ms, a);
  }

  /** Message i is the last to name a scan level. */
  ghost predicate LastConfig(ms: seq<Message>, i: nat) {
    i < |ms| && ms[i].Config? && forall j :: i < j < |ms| ==> !ms[j].Config?
  }

  /** The scan level is what the last configuration says, and empty without one. */
  lemma {:induction false} ParsedLevel(ms: seq<Message>)
    ensures forall i: nat :: LastConfig(ms, i) ==> Parsed(ms).level == ms[i].level
    ensures (forall m :: m in ms ==> !m.Config?) ==> Parsed(ms).level == ""
    ensures (exists m :: m in ms && m.Config?) ==> exists i: nat :: LastConfig(ms, i)
  {
    if ms != [] {
      var n := |ms| - 1;
      assert ms == ms[..n] + [ms[n]];
      ParsedLevel(ms[..n]);
      LevelStep(Parsed(ms[..n]), ms[n]);
      forall i: nat { LastConfigStep(ms, i); }
      hide LastConfig, Read;
      if ms[n].Config? {
        assert LastConfig(ms, n);
      } else if m :| m in ms && m.Config? {
        assert m in ms[..n];
        var i: nat :| LastConfig(ms[..n], i);
        assert LastConfig(ms, i);
      }
    }
  }

  lemma LevelStep(g: Result, m: Message)
    ensures Read(g, m).level == if m.Config? then m.level else g.level
  {
    hide WithModules, WithAliases, At;
  }

  lemma LastConfigStep(ms: seq<Message>, i: nat)
    requires ms != []
    ensures var n := |ms| - 1;
            LastConfig(ms, i) <==> if ms[n].Config? then i == n else i < n && LastConfig(ms[..n], i)
    ensures LastConfig(ms, i) ==> i < |ms| && ms[i].Config? && (i < |ms| - 1 ==> ms[..|ms| - 1][i] == ms[i])
  {
  }

  /** Entry j of message i is the last to name the module. */
  ghost predicate LastModule(ms: seq<Message>, path: string, i: nat, j: nat) {
    && i < |ms| && ms[i].Modules? && LastEntry(ms[i].modules, path, j)
    && forall k :: i < k < |ms| && ms[k].Modules? ==> !Lists(ms[k].modules, path)
  }

  ghost predicate LastEntry(modules: seq<(string, string)>, path: string, j: nat) {
    && j < |modules| && modules[j].0 == path && forall k :: j < k < |modules| ==> modules[k].0 != path
  }

  ghost predicate Lists(modules: seq<(string, string)>, path: string) {
    exists e :: e in modules && e.0 == path
  }

  lemma {:induction false} ModulesAre(m: map<string, string>, modules: seq<(string, string)>, path: string)
    ensures path in WithModules(m, modules) <==> path in m || Lists(modules, path)
    ensures forall j: nat :: LastEntry(modules, path, j) ==> WithModules(m, modules)[path] == modules[j].1
    ensures Lists(modules, path) ==> exists j: nat :: LastEntry(modules, path, j)
    ensures path in m && !Lists(modules, path) ==> WithModules(m, modules)[path] == m[path]
  {
    if modules != [] {
      var n := |modules| - 1;
      assert modules == modules[..n] + [modules[n]];
      ModulesAre(m, modules[..n], path);
      assert forall e :: e in modules <==> e in modules[..n] || e == modules[n];
      if modules[n].0 == path {
        assert LastEntry(modules, path, n);
      } else {
        forall j: nat | j < n ensures LastEntry(modules, path, j) <==> LastEntry(modules[..n], path, j) {}
        if Lists(modules, path) {
          var j: nat :| LastEntry(modules[..n], path, j);
          assert LastEntry(modules, path, j);
        }
      }
    }
  }

  /** A module's version is the one of the last entry that names it, and only named modules have one. */
  lemma {:induction false} ParsedModules(ms: seq<Message>, path: string)
    ensures path in Parsed(ms).modules <==> exists m :: m in ms && m.Modules? && Lists(m.modules, path)
    ensures forall i: nat, j: nat :: LastModule(ms, path, i, j) ==>
              path in Parsed(ms).modules && Parsed(ms).modules[path] == ms[i].modules[j].1
  {
    hide WithAliases, At, Lists;
    if ms != [] {
      var n := |ms| - 1;
      assert ms == ms[..n] + [ms[n]];
      var g := Parsed(ms[..n]);
      ParsedModules(ms[..n], path);
      if ms[n].Modules? {
        ModulesAre(g.modules, ms[n].modules, path);
      }
      hide WithModules;
      assert forall m :: m in ms <==> m in ms[..n] || m == ms[n];
      forall i: nat, j: nat | i < n ensures LastModule(ms, path, i, j) ==> LastModule(ms[..n], path, i, j) {}
      forall i: nat, j: nat | LastModule(ms, path, i, j)
        ensures path in Parsed(ms).modules && Parsed(ms).modules[path] == ms[i].modules[j].1
      {
        if i < n {
          assert LastModule(ms[..n], path, i, j);
          assert ms[n].Modules? ==> !Lists(ms[n].modules, path);
        } else {
          EntryLists(ms[n].modules, path, j);
        }
      }
    }
  }

  lemma EntryLists(modules: seq<(string, string)>, path: string, j: nat)
    requires LastEntry(modules, path, j)
    ensures Lists(modules, path)
  {
    assert modules[j] in modules;
  }

  // ---- merging is what reading one stream after the other gives, but for the scan level ----

  lemma {:induction false} AliasesAfter(a: map<string, string>, b: map<string, string>, more: seq<string>, id: string)
    ensures WithAliases(a + b, more, id) == a + WithAliases(b, more, id)
  {
    if more != [] {
      var n := |more| - 1;
      AliasesAfter(a, b, more[..n], id);
      var rest := WithAliases(b, more[..n], id);
      assert (a + rest)[more[n] := id] == a + rest[more[n] := id];
    }
  }

  lemma {:induction false} ModulesAfter(a: map<string, string>, b: map<string, string>, ms: seq<(string, string)>)
    ensures WithModules(a + b, ms) == a + WithModules(b, ms)
  {
    if ms != [] {
      var n := |ms| - 1;
      ModulesAfter(a, b, ms[..n]);
      var rest := WithModules(b, ms[..n]);
      assert (a + rest)[ms[n].0 := ms[n].1] == a + rest[ms[n].0 := ms[n].1];
    }
  }

  lemma FindingAfter(a: map<string, seq<Trace>>, b: map<string, seq<Trace>>, k: string, t: Trace)
    ensures var m := MergedFindings(a, b);
            m[k := At(m, k) + [t]] == MergedFindings(a, b[k := At(b, k) + [t]])
  {
    var m, b' := MergedFindings(a, b), b[k := At(b, k) + [t]];
    assert At(m, k) == At(a, k) + At(b, k);
    forall x | x in m[k := At(m, k) + [t]] ensures m[k := At(m, k) + [t]][x] == MergedFindings(a, b')[x] {
      if x == k { assert At(a, k) + (At(b, k) + [t]) == (At(a, k) + At(b, k)) + [t]; }
    }
  }

  lemma MergedWithNothing(m: map<string, seq<Trace>>)
    ensures MergedFindings(m, map[]) == m
  {
    forall k | k in m ensures MergedFindings(m, map[])[k] == m[k] { assert m[k] + [] == m[k]; }
  }

  /** Findings, modules and aliases of a concatenated stream are those of its parts merged. */
  lemma {:induction false} ParseIsHomomorphic(a: seq<Message>, b: seq<Message>)
    ensures Parsed(a + b).(level := "") == Merged(Parsed(a), Parsed(b)).(level := "")
  {
    if b == [] {
      assert a + b == a;
      MergedWithNothing(Parsed(a).findings);
    } else {
      var n := |b| - 1;
      assert (a + b)[..|a + b| - 1] == a + b[..n] && (a + b)[|a + b| - 1] == b[n];
      ParseIsHomomorphic(a, b[..n]);
      ReadAfter(Parsed(a), Parsed(b[..n]), Parsed(a + b[..n]), b[n]);
    }
  }

  lemma ReadAfter(g: Result, o: Result, both: Result, msg: Message)
    requires both.(level := "") == Merged(g, o).(level := "")
    ensures Read(both, msg).(level := "") == Merged(g, Read(o, msg)).(level := "")
  {
    hide MergedFindings, At, WithAliases, WithModules;
    match msg
    case Config(_) =>
    case Modules(ms) => ModulesAfter(g.modules, o.modules, ms);
    case Osv(id, more) =>
      assert (g.aliases + o.aliases)[id := id] == g.aliases + o.aliases[id := id];
      AliasesAfter(g.aliases, o.aliases[id := id], more, id);
    case Found(osv, trace) => FindingAfter(g.findings, o.findings, osv, trace);
    case Other =>
  }

  predicate SaysLevel(ms: seq<Message>) {
    exists m :: m in ms && m.Config?
  }

  lemma {:induction false} LevelOfStream(a: seq<Message>, b: seq<Message>)
    ensures Parsed(a + b).level == if SaysLevel(b) then Parsed(b).level else Parsed(a).level
    ensures !SaysLevel(b) ==> Parsed(b).level == ""
  {
    if b == [] {
      assert a + b == a;
    } else {
      var n := |b| - 1;
      assert (a + b)[..|a + b| - 1] == a + b[..n] && (a + b)[|a + b| - 1] == b[n];
      assert b == b[..n] + [b[n]];
      LevelOfStream(a, b[..n]);
    }
  }

  /** The scan level is merged like a stream exactly when it does not matter which of the two is kept. */
  lemma LevelIsHomomorphic(a: seq<Message>, b: seq<Message>)
    ensures Parsed(a + b).level == Merged(Parsed(a), Parsed(b)).level <==>
            var g, o := Parsed(a).level, Parsed(b).level;
            if SaysLevel(b) then g == "" || o == SYMBOL || g == o else true
  {
    LevelOfStream(a, b);
  }

  // ---- evidence ----

  /** The Go id of the first known id; empty when none is known. */
  function GoID(aliases: map<string, string>, ids: seq<string>): string {
    if ids == [] then "" else if ids[0] in aliases then aliases[ids[0]] else GoID(aliases, ids[1..])
  }

  ghost predicate FirstKnown(aliases: map<string, string>, ids: seq<string>, i: nat) {
    i < |ids| && ids[i] in aliases && forall j :: 0 <= j < i ==> ids[j] !in aliases
  }

  /** The vulnerability's own id comes before the record's, and that before its aliases: the first known one decides. */
  lemma {:induction false} FirstKnownDecides(aliases: map<string, string>, ids: seq<string>)
    ensures forall i: nat :: FirstKnown(aliases, ids, i) ==> GoID(aliases, ids) == aliases[ids[i]]
    ensures (forall i: nat :: !FirstKnown(aliases, ids, i)) ==> GoID(aliases, ids) == ""
  {
    if ids != [] {
      FirstKnownDecides(aliases, ids[1..]);
      if ids[0] in aliases {
        assert FirstKnown(aliases, ids, 0);
      } else {
        forall i: nat, k: nat | k == i + 1 ensures FirstKnown(aliases, ids, k) <==> FirstKnown(aliases, ids[1..], i) {
          if FirstKnown(aliases, ids[1..], i) {
            forall j | 0 <= j < k ensures ids[j] !in aliases { if j > 0 { assert ids[1..][j - 1] !in aliases; } }
          }
        }
        forall i: nat | FirstKnown(aliases, ids, i) ensures GoID(aliases, ids) == aliases[ids[i]] {
          assert FirstKnown(aliases, ids[1..], i - 1);
        }
        if forall i: nat :: !FirstKnown(aliases, ids, i) {
          forall i: nat ensures !FirstKnown(aliases, ids[1..], i) { assert !FirstKnown(aliases, ids, i + 1); }
        }
      }
    }
  }

  predicate IsCall(t: Trace) { t != [] && t[0].function_ != "" }

  ghost predicate HasCall(ts: seq<Trace>) {
    exists t :: t in ts && IsCall(t)
  }

  ghost function EvidenceOf(g: Result, ids: seq<string>): seq<Item> {
    var goID := GoID(g.aliases, ids);
    if goID == "" then [Item(NotImported, false)]
    else if HasCall(At(g.findings, goID)) then [Item(Reachable, true)]
    else [Item(NotReachable, g.level == SYMBOL)]
  }

  method EvidenceFor(g: Result, vulnID: string, v: Option<Evidence.Osv>) returns (items: seq<Item>)
    ensures v.None? ==> items == EvidenceOf(g, [vulnID])
    ensures v.Some? ==> items == EvidenceOf(g, [vulnID, v.value.id] + v.value.aliases)
  {
    var ids := [vulnID];
    if v.Some? { ids := ids + ([v.value.id] + v.value.aliases); }
    assert ids == if v.Some? then [vulnID, v.value.id] + v.value.aliases else [vulnID];
    var goID := "";
    var i := 0;
    while i < |ids|
      invariant 0 <= i <= |ids| && goID == ""
      invariant GoID(g.aliases, ids) == GoID(g.aliases, ids[i..])
    {
      if ids[i] in g.aliases {
        goID := g.aliases[ids[i]];
        break;
      }
      i := i + 1;
    }
    if goID == "" { return [Item(NotImported, false)]; }
    var traces := At(g.findings, goID);
    var calls := 0;
    for j := 0 to |traces|
      invariant calls > 0 <==> HasCall(traces[..j])
    {
      assert traces[..j + 1] == traces[..j] + [traces[j]];
      if |traces[j]| == 0 { continue; }
      if traces[j][0].function_ != "" {
        assert IsCall(traces[j]);
        calls := calls + 1;
      }
    }
    assert traces[..|traces|] == traces;
    if calls > 0 { return [Item(Reachable, true)]; }
    if g.level == SYMBOL { return [Item(NotReachable, true)]; }
    items := [Item(NotReachable, false)];
  }

  // ---- the modules of a product ----

  function MergedAll(rs: seq<Result>): Result {
    if rs == [] then EMPTY else Merged(MergedAll(rs[..|rs| - 1]), rs[|rs| - 1])
  }

  /** The modules that could be analysed, merged one by one; none when every module failed. */
  method MergeModules(runs: seq<Option<Result>>) returns (merged: Option<Result>)
    ensures merged == if Succeeded(runs) == [] then None else Some(MergedAll(Succeeded(runs)))
  {
    var all := EMPTY;
    var ok := 0;
    for i := 0 to |runs|
      invariant all == MergedAll(Succeeded(runs[..i])) && ok == |Succeeded(runs[..i])|
    {
      assert runs[..i + 1][..i] == runs[..i];
      if runs[i].None? {
        assert Succeeded(runs[..i + 1]) == Succeeded(runs[..i]);
        continue;
      }
      ghost var before := Succeeded(runs[..i]);
      ok := ok + 1;
      all := Merge(all, runs[i].value);
      assert Succeeded(runs[..i + 1]) == before + [runs[i].value];
      assert (before + [runs[i].value])[..|before|] == before;
    }
    assert runs[..|runs|] == runs;
    if ok == 0 { return None; }
    merged := Some(all);
  }

  function Succeeded(runs: seq<Option<Result>>): seq<Result> {
    if runs == [] then []
    else Succeeded(runs[..|runs| - 1]) + if runs[|runs| - 1].Some? then [runs[|runs| - 1].value] else []
  }

  /** Every module that knows one of the ids resolves it to goID. */
  ghost predicate Agree(rs: seq<Result>, ids: seq<string>, goID: string) {
    forall g, id :: g in rs && id in ids && id in g.aliases ==> g.aliases[id] == goID
  }

  ghost predicate Knows(g: Result, ids: seq<string>) {
    exists id :: id in ids && id in g.aliases
  }

  ghost predicate SomeKnows(rs: seq<Result>, ids: seq<string>) {
    exists g :: g in rs && Knows(g, ids)
  }

  ghost predicate SomeCalls(rs: seq<Result>, goID: string) {
    exists g :: g in rs && HasCall(At(g.findings, goID))
  }

  ghost predicate SomeSymbolLevel(rs: seq<Result>) {
    exists g :: g in rs && g.level == SYMBOL
  }

  lemma {:induction false} GoIDOf(aliases: map<string, string>, ids: seq<string>, goID: string)
    requires forall id :: id in ids && id in aliases ==> aliases[id] == goID
    ensures GoID(aliases, ids) == if exists id :: id in ids && id in aliases then goID else ""
  {
    if ids != [] {
      assert ids == [ids[0]] + ids[1..];
      if ids[0] !in aliases { GoIDOf(aliases, ids[1..], goID); }
    }
  }

  lemma HasCallConcat(a: seq<Trace>, b: seq<Trace>)
    ensures HasCall(a + b) <==> HasCall(a) || HasCall(b)
  {
    if t :| t in a && IsCall(t) { assert t in a + b; }
    if t :| t in b && IsCall(t) { assert t in a + b; }
  }

  lemma {:induction false} MergedFacts(rs: seq<Result>, ids: seq<string>, goID: string)
    requires Agree(rs, ids, goID)
    ensures var m := MergedAll(rs);
            && (forall id :: id in ids && id in m.aliases ==> m.aliases[id] == goID)
            && (Knows(m, ids) <==> SomeKnows(rs, ids))
            && (HasCall(At(m.findings, goID)) <==> SomeCalls(rs, goID))
            && (m.level == SYMBOL <==> SomeSymbolLevel(rs))
  {
    if rs != [] {
      var n := |rs| - 1;
      var before, last := rs[..n], rs[n];
      assert rs == before + [last];
      assert Agree(before, ids, goID);
      MergedFacts(before, ids, goID);
      var b, m := MergedAll(before), MergedAll(rs);
      hide MergedAll, HasCall;
      HasCallConcat(At(b.findings, goID), At(last.findings, goID));
      assert At(m.findings, goID) == At(b.findings, goID) + At(last.findings, goID);
      assert Knows(m, ids) <==> Knows(b, ids) || Knows(last, ids);
    }
  }

  /** Evidence over a product's modules: reachable exactly when some module has a call path, strongly unreachable
      exactly when none has one and some module, not necessarily one that uses the package, was analysed at symbol
      level. */
  lemma EvidenceOfModules(rs: seq<Result>, ids: seq<string>, goID: string)
    requires Agree(rs, ids, goID) && goID != ""
    ensures EvidenceOf(MergedAll(rs), ids) ==
            if !SomeKnows(rs, ids) then [Item(NotImported, false)]
            else if SomeCalls(rs, goID) then [Item(Reachable, true)]
            else [Item(NotReachable, SomeSymbolLevel(rs))]
  {
    var m := MergedAll(rs);
    MergedFacts(rs, ids, goID);
    GoIDOf(m.aliases, ids, goID);
    hide MergedAll;
  }

  /** So the order in which modules are merged does not show in the evidence. */
  lemma ModuleOrderIsIrrelevant(rs: seq<Result>, rs': seq<Result>, ids: seq<string>, goID: string)
    requires Agree(rs, ids, goID) && goID != "" && forall g :: g in rs <==> g in rs'
    ensures EvidenceOf(MergedAll(rs), ids) == EvidenceOf(MergedAll(rs'), ids)
  {
    EvidenceOfModules(rs, ids, goID);
    EvidenceOfModules(rs', ids, goID);
    hide MergedAll, EvidenceOf;
  }

  // ---- whose word a strong answer is ----

  /** Some module alone gives this evidence. */
  ghost predicate SomeAlone(rs: seq<Result>, ids: seq<string>, items: seq<Item>) {
    exists g :: g in rs && EvidenceOf(g, ids) == items
  }

  /** A module knows the id, and none that does was analysed at symbol level. */
  ghost predicate KnownBelowSymbolLevel(rs: seq<Result>, ids: seq<string>) {
    SomeKnows(rs, ids) && forall g :: g in rs && Knows(g, ids) ==> g.level != SYMBOL
  }

  lemma AloneIs(g: Result, ids: seq<string>, goID: string)
    requires Agree([g], ids, goID) && goID != ""
    ensures EvidenceOf(g, ids) ==
            if !Knows(g, ids) then [Item(NotImported, false)]
            else if HasCall(At(g.findings, goID)) then [Item(Reachable, true)]
            else [Item(NotReachable, g.level == SYMBOL)]
  {
    assert [g][0] == g;
    GoIDOf(g.aliases, ids, goID);
    hide HasCall;
  }

  /** The merged result is strongly unreachable although no module alone says so exactly when the modules that know
      the id were all analysed below symbol level, none of the modules has a call path, and a module that does not
      know the id was analysed at symbol level. */
  lemma StrongRestsOnOthersExactly(rs: seq<Result>, ids: seq<string>, goID: string)
    requires Agree(rs, ids, goID) && goID != ""
    ensures EvidenceOf(MergedAll(rs), ids) == [Item(NotReachable, true)] &&
            !SomeAlone(rs, ids, [Item(NotReachable, true)]) <==>
            && KnownBelowSymbolLevel(rs, ids) && !SomeCalls(rs, goID)
            && exists g :: g in rs && !Knows(g, ids) && g.level == SYMBOL
  {
    EvidenceOfModules(rs, ids, goID);
    forall g | g in rs
      ensures EvidenceOf(g, ids) == [Item(NotReachable, true)] <==>
              Knows(g, ids) && !HasCall(At(g.findings, goID)) && g.level == SYMBOL
    {
      assert forall h :: h in [g] ==> h == g;
      AloneIs(g, ids, goID);
    }
    hide MergedAll, EvidenceOf, HasCall, Knows, At;
  }

  /** Two such modules: one that uses the package, analysed at module level, and one at symbol level that does not. */
  lemma StrongRestsOnOther(goID: string, id: string)
    requires goID != ""
    ensures var uses := Result(map[], map[], map[id := goID], "module");
            var other := Result(map[], map[], map[], SYMBOL);
            && EvidenceOf(uses, [id]) == [Item(NotReachable, false)] &&
               EvidenceOf(other, [id]) == [Item(NotImported, false)]
            && EvidenceOf(MergedAll([uses, other]), [id]) == [Item(NotReachable, true)]
  {
    var uses := Result(map[], map[], map[id := goID], "module");
    var other := Result(map[], map[], map[], SYMBOL);
    var rs := [uses, other];
    assert |"module"| == 6 && "module"[0] != SYMBOL[0];
    assert rs[0] == uses && rs[1] == other;
    assert Agree(rs, [id], goID) && Agree([uses], [id], goID) && Agree([other], [id], goID);
    assert id in [id] && Knows(uses, [id]) && !Knows(other, [id]);
    AloneIs(uses, [id], goID);
    AloneIs(other, [id], goID);
    EvidenceOfModules(rs, [id], goID);
    assert At(uses.findings, goID) == [] && At(other.findings, goID) == [];
    hide MergedAll, EvidenceOf, At, Knows;
    assert SomeKnows(rs, [id]) && SomeSymbolLevel(rs) && !SomeCalls(rs, goID);
  }

  // ---- when the order of two modules shows ----

  lemma MergedOne(x: Result)
    ensures MergedAll([x]) == x.(findings := MergedAll([x]).findings)
    ensures forall k :: At(MergedAll([x]).findings, k) == At(x.findings, k)
  {
    assert [x][..0] == [];
    assert MergedAll([x]) == Merged(EMPTY, x);
    forall k ensures At(MergedAll([x]).findings, k) == At(x.findings, k) {
      assert [] + At(x.findings, k) == At(x.findings, k);
    }
  }

  lemma MergedTwo(x: Result, y: Result)
    ensures MergedAll([x, y]).aliases == x.aliases + y.aliases
    ensures MergedAll([x, y]).level == MergedLevel(x.level, y.level)
    ensures forall k :: At(MergedAll([x, y]).findings, k) == At(x.findings, k) + At(y.findings, k)
  {
    MergedOne(x);
    var s := [x, y];
    assert s[..1] == [x] && MergedAll(s) == Merged(MergedAll(s[..1]), s[1]);
    hide MergedAll;
  }

  /** What the evidence for a Go id is, over two modules. */
  ghost function PairEvidence(a: Result, b: Result, goID: string): seq<Item> {
    if goID == "" then [Item(NotImported, false)]
    else if HasCall(At(a.findings, goID)) || HasCall(At(b.findings, goID)) then [Item(Reachable, true)]
    else [Item(NotReachable, a.level == SYMBOL || b.level == SYMBOL)]
  }

  lemma PairIs(a: Result, b: Result, ids: seq<string>)
    ensures EvidenceOf(MergedAll([a, b]), ids) == PairEvidence(a, b, GoID(a.aliases + b.aliases, ids))
  {
    MergedTwo(a, b);
    var goID := GoID(a.aliases + b.aliases, ids);
    HasCallConcat(At(a.findings, goID), At(b.findings, goID));
    hide MergedAll, HasCall, At, GoID;
  }

  lemma {:induction false} NoneKnown(m: map<string, string>, ids: seq<string>)
    ensures (forall id :: id in ids ==> id !in m) ==> GoID(m, ids) == ""
    ensures (exists id :: id in ids && id in m) ==> exists i: nat :: FirstKnown(m, ids, i)
  {
    if ids != [] {
      assert ids == [ids[0]] + ids[1..];
      NoneKnown(m, ids[1..]);
      if ids[0] in m {
        assert FirstKnown(m, ids, 0);
      } else if i: nat :| FirstKnown(m, ids[1..], i) {
        forall j | 0 <= j < i + 1 ensures ids[j] !in m { if j > 0 { assert ids[1..][j - 1] !in m; } }
        assert FirstKnown(m, ids, i + 1);
      }
    }
  }

  /** For any two modules the order shows exactly when both know the first id that either knows and map it to Go ids
      whose evidence differs. */
  lemma OrderShowsExactly(a: Result, b: Result, ids: seq<string>)
    ensures EvidenceOf(MergedAll([a, b]), ids) != EvidenceOf(MergedAll([b, a]), ids) <==>
            exists i: nat :: FirstKnown(a.aliases + b.aliases, ids, i) && ids[i] in a.aliases && ids[i] in b.aliases &&
                             PairEvidence(a, b, a.aliases[ids[i]]) != PairEvidence(a, b, b.aliases[ids[i]])
  {
    PairIs(a, b, ids);
    PairIs(b, a, ids);
    var m, n := a.aliases + b.aliases, b.aliases + a.aliases;
    FirstKnownDecides(m, ids);
    FirstKnownDecides(n, ids);
    NoneKnown(m, ids);
    hide EvidenceOf, MergedAll, HasCall, At, GoID;
    assert forall id :: id in m <==> id in n;
    assert forall goID :: PairEvidence(a, b, goID) == PairEvidence(b, a, goID);
    hide PairEvidence;
    if i: nat :| FirstKnown(m, ids, i) {
      assert FirstKnown(n, ids, i);
      assert forall j: nat :: FirstKnown(m, ids, j) ==> j == i;
    } else {
      assert forall i: nat :: !FirstKnown(n, ids, i);
    }
  }

  lemma EvidenceOfOne(g: Result, id: string, goID: string)
    requires id in g.aliases && g.aliases[id] == goID != ""
    ensures EvidenceOf(g, [id]) ==
            if HasCall(At(g.findings, goID)) then [Item(Reachable, true)] else [Item(NotReachable, g.level == SYMBOL)]
  {
    hide HasCall, At;
  }

  /** Without agreement on the Go id it does: the last module's alias wins. */
  lemma DisagreementShowsOrder(goA: string, goB: string, id: string, call: Trace)
    requires goA != goB && goA != "" && goB != "" && IsCall(call)
    ensures var a := Result(map[goA := [call]], map[], map[id := goA], SYMBOL);
            var b := Result(map[], map[], map[id := goB], SYMBOL);
            && EvidenceOf(MergedAll([b, a]), [id]) == [Item(Reachable, true)]
            && EvidenceOf(MergedAll([a, b]), [id]) == [Item(NotReachable, true)]
  {
    var a := Result(map[goA := [call]], map[], map[id := goA], SYMBOL);
    var b := Result(map[], map[], map[id := goB], SYMBOL);
    assert At(a.findings, goA) == [call] && At(b.findings, goA) == [] && At(a.findings, goB) == [] &&
           At(b.findings, goB) == [];
    hide MergedAll, EvidenceOf, At, IsCall;
    MergedTwo(a, b);
    MergedTwo(b, a);
    EvidenceOfOne(MergedAll([b, a]), id, goA);
    EvidenceOfOne(MergedAll([a, b]), id, goB);
    assert At(MergedAll([b, a]).findings, goA)[0] == call;
  }

  // ---- from the streams to the evidence ----

  /** Some advisory of the stream goes by one of the ids. */
  ghost predicate StreamKnows(ms: seq<Message>, ids: seq<string>) {
    exists m, id :: m in ms && id in ids && m.Osv? && (m.id == id || id in m.aliases)
  }

  /** Every advisory that goes by one of the ids has the Go id. */
  ghost predicate StreamAgrees(ms: seq<Message>, ids: seq<string>, goID: string) {
    forall m, id :: m in ms && id in ids && m.Osv? && (m.id == id || id in m.aliases) ==> m.id == goID
  }

  /** The stream reports a trace for the Go id that starts in a function. */
  ghost predicate StreamCalls(ms: seq<Message>, goID: string) {
    exists m :: m in ms && m.Found? && m.osv == goID && m.trace != [] && m.trace[0].function_ != ""
  }

  /** The last configuration of the stream says symbol. */
  ghost predicate StreamAtSymbolLevel(ms: seq<Message>) {
    exists i :: 0 <= i < |ms| && ms[i] == Config("symbol") && forall j :: i < j < |ms| ==> !ms[j].Config?
  }

  lemma {:induction false} TraceIsReported(ms: seq<Message>, id: string, t: Trace)
    ensures t in TracesOf(ms, id) <==> exists m :: m in ms && m.Found? && m.osv == id && m.trace == t
  {
    if ms != [] {
      var n := |ms| - 1;
      assert ms == ms[..n] + [ms[n]];
      TraceIsReported(ms[..n], id, t);
    }
  }

  lemma CallIsReported(ms: seq<Message>, goID: string)
    ensures HasCall(TracesOf(ms, goID)) <==> StreamCalls(ms, goID)
  {
    forall t { TraceIsReported(ms, goID, t); }
    hide TracesOf;
    if t :| t in TracesOf(ms, goID) && IsCall(t) {
      var m :| m in ms && m.Found? && m.osv == goID && m.trace == t;
    }
    if m :| m in ms && m.Found? && m.osv == goID && m.trace != [] && m.trace[0].function_ != "" {
      assert m.trace in TracesOf(ms, goID) && IsCall(m.trace);
    }
  }

  lemma ParsedStream(ms: seq<Message>, ids: seq<string>, goID: string)
    requires StreamAgrees(ms, ids, goID)
    ensures var g := Parsed(ms);
            && (forall id :: id in ids && id in g.aliases ==> g.aliases[id] == goID)
            && (Knows(g, ids) <==> StreamKnows(ms, ids))
            && (HasCall(At(g.findings, goID)) <==> StreamCalls(ms, goID))
            && (g.level == "symbol" <==> StreamAtSymbolLevel(ms))
  {
    hide Parsed, At, TracesOf;
    ParsedAliasesAgree(ms, ids, goID);
    ParsedTraces(ms, goID);
    CallIsReported(ms, goID);
    StreamLevel(ms);
  }

  lemma StreamLevel(ms: seq<Message>)
    ensures Parsed(ms).level == "symbol" <==> StreamAtSymbolLevel(ms)
  {
    hide Parsed;
    ParsedLevel(ms);
    if StreamAtSymbolLevel(ms) {
      var i :| 0 <= i < |ms| && ms[i] == Config("symbol") && forall j :: i < j < |ms| ==> !ms[j].Config?;
      assert LastConfig(ms, i);
    }
    if i: nat :| LastConfig(ms, i) { assert ms[i] == Config(ms[i].level); }
  }

  lemma ParsedAliasesAgree(ms: seq<Message>, ids: seq<string>, goID: string)
    requires StreamAgrees(ms, ids, goID)
    ensures var g := Parsed(ms);
            && (forall id :: id in ids && id in g.aliases ==> g.aliases[id] == goID)
            && (Knows(g, ids) <==> StreamKnows(ms, ids))
  {
    hide Parsed;
    forall id ensures id in Parsed(ms).aliases <==> exists m :: m in ms && NamesOsv(m, id) {
      ParsedAliases(ms, id);
      SomeAdvisoryIsLast(ms, id);
    }
    forall id | id in ids && id in Parsed(ms).aliases ensures Parsed(ms).aliases[id] == goID {
      ParsedAliases(ms, id);
      var i: nat :| LastAdvisory(ms, id, i);
      assert ms[i] in ms;
    }
    if StreamKnows(ms, ids) {
      var m, id :| m in ms && id in ids && m.Osv? && (m.id == id || id in m.aliases);
      assert NamesOsv(m, id) && id in Parsed(ms).aliases;
    }
  }

  lemma {:induction false} SomeAdvisoryIsLast(ms: seq<Message>, a: string)
    ensures (exists m :: m in ms && NamesOsv(m, a)) <==> exists i: nat :: LastAdvisory(ms, a, i)
  {
    hide NamesOsv;
    if ms != [] {
      var n := |ms| - 1;
      assert ms == ms[..n] + [ms[n]];
      SomeAdvisoryIsLast(ms[..n], a);
      if NamesOsv(ms[n], a) {
        assert LastAdvisory(ms, a, n);
      } else if m :| m in ms && NamesOsv(m, a) {
        assert m in ms[..n];
        var i: nat :| LastAdvisory(ms[..n], a, i);
        assert LastAdvisory(ms, a, i);
      }
    }
  }

  function ParsedAll(streams: seq<seq<Message>>): seq<Result> {
    seq(|streams|, i requires 0 <= i < |streams| => Parsed(streams[i]))
  }

  /** From the message streams of a product's modules: not imported exactly when no stream knows the vulnerability,
      otherwise reachable exactly when some stream reports a call for it, and strongly unreachable exactly when none
      does and the last configuration of some stream says symbol. */
  lemma EvidenceOfStreams(streams: seq<seq<Message>>, ids: seq<string>, goID: string)
    requires goID != "" && forall ms :: ms in streams ==> StreamAgrees(ms, ids, goID)
    ensures EvidenceOf(MergedAll(ParsedAll(streams)), ids) ==
            if forall ms :: ms in streams ==> !StreamKnows(ms, ids) then [Item(NotImported, false)]
            else if exists ms :: ms in streams && StreamCalls(ms, goID) then [Item(Reachable, true)]
            else [Item(NotReachable, exists ms :: ms in streams && StreamAtSymbolLevel(ms))]
  {
    var rs := ParsedAll(streams);
    hide Parsed, At, MergedAll, EvidenceOf, HasCall, Knows, StreamKnows, StreamCalls, StreamAtSymbolLevel, StreamAgrees;
    forall g | g in rs
      ensures exists ms :: ms in streams && g == Parsed(ms)
    {
      var i :| 0 <= i < |rs| && rs[i] == g;
      assert streams[i] in streams;
    }
    forall ms | ms in streams
      ensures Parsed(ms) in rs && (Knows(Parsed(ms), ids) <==> StreamKnows(ms, ids))
      ensures HasCall(At(Parsed(ms).findings, goID)) <==> StreamCalls(ms, goID)
      ensures Parsed(ms).level == SYMBOL <==> StreamAtSymbolLevel(ms)
      ensures forall id :: id in ids && id in Parsed(ms).aliases ==> Parsed(ms).aliases[id] == goID
    {
      ParsedStream(ms, ids, goID);
      var i :| 0 <= i < |streams| && streams[i] == ms;
      assert rs[i] in rs;
    }
    EvidenceOfModules(rs, ids, goID);
  }
}
