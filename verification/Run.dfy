/** A whole run: filter, assess, build, and the outcome's bookkeeping. */
module Runs {
  import opened Sources
  import opened Text
  import opened Assessments
  import opened Sorting
  import opened Budgets
  import opened AssessCache
  import opened Pipelines
  import opened AssessLoop
  import VexGen

  datatype AssessmentRecord = AssessmentRecord(vulnID: string, purl: string, status: Status, confidence: real,
                                               provider: string,
                                               cached: bool, usage: Usage, notes: VexGen.Notes)

  datatype Outcome =
    | BuildFailed
    | Outcome(findings: nat, counters: Counters, deferred: nat, usage: Usage, document: VexGen.Document,
              assessments: seq<AssessmentRecord>)

  /** The record reports the final status of its statement and the confidence, provider, cost and origin of the verdict
      that its own finding got. */
  ghost predicate OwnRecord(r: AssessmentRecord, s: VexGen.Statement, t: Turn, v: Verdict) {
    && r.vulnID == s.vulnID == t.finding.vulnID && r.purl == s.purl == t.finding.purl
    && r.status == s.status && r.notes == s.notes
    && !v.Deferred? && RecordOf(v) == Record(r.confidence, r.provider, r.cached, r.usage)
  }

  ghost predicate RecordExplained(r: AssessmentRecord, s: VexGen.Statement, turns: seq<Turn>, verdicts: seq<Verdict>)
    requires |turns| == |verdicts|
  {
    exists i :: 0 <= i < |turns| && OwnRecord(r, s, turns[i], verdicts[i])
  }

  /** The turns are those of the selected findings, each with a report about its own finding. */
  ghost predicate TurnsFor(turns: seq<Turn>, findings: seq<Finding>) {
    && |turns| == |findings|
    && forall i :: 0 <= i < |turns| ==> turns[i].finding == findings[i] && turns[i].report.finding == findings[i]
  }

  lemma {:induction false} SelectedAreDistinct(loaded: seq<Finding>, o: RunOptions, stale: set<string>)
    requires Distinct(loaded)
    ensures Distinct(Selected(loaded, o, stale))
  {
    hide KeyOf, Decide;
    if loaded != [] {
      var n := |loaded| - 1;
      SelectedAreDistinct(loaded[..n], o, stale);
      var front := Selected(loaded[..n], o, stale);
      forall i | 0 <= i < |front| ensures KeyOf(front[i]) != KeyOf(loaded[n]) {
        assert front[i] in front;
        assert front[i] in loaded[..n];
      }
    }
  }

  /** Each statement is about the finding of some turn, and looking its record up finds that turn's verdict. */
  lemma StatementsAreExplained(product: string, turns: seq<Turn>, findings: seq<Finding>, verdicts: seq<Verdict>,
                               o: VexGen.Settings, j: nat)
    requires TurnsFor(turns, findings) && Distinct(findings) && |turns| == |verdicts|
    requires j < |VexGen.Sorted(Entries(turns, verdicts))|
    ensures var entries := VexGen.Sorted(Entries(turns, verdicts));
            var s := VexGen.StatementFor(product, entries[j], o);
            FoundAgain(s, turns, verdicts, Records(turns, verdicts))
  {
    hide KeyOf, Entries, VexGen.Finalize, VexGen.NotesFor, VexGen.EntryLe;
    var entries := VexGen.Sorted(Entries(turns, verdicts));
    var e := entries[j];
    assert e in multiset(entries);
    assert e in Entries(turns, verdicts);
    EntriesAddUp(turns, verdicts);
    var i :| 0 <= i < |turns| && IsEntry(turns[i], verdicts[i], e);
    RecordsAreOwn(turns, verdicts, i);
    hide Records;
    assert KeyOf(turns[i].finding) == KeyOf(e.report.finding);
    KeyOfPair(turns[i].finding);
    assert StatementOfTurn(VexGen.StatementFor(product, e, o), turns[i], verdicts[i], Records(turns, verdicts));
  }

  lemma KeyOfPair(f: Finding)
    ensures KeyOf(f) == StatementKey(f.vulnID, f.purl)
  {
  }

  ghost predicate StatementOfTurn(s: VexGen.Statement, t: Turn, v: Verdict, records: map<string, Record>) {
    && s.vulnID == t.finding.vulnID && s.purl == t.finding.purl && !v.Deferred?
    && StatementKey(s.vulnID, s.purl) in records && records[StatementKey(s.vulnID, s.purl)] == RecordOf(v)
  }

  ghost predicate FoundAgain(s: VexGen.Statement, turns: seq<Turn>, verdicts: seq<Verdict>,
                             records: map<string, Record>)
    requires |turns| == |verdicts|
  {
    exists i :: 0 <= i < |turns| && StatementOfTurn(s, turns[i], verdicts[i], records)
  }

  /** The loop that reports on every statement of the document. */
  method Report(product: string, statements: seq<VexGen.Statement>, records: map<string, Record>,
                ghost turns: seq<Turn>, ghost verdicts: seq<Verdict>)
    returns (assessments: seq<AssessmentRecord>)
    requires |turns| == |verdicts|
    requires forall j :: 0 <= j < |statements| ==> FoundAgain(statements[j], turns, verdicts, records)
    ensures |assessments| == |statements|
    ensures forall j :: 0 <= j < |statements| ==> RecordExplained(assessments[j], statements[j], turns, verdicts)
  {
    hide StatementKey;
    assessments := [];
    for j := 0 to |statements|
      invariant |assessments| == j
      invariant forall k :: 0 <= k < j ==> RecordExplained(assessments[k], statements[k], turns, verdicts)
    {
      var s := statements[j];
      ghost var i :| 0 <= i < |turns| && StatementOfTurn(s, turns[i], verdicts[i], records);
      var rec := AssessmentRecord(s.vulnID, s.purl, s.status, 0.0, "", false, NO_USAGE, s.notes);
      var key := StatementKey(rec.vulnID, rec.purl);
      if key in records {
        var r := records[key];
        rec := rec.(confidence := r.confidence, provider := r.provider, cached := r.cached, usage := r.usage);
      }
      assert OwnRecord(rec, s, turns[i], verdicts[i]);
      assessments := assessments + [rec];
    }
  }

  /** Nothing is lost or counted twice: what was loaded is skipped or assessed, what is assessed has a statement or is
      deferred, the counts are those of the statements, and the cost is that of the single findings. */
  ghost predicate Conserved(r: Outcome, loaded: seq<Finding>, verdicts: seq<Verdict>) {
    && r.Outcome? && r.document.Document?
    && |loaded| == r.counters.skipped + r.findings
    && r.counters.human + r.counters.settled <= r.counters.skipped
    && r.findings == |r.document.statements| + r.deferred
    && |r.assessments| == |r.document.statements|
    && VexGen.CountOf(r.document.counts, NotAffected) + VexGen.CountOf(r.document.counts, Affected) +
       VexGen.CountOf(r.document.counts, Fixed) +
       VexGen.CountOf(r.document.counts, UnderInvestigation) == |r.document.statements|
    && r.deferred == CountDeferred(verdicts) && r.usage == Sum(Costs(verdicts))
  }

  method Run(product: string, loaded: seq<Finding>, o: RunOptions, stale: set<string>, turns: seq<Turn>,
             provider: string,
             cache: Store, budget: Budget?, settings: VexGen.Settings)
    returns (r: Outcome, ghost verdicts: seq<Verdict>)
    requires Distinct(loaded) && TurnsFor(turns, Selected(loaded, o, stale))
    requires forall t :: t in turns ==> t.file == cache.fileOf(t.key)
    modifies cache, if budget == null then {} else {budget}
    ensures State(cache.files, SpentOf(budget), verdicts) ==
            Loop(Setup(provider, cache.enabled && !o.noCache && !o.regenerate && !o.force, cache.enabled, cache.ttl,
                       LimitsOf(budget)),
                 old(cache.files), old(SpentOf(budget)), turns)
    ensures r.BuildFailed? <==> product == ""
    ensures product != "" ==>
              && Conserved(r, loaded, verdicts)
              && r.counters == Tally(loaded, o, stale)
              && r.document.statements == VexGen.Statements(product, VexGen.Sorted(Entries(turns, verdicts)), settings)
              && |verdicts| == |turns|
              && forall j :: 0 <= j < |r.assessments| ==>
                 RecordExplained(r.assessments[j], r.document.statements[j], turns, verdicts)
  {
    hide Loop, Entries, Records, Costs, CountDeferred, Tally, Selected, KeyOf, StatementKey, TurnsFor, Distinct;
    hide VexGen.Statements, VexGen.Guardrails, VexGen.CountStatus, VexGen.StatementFor, VexGen.ValidStatement,
         RecordExplained;
    hide FoundAgain;
    var findings, counters := Filter(loaded, o, stale);
    CountersAddUp(loaded, o, stale);
    SelectedAreDistinct(loaded, o, stale);
    assert |turns| == |findings| by { TurnCount(turns, findings); }
    var readCache := cache.enabled && !o.noCache && !o.regenerate && !o.force;
    var entries, records, deferred, usage;
    entries, records, deferred, usage, verdicts := AssessFindings(turns, provider, readCache, cache, budget);
    EntriesAddUp(turns, verdicts);
    var doc := VexGen.Build(product, entries, settings);
    if doc.NoProduct? {
      return BuildFailed, verdicts;
    }
    ghost var sorted := VexGen.Sorted(entries);
    VexGen.StatementsOfEntries(product, sorted, settings);
    VexGen.CountsAddUp(doc.statements);
    forall j | 0 <= j < |doc.statements| ensures FoundAgain(doc.statements[j], turns, verdicts, records) {
      StatementsAreExplained(product, turns, findings, verdicts, settings, j);
      assert doc.statements[j] == VexGen.StatementFor(product, sorted[j], settings);
    }
    var assessments := Report(product, doc.statements, records, turns, verdicts);
    r := Outcome(|findings|, counters, deferred, usage, doc, assessments);
  }

  lemma TurnCount(turns: seq<Turn>, findings: seq<Finding>)
    requires TurnsFor(turns, findings)
    ensures |turns| == |findings|
  {
  }

  // ---- where a closing statement comes from ----

  /** The turn's finding was asked about and the provider answered with this verdict, or a cache entry for its question
      holds it. */
  ghost predicate ComesFrom(c: Setup, files: map<string, CacheEntry>, t: Turn, v: Verdict, status: Status) {
    || (v.Asked? && t.reply.Answer? && Normalize(t.reply.assessment).status == status)
    || (v.Cached? && t.file in files && files[t.file].key == t.key &&
        Normalize(files[t.file].assessment).status == status)
  }

  /** A statement that closes a finding is about the finding of some turn, and its status is that of the provider's
      answer or of a cache entry, never of a failed call. */
  lemma ClosedByAnswer(product: string, c: Setup, files: map<string, CacheEntry>, spent: Usage, turns: seq<Turn>,
                       o: VexGen.Settings, j: nat)
    requires j < |VexGen.Sorted(Entries(turns, Loop(c, files, spent, turns).verdicts))|
    requires var e := VexGen.Sorted(Entries(turns, Loop(c, files, spent, turns).verdicts))[j];
             VexGen.StatementFor(product, e, o).status in {NotAffected, Fixed}
    ensures var verdicts := Loop(c, files, spent, turns).verdicts;
            var s := VexGen.StatementFor(product, VexGen.Sorted(Entries(turns, verdicts))[j], o);
            exists i :: 0 <= i < |turns| && s.vulnID == turns[i].report.finding.vulnID &&
                        s.purl == turns[i].report.finding.purl &&
                        ComesFrom(c, Loop(c, files, spent, turns[..i]).files, turns[i], verdicts[i], s.status)
  {
    var verdicts := Loop(c, files, spent, turns).verdicts;
    var e := VexGen.Sorted(Entries(turns, verdicts))[j];
    EntryOfTurn(turns, verdicts, j);
    var i :| 0 <= i < |turns| && IsEntry(turns[i], verdicts[i], e);
    WhatTurnsGet(c, files, spent, turns, i);
    VexGen.FinalVerdict(e, o);
    hide Loop, Entries, VexGen.Finalize, VexGen.NotesFor, VexGen.Sorted, CleanText;
    ClosingOrigin(c, Loop(c, files, spent, turns[..i]), turns[i], verdicts[i]);
  }

  lemma EntryOfTurn(turns: seq<Turn>, verdicts: seq<Verdict>, j: nat)
    requires |turns| == |verdicts| && j < |VexGen.Sorted(Entries(turns, verdicts))|
    ensures FromTurn(turns, verdicts, VexGen.Sorted(Entries(turns, verdicts))[j])
  {
    hide Entries, VexGen.EntryLe, FromTurn;
    var entries := VexGen.Sorted(Entries(turns, verdicts));
    assert entries[j] in multiset(entries);
    assert entries[j] in Entries(turns, verdicts);
    EntriesAddUp(turns, verdicts);
  }

  lemma ClosingOrigin(c: Setup, s: State, t: Turn, v: Verdict)
    requires GetsVerdict(c, s.files, s.spent, t, v) && !v.Deferred?
    requires Normalize(v.assessment).status in {NotAffected, Fixed}
    ensures ComesFrom(c, s.files, t, v, Normalize(v.assessment).status)
  {
    hide LimitReached, TrimSpace;
  }

  // ---- the same document with and without cache ----

  lemma SameOrder(a: VexGen.Entry, b: VexGen.Entry, x: VexGen.Entry, y: VexGen.Entry)
    requires a.report == b.report && x.report == y.report
    ensures VexGen.EntryLe(a, x) == VexGen.EntryLe(b, y)
  {
  }

  ghost predicate Alike(a: VexGen.Entry, b: VexGen.Entry) {
    a.report == b.report && WithoutUsage(a.assessment) == WithoutUsage(b.assessment)
  }

  lemma {:induction false} InsertAlike(a: VexGen.Entry, b: VexGen.Entry, s: seq<VexGen.Entry>, t: seq<VexGen.Entry>)
    requires Alike(a, b) && SameButCost(s, t)
    ensures SameButCost(Insert(VexGen.EntryLe, a, s), Insert(VexGen.EntryLe, b, t))
  {
    hide VexGen.EntryLe, WithoutUsage;
    if s != [] {
      SameOrder(a, b, s[0], t[0]);
      if !VexGen.EntryLe(a, s[0]) {
        InsertAlike(a, b, s[1..], t[1..]);
      }
    }
  }

  lemma {:induction false} SortAlike(s: seq<VexGen.Entry>, t: seq<VexGen.Entry>)
    requires SameButCost(s, t)
    ensures SameButCost(Sort(VexGen.EntryLe, s), Sort(VexGen.EntryLe, t))
  {
    hide VexGen.EntryLe, WithoutUsage;
    if s != [] {
      SortAlike(s[1..], t[1..]);
      InsertAlike(s[0], t[0], Sort(VexGen.EntryLe, s[1..]), Sort(VexGen.EntryLe, t[1..]));
    }
  }

  lemma {:induction false} StatementsAlike(product: string, s: seq<VexGen.Entry>, t: seq<VexGen.Entry>,
                                           o: VexGen.Settings)
    requires SameButCost(s, t)
    ensures VexGen.Statements(product, s, o) == VexGen.Statements(product, t, o)
  {
    hide VexGen.StatementFor, VexGen.GuardrailsFor, WithoutUsage;
    if s != [] {
      var n := |s| - 1;
      StatementsAlike(product, s[..n], t[..n], o);
      VexGen.CostIsInvisible(product, s[n], t[n], o);
    }
  }

  /** Without a budget, and for a provider whose answer depends on the key, a run's statements are the same with and
      without reading the cache, whatever earlier runs left in it and however keys share files. */
  lemma StatementsIgnoreCache(product: string, o: VexGen.Settings, c: Setup, d: Setup, files: map<string, CacheEntry>,
                              files': map<string, CacheEntry>, spent: Usage, s: seq<Turn>, t: seq<Turn>,
                              answers: map<CacheKey, Reply>)
    requires c.limits.None? && d.limits.None? && c.provider == d.provider && |s| == |t|
    requires Faithful(files, answers) && Faithful(files', answers) && KeyedReplies(s, answers) &&
             KeyedReplies(t, answers)
    requires forall i :: 0 <= i < |s| ==> s[i].report == t[i].report && s[i].key == t[i].key
    ensures VexGen.Statements(product, VexGen.Sorted(Entries(s, Loop(c, files, spent, s).verdicts)), o) ==
            VexGen.Statements(product, VexGen.Sorted(Entries(t, Loop(d, files', spent, t).verdicts)), o)
  {
    hide SameButCost, Loop, Entries, VexGen.Statements;
    RunsAgree(c, d, files, files', spent, s, t, answers);
    var a, b := Entries(s, Loop(c, files, spent, s).verdicts), Entries(t, Loop(d, files', spent, t).verdicts);
    SortAlike(a, b);
    StatementsAlike(product, VexGen.Sorted(a), VexGen.Sorted(b), o);
  }
}
