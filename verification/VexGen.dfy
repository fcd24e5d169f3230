/** Turns verdicts into OpenVEX statements. Guardrails keep a finding open unless the evidence allows closing it. */
module VexGen {
  import opened Options
  import opened Text
  import opened Sorting
  import opened Sources
  import opened Evidence
  import opened Assessments
  import Heuristics

  datatype Settings = Settings(minConfidence: real, allowUnsupported: bool)

  datatype Entry = Entry(report: Report, assessment: Assessment)

  datatype Guardrail = Guardrail(vulnID: string, purl: string, reason: Guard)

  /** status_notes in its parts. */
  datatype Notes = Notes(provider: string, confidence: real, evidence: seq<string>, reasoning: Reasoning)

  datatype Statement = Statement(vulnID: string, product: string, purl: string, status: Status,
                                 justification: Justification,
                                 impact: string, action: string, notes: Notes)

  datatype Outcome = Outcome(assessment: Assessment, guards: seq<Guard>)

  function Downgrade(a: Assessment, reason: Guard): Outcome {
    Outcome(a.(status := UnderInvestigation, justification := NoJustification, impact := "", action := "",
               reasoning := Downgraded(reason, a.status, a.confidence, a.reasoning)),
            [reason])
  }

  function ApplyGuardrails(a: Assessment, r: Report, o: Settings): Outcome {
    if (a.status == NotAffected || a.status == Fixed) && a.confidence < o.minConfidence then
      Downgrade(a, LowConfidence(a.confidence, o.minConfidence))
    else if a.status == NotAffected && !o.allowUnsupported && |r.StrongItems()| == 0 then
      Downgrade(a, NoStrongEvidence)
    else if a.status == Fixed && !r.Has(VersionFixed) && !o.allowUnsupported then
      Downgrade(a, NotFixedVersion)
    else Outcome(a, [])
  }

  /** One entry's way through normalising, guardrails and validation. */
  function Finalize(e: Entry, o: Settings): Outcome {
    var g := ApplyGuardrails(Normalize(e.assessment), e.report, o);
    match Validate(g.assessment)
    case Pass => g
    case Fail(why) =>
      Outcome(Assessment(UnderInvestigation, NoJustification, "", "", 0.0, Invalid(why), [], g.assessment.provider,
                         NO_USAGE),
              g.guards + [InvalidAssessment(why)])
  }

  function NotesFor(a: Assessment, r: Report): Notes {
    var strong := r.StrongItems();
    Notes(if a.provider == "" then "unknown" else a.provider, a.confidence,
          if |a.evidenceRefs| > 0 then a.evidenceRefs
          else seq(|strong|, i requires 0 <= i < |strong| => KindName(strong[i].kind)),
          a.reasoning)
  }

  function StatementFor(productID: string, e: Entry, o: Settings): Statement {
    var a := Finalize(e, o).assessment;
    Statement(e.report.finding.vulnID, productID, e.report.finding.purl, a.status, a.justification, a.impact, a.action,
              NotesFor(a, e.report))
  }

  function GuardrailsFor(e: Entry, o: Settings): seq<Guardrail> {
    var gs := Finalize(e, o).guards;
    seq(|gs|, i requires 0 <= i < |gs| => Guardrail(e.report.finding.vulnID, e.report.finding.purl, gs[i]))
  }

  predicate ValidStatement(s: Statement) {
    ValidateFields(s.status, s.justification, s.impact, s.action) == Pass
  }

  // ---- what a final verdict means ----

  /** Whatever the provider said, the final verdict is valid, and it closes a finding exactly when the provider's
      normalised verdict did so validly, confidently enough, and with the evidence the status demands. */
  lemma FinalVerdict(e: Entry, o: Settings)
    ensures Validate(Finalize(e, o).assessment) == Pass
    ensures Finalize(e, o).assessment.status == NotAffected <==>
            && Normalize(e.assessment).status == NotAffected
            && Validate(Normalize(e.assessment)) == Pass
            && e.assessment.confidence >= o.minConfidence
            && (o.allowUnsupported || exists it :: it in e.report.items && it.strong)
    ensures Finalize(e, o).assessment.status == Fixed <==>
            && Normalize(e.assessment).status == Fixed
            && Validate(Normalize(e.assessment)) == Pass
            && e.assessment.confidence >= o.minConfidence
            && (o.allowUnsupported || e.report.Has(VersionFixed))
    ensures Finalize(e, o).guards == [] ==> Finalize(e, o).assessment == Normalize(e.assessment)
  {
    StrongItemsEmpty(e.report);
    var n := Normalize(e.assessment);
    var g := ApplyGuardrails(n, e.report, o);
    assert n.confidence == e.assessment.confidence;
  }

  /** A guarded verdict stays open, and keeps neither justification nor impact nor action. */
  lemma GuardedStaysOpen(e: Entry, o: Settings)
    ensures var f := Finalize(e, o);
            && (f.guards != [] ==>
                  && f.assessment.status == UnderInvestigation && f.assessment.justification == NoJustification
                  && f.assessment.impact == "" && f.assessment.action == "")
            && (f.assessment.status == UnderInvestigation <==>
                  f.guards != [] || Normalize(e.assessment).status == UnderInvestigation)
            && (f.assessment.status == Affected <==>
                  Normalize(e.assessment).status == Affected && Validate(Normalize(e.assessment)) == Pass)
            && (f.guards == [] ==> Validate(Normalize(e.assessment)) == Pass)
  {
    hide CleanText, Report.StrongItems, Report.Has;
  }

  /** Which guards fire, and what each of them notes. At most one of them looks at the evidence, and an invalid verdict
      is noted besides. */
  lemma GuardsExactly(e: Entry, o: Settings)
    ensures var n, gs := Normalize(e.assessment), Finalize(e, o).guards;
            && (forall x, y :: LowConfidence(x, y) in gs <==>
                  (n.status == NotAffected || n.status == Fixed) && n.confidence < o.minConfidence &&
                  x == n.confidence && y == o.minConfidence)
            && (NoStrongEvidence in gs <==>
                  && n.status == NotAffected && n.confidence >= o.minConfidence && !o.allowUnsupported
                  && forall it :: it in e.report.items ==> !it.strong)
            && (NotFixedVersion in gs <==>
                  && n.status == Fixed && n.confidence >= o.minConfidence && !o.allowUnsupported
                  && forall it :: it in e.report.items ==> it.kind != VersionFixed)
            && (gs == [] || |gs| == 1 || (|gs| == 2 && gs[1] == InvalidAssessment(ConfidenceRange)))
  {
    StrongItemsEmpty(e.report);
    NormalizedValidity(e.assessment);
    hide CleanText, Report.StrongItems;
  }

  /** The note of a guarded verdict says what it was before; an invalid one keeps its provider and loses its cost. */
  lemma GuardedNote(e: Entry, o: Settings)
    ensures var n, f := Normalize(e.assessment), Finalize(e, o);
            && f.assessment.provider == n.provider
            && (|f.guards| == 1 && !f.guards[0].InvalidAssessment? ==>
                  && f.assessment.reasoning == Downgraded(f.guards[0], n.status, n.confidence, n.reasoning)
                  && f.assessment.confidence == n.confidence && f.assessment.evidenceRefs == n.evidenceRefs)
            && (forall why :: InvalidAssessment(why) in f.guards ==>
                  && f.assessment.reasoning == Invalid(why) && f.assessment.confidence == 0.0
                  && f.assessment.evidenceRefs == [] && f.assessment.usage == NO_USAGE)
  {
    hide CleanText, Report.StrongItems, Report.Has;
  }

  /** The guardrail for not_affected takes any strong item, so evidence that the code is reachable excuses it too. */
  lemma ReachableExcusesNotAffected(f: Finding, impact: string, reasoning: string)
    ensures var e := Entry(Report(f, None, [Item(Reachable, true)]),
                           Assessment(NotAffected, NotInExecutePath, impact, "", 1.0, Text(reasoning), [], "model",
                                      NO_USAGE));
            forall o: Settings :: o.minConfidence <= 1.0 ==> Finalize(e, o).assessment.status == NotAffected
  {
    var r := Report(f, None, [Item(Reachable, true)]);
    var a := Assessment(NotAffected, NotInExecutePath, impact, "", 1.0, Text(reasoning), [], "model", NO_USAGE);
    assert r.items[0].strong;
    assert Normalize(a).status == NotAffected && Normalize(a).justification == NotInExecutePath;
    forall o: Settings | o.minConfidence <= 1.0 ensures Finalize(Entry(r, a), o).assessment.status == NotAffected {
      NormalizedValidity(a);
      FinalVerdict(Entry(r, a), o);
    }
  }

  lemma {:induction false} TrimRightKeepsFirst(s: string)
    requires s != "" && !IsSpace(s[0])
    ensures TrimRight(s) != ""
  {
    if IsSpace(s[|s| - 1]) {
      TrimRightKeepsFirst(s[..|s| - 1]);
    }
  }

  lemma WellFormedPasses(r: Report, a: Assessment, o: Settings)
    requires !a.status.OtherStatus? && !a.justification.OtherJustification? && 0.0 <= a.confidence <= 1.0
    requires a.status.NotAffected? ==> !a.justification.NoJustification? && exists it :: it in r.items && it.strong
    requires a.status.Fixed? ==> r.Has(VersionFixed)
    ensures Finalize(Entry(r, a), o).guards == [] <==>
            (a.status.NotAffected? || a.status.Fixed? ==> a.confidence >= o.minConfidence)
    ensures Finalize(Entry(r, a), o).guards == [] ==> Finalize(Entry(r, a), o).assessment.status == a.status
  {
    StrongItemsEmpty(r);
    NormalizedValidity(a);
  }

  /** A rules-only verdict keeps its status through the guardrails exactly when it leaves the finding open or its
      confidence reaches the minimum. */
  lemma HeuristicPasses(r: Report, a: Assessment, o: Settings)
    requires a == Heuristics.Assess(r)
    ensures Finalize(Entry(r, a), o).guards == [] <==>
            (a.status.NotAffected? || a.status.Fixed? ==> a.confidence >= o.minConfidence)
    ensures Finalize(Entry(r, a), o).guards == [] ==> Finalize(Entry(r, a), o).assessment.status == a.status
  {
    hide Finalize, Heuristics.VerdictOf, Heuristics.RuleFor;
    Heuristics.VerdictIsWellFormed(Heuristics.RuleFor(r), r.finding);
    Heuristics.ClosedVerdictHasEvidence(r);
    WellFormedPasses(r, a, o);
  }

  /** No rules-only verdict is ever downgraded exactly when the minimum is at most 0.7. */
  lemma HeuristicAlwaysPasses(o: Settings, f: Finding)
    ensures (forall r: Report :: Finalize(Entry(r, Heuristics.Assess(r)), o).guards == []) <==> o.minConfidence <= 0.7
  {
    hide Finalize, Heuristics.Assess;
    forall r: Report | o.minConfidence <= 0.7 ensures Finalize(Entry(r, Heuristics.Assess(r)), o).guards == [] {
      HeuristicPasses(r, Heuristics.Assess(r), o);
      Heuristics.ClosedVerdictHasEvidence(r);
    }
    var weakest := Report(f, None, [Item(ImportNotFound, true)]);
    Heuristics.WeakestClosingRule(f, weakest);
    HeuristicPasses(weakest, Heuristics.Assess(weakest), o);
  }

  // ---- the document ----

  predicate EntryLe(a: Entry, b: Entry) {
    var f, g := a.report.finding, b.report.finding;
    if f.vulnID != g.vulnID then LexLe(f.vulnID, g.vulnID) else LexLe(f.purl, g.purl)
  }

  lemma EntryOrder()
    ensures TotalPreorder(EntryLe)
  {
    forall a: Entry, b: Entry ensures EntryLe(a, b) || EntryLe(b, a) {
      LexTotal(a.report.finding.vulnID, b.report.finding.vulnID);
      LexTotal(a.report.finding.purl, b.report.finding.purl);
    }
    forall a: Entry, b: Entry, c: Entry | EntryLe(a, b) && EntryLe(b, c) ensures EntryLe(a, c) {
      var u, v, w := a.report.finding, b.report.finding, c.report.finding;
      if u.vulnID == v.vulnID == w.vulnID {
        LexTransitive(u.purl, v.purl, w.purl);
      } else if u.vulnID != v.vulnID && v.vulnID != w.vulnID {
        LexTransitive(u.vulnID, v.vulnID, w.vulnID);
        if u.vulnID == w.vulnID { LexAntisymmetric(u.vulnID, v.vulnID); }
      }
    }
  }

  function Sorted(entries: seq<Entry>): (r: seq<Entry>)
    ensures multiset(r) == multiset(entries) && |r| == |entries|
  {
    Sort(EntryLe, entries)
  }

  /** Statements come in the order of their ids and package urls; entries of one pair keep their order. */
  lemma SortedEntries(entries: seq<Entry>, vulnID: string, purl: string)
    ensures forall i, j :: 0 <= i < j < |entries| ==>
              var f, g := Sorted(entries)[i].report.finding, Sorted(entries)[j].report.finding;
              LexLe(f.vulnID, g.vulnID) && (f.vulnID == g.vulnID ==> LexLe(f.purl, g.purl))
    ensures var p := (e: Entry) => e.report.finding.vulnID == vulnID && e.report.finding.purl == purl;
            Select(p, Sorted(entries)) == Select(p, entries)
  {
    EntryOrder();
    SortSorts(EntryLe, entries);
    forall i, j | 0 <= i < j < |entries|
      ensures var f, g := Sorted(entries)[i].report.finding, Sorted(entries)[j].report.finding;
              LexLe(f.vulnID, g.vulnID) && (f.vulnID == g.vulnID ==> LexLe(f.purl, g.purl))
    {
      var e, x := Sorted(entries)[i], Sorted(entries)[j];
      assert EntryLe(e, x);
      LexTotal(e.report.finding.vulnID, x.report.finding.vulnID);
    }
    LexTotal(purl, purl);
    SortIsStable(EntryLe, (e: Entry) => e.report.finding.vulnID == vulnID && e.report.finding.purl == purl, entries);
  }

  function Guardrails(entries: seq<Entry>, o: Settings): seq<Guardrail> {
    if entries == [] then []
    else Guardrails(entries[..|entries| - 1], o) + GuardrailsFor(entries[|entries| - 1], o)
  }

  /** The document lists exactly the guards that fired, under their own findings. */
  lemma {:induction false} GuardrailsExactly(entries: seq<Entry>, o: Settings, g: Guardrail)
    ensures g in Guardrails(entries, o) <==>
            exists e :: e in entries && g.vulnID == e.report.finding.vulnID && g.purl == e.report.finding.purl &&
                        g.reason in Finalize(e, o).guards
  {
    hide Finalize;
    if entries != [] {
      var n := |entries| - 1;
      var e := entries[n];
      assert entries == entries[..n] + [e];
      GuardrailsExactly(entries[..n], o, g);
      var gs, rails := Finalize(e, o).guards, GuardrailsFor(e, o);
      assert g in rails <==>
             g.vulnID == e.report.finding.vulnID && g.purl == e.report.finding.purl && g.reason in gs by {
        if g in rails {
          var i :| 0 <= i < |rails| && rails[i] == g;
          assert gs[i] in gs;
        }
        if g.vulnID == e.report.finding.vulnID && g.purl == e.report.finding.purl && g.reason in gs {
          var i :| 0 <= i < |gs| && gs[i] == g.reason;
          assert rails[i] == g;
        }
      }
      hide GuardrailsFor;
    }
  }

  /** A statement says what the final verdict says. Its notes name the provider, or that it is unknown, and the evidence
      that the verdict refers to, or else the strong evidence. */
  lemma StatementFields(productID: string, e: Entry, o: Settings)
    ensures var s, a := StatementFor(productID, e, o), Finalize(e, o).assessment;
            && s.status == a.status && s.justification == a.justification && s.impact == a.impact &&
               s.action == a.action
            && s.notes.confidence == a.confidence && s.notes.reasoning == a.reasoning
            && s.notes.provider == (if a.provider == "" then "unknown" else a.provider)
            && (a.evidenceRefs != [] ==> s.notes.evidence == a.evidenceRefs)
            && (a.evidenceRefs == [] ==>
                  forall x :: x in s.notes.evidence <==>
                    exists it :: it in e.report.items && it.strong && KindName(it.kind) == x)
  {
    hide Finalize, KindName;
    SelectHolds((it: Item) => it.strong, e.report.items);
    var strong, s := e.report.StrongItems(), StatementFor(productID, e, o);
    if Finalize(e, o).assessment.evidenceRefs == [] {
      forall it | it in strong ensures KindName(it.kind) in s.notes.evidence {
        var i :| 0 <= i < |strong| && strong[i] == it;
        assert s.notes.evidence[i] == KindName(it.kind);
      }
      forall x | x in s.notes.evidence ensures exists it :: it in strong && KindName(it.kind) == x {
        var i :| 0 <= i < |s.notes.evidence| && s.notes.evidence[i] == x;
        assert strong[i] in strong;
      }
    }
  }

  function CountStatus(statements: seq<Statement>, status: Status): nat {
    if statements == [] then 0
    else CountStatus(statements[..|statements| - 1], status) + if statements[|statements| - 1].status == status then 1
      else 0
  }

  /** Every valid statement has one of the four statuses, so the four counts add up to the statements. */
  lemma {:induction false} CountsAddUp(statements: seq<Statement>)
    requires forall s :: s in statements ==> ValidStatement(s)
    ensures CountStatus(statements, NotAffected) + CountStatus(statements, Affected) + CountStatus(statements, Fixed) +
            CountStatus(statements, UnderInvestigation) == |statements|
  {
    if statements != [] {
      var n := |statements| - 1;
      assert statements == statements[..n] + [statements[n]];
      CountsAddUp(statements[..n]);
      assert ValidStatement(statements[n]);
    }
  }

  ghost function StatedAt(statements: seq<Statement>, status: Status): set<int> {
    set i | 0 <= i < |statements| && statements[i].status == status
  }

  lemma StatedAtSnoc(statements: seq<Statement>, s: Statement, status: Status)
    ensures StatedAt(statements + [s], status) ==
            StatedAt(statements, status) + (if s.status == status then {|statements|} else {})
    ensures |statements| !in StatedAt(statements, status)
  {
  }

  /** A count is the number of the statements with that status. */
  lemma {:induction false} CountIsNumber(statements: seq<Statement>, status: Status)
    ensures CountStatus(statements, status) == |StatedAt(statements, status)|
  {
    if statements != [] {
      var n := |statements| - 1;
      CountIsNumber(statements[..n], status);
      StatedAtSnoc(statements[..n], statements[n], status);
      assert statements == statements[..n] + [statements[n]];
      hide StatedAt;
    }
  }

  datatype Document = NoProduct | Document(statements: seq<Statement>, guardrails: seq<Guardrail>,
                                           counts: map<Status, nat>)

  function CountOf(counts: map<Status, nat>, status: Status): nat {
    if status in counts then counts[status] else 0
  }

  function Statements(productID: string, entries: seq<Entry>, o: Settings): seq<Statement> {
    if entries == [] then []
    else Statements(productID, entries[..|entries| - 1], o) + [StatementFor(productID, entries[|entries| - 1], o)]
  }

  /** Each entry gives exactly one valid statement, about its own finding. */
  lemma {:induction false} StatementsOfEntries(productID: string, entries: seq<Entry>, o: Settings)
    ensures |Statements(productID, entries, o)| == |entries|
    ensures forall i :: 0 <= i < |entries| ==>
              var s := Statements(productID, entries, o)[i];
              && s == StatementFor(productID, entries[i], o) && ValidStatement(s) && s.product == productID
              && s.vulnID == entries[i].report.finding.vulnID && s.purl == entries[i].report.finding.purl
  {
    hide Finalize, NotesFor, ValidateFields;
    if entries != [] {
      var n := |entries| - 1;
      StatementsOfEntries(productID, entries[..n], o);
      FinalIsValid(productID, entries[n], o);
    }
  }

  lemma FinalIsValid(productID: string, e: Entry, o: Settings)
    ensures ValidStatement(StatementFor(productID, e, o))
  {
    hide Finalize, NotesFor;
    FinalVerdict(e, o);
  }

  /** How many of the entries end with a status. */
  function CountFinal(entries: seq<Entry>, o: Settings, status: Status): nat {
    if entries == [] then 0
    else (if Finalize(entries[0], o).assessment.status == status then 1 else 0) + CountFinal(entries[1..], o, status)
  }

  lemma {:induction false} CountFinalSnoc(entries: seq<Entry>, e: Entry, o: Settings, status: Status)
    ensures CountFinal(entries + [e], o, status) ==
            CountFinal(entries, o, status) + if Finalize(e, o).assessment.status == status then 1 else 0
  {
    hide Finalize;
    if entries == [] {
      assert entries + [e] == [e];
    } else {
      CountFinalSnoc(entries[1..], e, o, status);
      assert (entries + [e])[1..] == entries[1..] + [e];
    }
  }

  lemma {:induction false} InsertCounts(e: Entry, s: seq<Entry>, o: Settings, status: Status)
    ensures CountFinal(Insert(EntryLe, e, s), o, status) == CountFinal([e] + s, o, status)
  {
    hide Finalize, EntryLe;
    assert ([e] + s)[1..] == s;
    if s != [] && !EntryLe(e, s[0]) {
      InsertCounts(e, s[1..], o, status);
      assert ([e] + s[1..])[1..] == s[1..];
      assert Insert(EntryLe, e, s)[1..] == Insert(EntryLe, e, s[1..]);
    }
  }

  lemma {:induction false} SortCounts(s: seq<Entry>, o: Settings, status: Status)
    ensures CountFinal(Sort(EntryLe, s), o, status) == CountFinal(s, o, status)
  {
    hide Finalize, EntryLe;
    if s != [] {
      SortCounts(s[1..], o, status);
      InsertCounts(s[0], Sort(EntryLe, s[1..]), o, status);
      var t := [s[0]] + Sort(EntryLe, s[1..]);
      assert t[1..] == Sort(EntryLe, s[1..]);
    }
  }

  lemma {:induction false} StatementsCount(productID: string, entries: seq<Entry>, o: Settings, status: Status)
    ensures CountStatus(Statements(productID, entries, o), status) == CountFinal(entries, o, status)
  {
    hide Finalize, NotesFor;
    if entries != [] {
      var n := |entries| - 1;
      assert entries == entries[..n] + [entries[n]];
      StatementsCount(productID, entries[..n], o, status);
      CountFinalSnoc(entries[..n], entries[n], o, status);
      var front, s := Statements(productID, entries[..n], o), StatementFor(productID, entries[n], o);
      assert (front + [s])[..|front + [s]| - 1] == front;
    }
  }

  /** A document's count of a status is the number of entries whose final verdict has it. */
  lemma DocumentCounts(productID: string, entries: seq<Entry>, o: Settings, status: Status)
    ensures CountStatus(Statements(productID, Sorted(entries), o), status) == CountFinal(entries, o, status)
    ensures CountFinal(entries, o, status) ==
            |set i | 0 <= i < |entries| && Finalize(entries[i], o).assessment.status == status|
  {
    hide Finalize, CountFinal, Statements, CountStatus;
    StatementsCount(productID, Sorted(entries), o, status);
    SortCounts(entries, o, status);
    CountFinalIsNumber(entries, o, status);
  }

  ghost function FinalAt(entries: seq<Entry>, o: Settings, status: Status): set<int> {
    set i | 0 <= i < |entries| && Finalize(entries[i], o).assessment.status == status
  }

  lemma FinalAtSnoc(entries: seq<Entry>, e: Entry, o: Settings, status: Status)
    ensures var n := |entries|;
            && FinalAt(entries + [e], o, status) ==
               FinalAt(entries, o, status) + (if Finalize(e, o).assessment.status == status then {n} else {})
            && n !in FinalAt(entries, o, status)
  {
    hide Finalize;
  }

  lemma {:induction false} CountFinalIsNumber(entries: seq<Entry>, o: Settings, status: Status)
    ensures CountFinal(entries, o, status) == |FinalAt(entries, o, status)|
  {
    hide Finalize;
    if entries != [] {
      var n := |entries| - 1;
      CountFinalIsNumber(entries[..n], o, status);
      CountFinalSnoc(entries[..n], entries[n], o, status);
      FinalAtSnoc(entries[..n], entries[n], o, status);
      assert entries == entries[..n] + [entries[n]];
      hide CountFinal, FinalAt;
    }
  }

  method Render(productID: string, e: Entry, o: Settings) returns (s: Statement, guardrails: seq<Guardrail>)
    ensures s == StatementFor(productID, e, o) && guardrails == GuardrailsFor(e, o)
    ensures ValidStatement(s)
  {
    FinalIsValid(productID, e, o);
    s, guardrails := StatementFor(productID, e, o), GuardrailsFor(e, o);
  }

  /** The only error is a missing product id: the validation of each statement cannot fail. */
  method Build(productID: string, entries: seq<Entry>, o: Settings) returns (doc: Document)
    ensures doc.NoProduct? <==> productID == ""
    ensures doc.Document? ==>
              && doc.statements == Statements(productID, Sorted(entries), o)
              && doc.guardrails == Guardrails(Sorted(entries), o)
              && (forall status :: CountOf(doc.counts, status) == CountStatus(doc.statements, status))
              && (forall status :: CountOf(doc.counts, status) == CountFinal(entries, o, status))
  {
    hide StatementFor, GuardrailsFor, ValidStatement;
    forall status { DocumentCounts(productID, entries, o, status); }
    hide CountFinal;
    if productID == "" { return NoProduct; }
    var sorted := Sorted(entries);
    var statements: seq<Statement>, guardrails, counts: map<Status, nat> := [], [], map[];
    for i := 0 to |sorted|
      invariant statements == Statements(productID, sorted[..i], o)
      invariant guardrails == Guardrails(sorted[..i], o)
      invariant forall status :: CountOf(counts, status) == CountStatus(statements, status)
    {
      var s, gs := Render(productID, sorted[i], o);
      assert ValidStatement(s);
      assert sorted[..i + 1][..i] == sorted[..i];
      assert (statements + [s])[..|statements|] == statements;
      guardrails := guardrails + gs;
      statements := statements + [s];
      counts := counts[s.status := CountOf(counts, s.status) + 1];
    }
    assert sorted[..|sorted|] == sorted;
    return Document(statements, guardrails, counts);
  }

  lemma CleaningIgnoresCost(a: Assessment, b: Assessment)
    requires WithoutUsage(a) == WithoutUsage(b)
    ensures WithoutUsage(Normalize(a)) == WithoutUsage(Normalize(b))
  {
    hide CleanStatus, CleanJustification, TrimReasoning, TrimSpace;
    assert a == b.(usage := a.usage);
    assert CleanText(a) == CleanText(b).(usage := a.usage);
  }

  lemma GuardsIgnoreCost(m: Assessment, n: Assessment, r: Report, o: Settings)
    requires WithoutUsage(m) == WithoutUsage(n)
    ensures var g, h := ApplyGuardrails(m, r, o), ApplyGuardrails(n, r, o);
            WithoutUsage(g.assessment) == WithoutUsage(h.assessment) && g.guards == h.guards
  {
    assert m == n.(usage := m.usage);
  }

  /** Cost never shows in a document: verdicts equal up to usage give the same statement and guardrails. */
  lemma CostIsInvisible(productID: string, a: Entry, b: Entry, o: Settings)
    requires a.report == b.report && WithoutUsage(a.assessment) == WithoutUsage(b.assessment)
    ensures StatementFor(productID, a, o) == StatementFor(productID, b, o) && GuardrailsFor(a, o) == GuardrailsFor(b, o)
  {
    CleaningIgnoresCost(a.assessment, b.assessment);
    GuardsIgnoreCost(Normalize(a.assessment), Normalize(b.assessment), a.report, o);
    var f, g := Finalize(a, o), Finalize(b, o);
    assert WithoutUsage(f.assessment) == WithoutUsage(g.assessment) && f.guards == g.guards;
    assert NotesFor(f.assessment, a.report) == NotesFor(g.assessment, b.report);
  }
}
