/** Provider cost and provider verdicts, with the field rules of the OpenVEX Specification v0.2.0, "Status Labels". */
module Assessments {
  import opened Text

  // ---- cost ----

  datatype Usage = Usage(calls: int, promptTokens: int, completionTokens: int, premium: real, model: string,
                         duration: int, cacheHits: int)
  {
    function TotalTokens(): int { promptTokens + completionTokens }
  }

  const NO_USAGE := Usage(0, 0, 0, 0.0, "", 0, 0)

  const MIXED := "mixed"

  function JoinModel(u: string, o: string): string {
    if o == "" then u else if u == "" then o else if u != o then MIXED else u
  }

  function Add(u: Usage, o: Usage): Usage {
    Usage(u.calls + o.calls, u.promptTokens + o.promptTokens, u.completionTokens + o.completionTokens,
          u.premium + o.premium, JoinModel(u.model, o.model), u.duration + o.duration, u.cacheHits + o.cacheHits)
  }

  /** Adding cost is a commutative monoid, so totals do not depend on who reports first. */
  lemma AddIsCommutativeMonoid(a: Usage, b: Usage, c: Usage)
    ensures Add(a, NO_USAGE) == a && Add(NO_USAGE, a) == a
    ensures Add(a, b) == Add(b, a)
    ensures Add(Add(a, b), c) == Add(a, Add(b, c))
  {
  }

  function Sum(us: seq<Usage>): Usage {
    if us == [] then NO_USAGE else Add(Sum(us[..|us| - 1]), us[|us| - 1])
  }

  lemma {:induction false} SumAppend(a: seq<Usage>, b: seq<Usage>)
    ensures Sum(a + b) == Add(Sum(a), Sum(b))
  {
    hide Add;
    if b == [] {
      assert a + b == a;
      AddIsCommutativeMonoid(Sum(a), NO_USAGE, NO_USAGE);
    } else {
      var n := |b| - 1;
      assert (a + b)[..|a + b| - 1] == a + b[..n];
      SumAppend(a, b[..n]);
      AddIsCommutativeMonoid(Sum(a), Sum(b[..n]), b[n]);
    }
  }

  function Total(us: seq<int>): int {
    if us == [] then 0 else Total(us[..|us| - 1]) + us[|us| - 1]
  }

  function Numbers(us: seq<Usage>, f: Usage -> int): seq<int> {
    seq(|us|, i requires 0 <= i < |us| => f(us[i]))
  }

  /** Each count of a total is the sum of the single counts. */
  lemma {:induction false} SumIsFieldwise(us: seq<Usage>)
    ensures Sum(us).calls == Total(Numbers(us, (u: Usage) => u.calls))
    ensures Sum(us).promptTokens == Total(Numbers(us, (u: Usage) => u.promptTokens))
    ensures Sum(us).completionTokens == Total(Numbers(us, (u: Usage) => u.completionTokens))
    ensures Sum(us).duration == Total(Numbers(us, (u: Usage) => u.duration))
    ensures Sum(us).cacheHits == Total(Numbers(us, (u: Usage) => u.cacheHits))
  {
    if us != [] {
      var n := |us| - 1;
      SumIsFieldwise(us[..n]);
      NumbersSnoc(us, (u: Usage) => u.calls);
      NumbersSnoc(us, (u: Usage) => u.promptTokens);
      NumbersSnoc(us, (u: Usage) => u.completionTokens);
      NumbersSnoc(us, (u: Usage) => u.duration);
      NumbersSnoc(us, (u: Usage) => u.cacheHits);
    }
  }

  lemma NumbersSnoc(us: seq<Usage>, f: Usage -> int)
    requires us != []
    ensures Total(Numbers(us, f)) == Total(Numbers(us[..|us| - 1], f)) + f(us[|us| - 1])
  {
    assert Numbers(us, f)[..|us| - 1] == Numbers(us[..|us| - 1], f);
  }

  lemma AddSwap(a: Usage, b: Usage, c: Usage)
    ensures Add(a, Add(b, c)) == Add(b, Add(a, c))
  {
  }

  lemma SumOne(u: Usage)
    ensures Sum([u]) == u
  {
    assert [u][..0] == [];
  }

  lemma SumRemove(a: seq<Usage>, x: Usage, b: seq<Usage>)
    ensures Sum(a + [x] + b) == Add(x, Sum(a + b))
  {
    hide Add;
    calc {
      Sum(a + [x] + b);
      { assert a + [x] + b == a + ([x] + b); SumAppend(a, [x] + b); }
      Add(Sum(a), Sum([x] + b));
      { SumAppend([x], b); SumOne(x); }
      Add(Sum(a), Add(x, Sum(b)));
      { AddSwap(Sum(a), x, Sum(b)); }
      Add(x, Add(Sum(a), Sum(b)));
      { SumAppend(a, b); }
      Add(x, Sum(a + b));
    }
  }

  /** Takes one occurrence of x out of a batch. */
  lemma TakeOut(b: seq<Usage>, x: Usage) returns (rest: seq<Usage>)
    requires x in multiset(b)
    ensures multiset(rest) == multiset(b) - multiset{x}
    ensures Sum(b) == Add(x, Sum(rest)) && |rest| == |b| - 1
  {
    hide Add;
    var i :| 0 <= i < |b| && b[i] == x;
    rest := b[..i] + b[i + 1..];
    SumRemove(b[..i], x, b[i + 1..]);
    assert b == b[..i] + [x] + b[i + 1..];
  }

  /** The total of a batch is the same in every order. */
  lemma {:induction false} SumForgetsOrder(a: seq<Usage>, b: seq<Usage>)
    requires multiset(a) == multiset(b)
    ensures Sum(a) == Sum(b)
    decreases |a|
  {
    hide Add;
    assert |a| == |multiset(a)| == |multiset(b)| == |b|;
    if a != [] {
      assert a[0] in multiset(a);
      var a' := TakeOut(a, a[0]);
      var b' := TakeOut(b, a[0]);
      SumForgetsOrder(a', b');
    }
  }

  /** m is the one model that answered; some reports may name none. */
  ghost predicate OneModel(us: seq<Usage>, m: string) {
    && (forall u :: u in us ==> u.model == "" || u.model == m)
    && exists u :: u in us && u.model == m
  }

  /** What the model of a total says: nothing reported, one model everywhere, or a mixture. */
  lemma {:induction false} ModelOfSum(us: seq<Usage>, m: string)
    requires m != "" && m != MIXED
    ensures Sum(us).model == "" <==> forall u :: u in us ==> u.model == ""
    ensures Sum(us).model == m <==> OneModel(us, m)
  {
    if us != [] {
      var n := |us| - 1;
      var front := us[..n];
      ModelOfSum(front, m);
      var total := Sum(front);
      assert Sum(us).model == JoinModel(total.model, us[n].model);
      hide Sum, Add;
      assert us == front + [us[n]];
      forall u ensures u in us <==> u in front || u == us[n] {}
      if OneModel(front, m) && (us[n].model == "" || us[n].model == m) {
        var u :| u in front && u.model == m;
        assert u in us;
      }
      if OneModel(us, m) && !OneModel(front, m) {
        forall u | u in front ensures u.model == "" { assert u in us; }
      }
    }
  }

  // ---- verdicts ----

  /** A status string: one of the four labels, or any other text. */
  datatype Status = NotAffected | Affected | Fixed | UnderInvestigation | OtherStatus(text: string)

  function StatusOf(s: string): (r: Status)
    ensures r.OtherStatus? ==> r.text == s
  {
    if s == "not_affected" then NotAffected
    else if s == "affected" then Affected
    else if s == "fixed" then Fixed
    else if s == "under_investigation" then UnderInvestigation
    else OtherStatus(s)
  }

  function StatusText(s: Status): string {
    match s
    case NotAffected => "not_affected"
    case Affected => "affected"
    case Fixed => "fixed"
    case UnderInvestigation => "under_investigation"
    case OtherStatus(text) => text
  }

  /** A justification string: none, one of the five labels, or any other text. */
  datatype Justification =
    | NoJustification | ComponentNotPresent | CodeNotPresent | NotInExecutePath | NotControllable | MitigationsExist
    | OtherJustification(text: string)

  function JustificationOf(s: string): (r: Justification)
    ensures r.OtherJustification? ==> r.text == s
  {
    if s == "" then NoJustification
    else if s == "component_not_present" then ComponentNotPresent
    else if s == "vulnerable_code_not_present" then CodeNotPresent
    else if s == "vulnerable_code_not_in_execute_path" then NotInExecutePath
    else if s == "vulnerable_code_cannot_be_controlled_by_adversary" then NotControllable
    else if s == "inline_mitigations_already_exist" then MitigationsExist
    else OtherJustification(s)
  }

  /** The two readings agree: a status text is read back as the status it spells. */
  lemma StatusRoundTrip(s: Status, text: string)
    ensures StatusText(StatusOf(text)) == text
    ensures StatusOf(StatusText(s)) == s || (s.OtherStatus? && !StatusOf(s.text).OtherStatus?)
  {
    assert |"not_affected"| == 12 && |"affected"| == 8 && |"fixed"| == 5 && |"under_investigation"| == 19;
  }

  /** Why a statement says what it says: provider text, or a note that the fallback or a guardrail wrote in front of
      it. */
  datatype Reasoning =
    | Text(text: string)
    | AssessmentError(error: string)
    | PrimaryFailed(error: string, fallback: Reasoning)
    | Downgraded(reason: Guard, status: Status, confidence: real, original: Reasoning)
    | Invalid(why: Violation)

  datatype Guard =
    | LowConfidence(confidence: real, minimum: real) | NoStrongEvidence | NotFixedVersion
    | InvalidAssessment(why: Violation)

  datatype Violation =
    | ConfidenceRange | UnknownStatus | MissingJustification | BadJustification | ForbiddenField | MissingAction

  datatype Assessment = Assessment(status: Status, justification: Justification, impact: string, action: string,
                                   confidence: real, reasoning: Reasoning, evidenceRefs: seq<string>,
                                   provider: string, usage: Usage)

  datatype Check = Pass | Fail(why: Violation)

  /** The field rules of one statement. */
  function ValidateFields(status: Status, justification: Justification, impact: string, action: string): Check {
    match status
    case OtherStatus(_) => Fail(UnknownStatus)
    case NotAffected =>
      if justification.NoJustification? && impact == "" then Fail(MissingJustification)
      else if justification.OtherJustification? then Fail(BadJustification)
      else if action != "" then Fail(ForbiddenField)
      else Pass
    case Affected =>
      if !justification.NoJustification? || impact != "" then Fail(ForbiddenField)
      else if action == "" then Fail(MissingAction)
      else Pass
    case _ =>
      if !justification.NoJustification? || impact != "" || action != "" then Fail(ForbiddenField) else Pass
  }

  function Validate(a: Assessment): Check {
    if a.confidence < 0.0 || a.confidence > 1.0 then Fail(ConfidenceRange)
    else ValidateFields(a.status, a.justification, a.impact, a.action)
  }

  function EnumText(s: string): string { Lower(ReplaceChar(TrimSpace(s), '-', '_')) }

  function CleanStatus(s: Status): Status {
    if s.OtherStatus? then StatusOf(EnumText(s.text)) else s
  }

  function CleanJustification(j: Justification): Justification {
    if j.OtherJustification? then JustificationOf(EnumText(j.text)) else j
  }

  const DEFAULT_ACTION := "Upgrade" + " the affected component to a fixed " + "version."

  function TrimReasoning(r: Reasoning): Reasoning {
    match r
    case Text(s) => Text(TrimSpace(s))
    case _ => r
  }

  function CleanText(a: Assessment): Assessment {
    a.(status := CleanStatus(a.status), justification := CleanJustification(a.justification),
       impact := TrimSpace(a.impact), action := TrimSpace(a.action), reasoning := TrimReasoning(a.reasoning))
  }

  function DropForbidden(n: Assessment): Assessment {
    match n.status
    case Affected =>
      n.(justification := NoJustification, impact := "", action := if n.action == "" then DEFAULT_ACTION else n.action)
    case Fixed => n.(justification := NoJustification, impact := "", action := "")
    case UnderInvestigation => n.(justification := NoJustification, impact := "", action := "")
    case NotAffected => n.(action := "")
    case OtherStatus(_) => n
  }

  /** Coerces enum spelling and drops the fields the status forbids. */
  function Normalize(a: Assessment): Assessment {
    DropForbidden(CleanText(a))
  }

  /** The text, trimmed, lower-cased and with underscores for dashes, is the name. */
  ghost predicate Spells(text: string, name: string) {
    var t := TrimSpace(text);
    && |t| == |name|
    && forall i :: 0 <= i < |t| ==>
       name[i] == if t[i] == '-' then '_' else if 'A' <= t[i] <= 'Z' then (t[i] as int + 32) as char else t[i]
  }

  lemma EnumTextSpells(text: string, name: string)
    ensures EnumText(text) == name <==> Spells(text, name)
  {
    hide TrimSpace;
    var t := TrimSpace(text);
    assert |EnumText(text)| == |t|;
    forall i | 0 <= i < |t| ensures EnumText(text)[i] == if t[i] == '-' then '_' else LowerChar(t[i]) {}
  }

  /** The text spells none of the four labels. */
  ghost predicate SpellsNone(text: string) {
    && !Spells(text, "not_affected") && !Spells(text, "affected") && !Spells(text, "fixed")
    && !Spells(text, "under_investigation")
  }

  /** A status stays what it is, and other text becomes the label that it spells. */
  lemma NormalizedStatus(a: Assessment)
    ensures var n := Normalize(a).status;
            && (!a.status.OtherStatus? ==> n == a.status)
            && (a.status.OtherStatus? ==>
                  && (n == NotAffected <==> Spells(a.status.text, "not_affected"))
                  && (n == Affected <==> Spells(a.status.text, "affected"))
                  && (n == Fixed <==> Spells(a.status.text, "fixed"))
                  && (n == UnderInvestigation <==> Spells(a.status.text, "under_investigation"))
                  && (n.OtherStatus? <==> SpellsNone(a.status.text)))
  {
    assert |"not_affected"| == 12 && |"affected"| == 8 && |"fixed"| == 5 && |"under_investigation"| == 19;
    if a.status.OtherStatus? {
      var t := a.status.text;
      EnumTextSpells(t, "not_affected");
      EnumTextSpells(t, "affected");
      EnumTextSpells(t, "fixed");
      EnumTextSpells(t, "under_investigation");
    }
    assert Normalize(a).status == CleanStatus(a.status);
    hide EnumText, Spells, Normalize;
  }

  /** The fields a status forbids are dropped, an affected verdict without an action gets the standing one, and nothing
      else changes but for surrounding space. */
  lemma NormalizedFields(a: Assessment)
    ensures var n := Normalize(a);
            && (n.status in {Fixed, UnderInvestigation} ==>
                  n.justification == NoJustification && n.impact == "" && n.action == "")
            && (n.status == Affected ==>
                  && n.justification == NoJustification && n.impact == ""
                  && n.action == if TrimSpace(a.action) == "" then DEFAULT_ACTION else TrimSpace(a.action))
            && (n.status == NotAffected ==> n.impact == TrimSpace(a.impact) && n.action == "")
            && (n.status.OtherStatus? ==> n.impact == TrimSpace(a.impact) && n.action == TrimSpace(a.action))
            && (n.status == NotAffected && !a.justification.OtherJustification? ==> n.justification == a.justification)
            && n.confidence == a.confidence && n.provider == a.provider && n.evidenceRefs == a.evidenceRefs
            && n.usage == a.usage
            && (if a.reasoning.Text? then n.reasoning == Text(TrimSpace(a.reasoning.text))
                else n.reasoning == a.reasoning)
  {
    hide TrimSpace, EnumText, StatusOf, JustificationOf;
  }

  /** Justification text becomes the label that it spells, and stays other text only if it spells none. */
  lemma NormalizedJustification(a: Assessment)
    requires Normalize(a).status == NotAffected && a.justification.OtherJustification?
    ensures var n, t := Normalize(a).justification, a.justification.text;
            && (n == NoJustification <==> TrimSpace(t) == "")
            && (n == ComponentNotPresent <==> Spells(t, "component_not_present"))
            && (n == CodeNotPresent <==> Spells(t, "vulnerable_code_not_present"))
            && (n == NotInExecutePath <==> Spells(t, "vulnerable_code_not_in_execute_path"))
            && (n == NotControllable <==> Spells(t, "vulnerable_code_cannot_be_controlled_by_adversary"))
            && (n == MitigationsExist <==> Spells(t, "inline_mitigations_already_exist"))
  {
    var t := a.justification.text;
    EnumTextSpells(t, "component_not_present");
    EnumTextSpells(t, "vulnerable_code_not_present");
    EnumTextSpells(t, "vulnerable_code_not_in_execute_path");
    EnumTextSpells(t, "vulnerable_code_cannot_be_controlled_by_adversary");
    EnumTextSpells(t, "inline_mitigations_already_exist");
    assert |EnumText(t)| == |TrimSpace(t)|;
    assert Normalize(a).justification == JustificationOf(EnumText(t));
    hide EnumText, Spells, Normalize, TrimSpace;
    JustificationLabels(EnumText(t));
  }

  lemma JustificationLabels(s: string)
    ensures JustificationOf(s) == NoJustification <==> s == ""
    ensures JustificationOf(s) == ComponentNotPresent <==> s == "component_not_present"
    ensures JustificationOf(s) == CodeNotPresent <==> s == "vulnerable_code_not_present"
    ensures JustificationOf(s) == NotInExecutePath <==> s == "vulnerable_code_not_in_execute_path"
    ensures JustificationOf(s) == NotControllable <==> s == "vulnerable_code_cannot_be_controlled_by_adversary"
    ensures JustificationOf(s) == MitigationsExist <==> s == "inline_mitigations_already_exist"
  {
    assert |"component_not_present"| == 21 && |"vulnerable_code_not_present"| == 27;
    assert |"vulnerable_code_not_in_execute_path"| == 35;
    assert |"vulnerable_code_cannot_be_controlled_by_adversary"| == 49 && |"inline_mitigations_already_exist"| == 32;
  }

  lemma EnumTextIdempotent(s: string)
    ensures EnumText(EnumText(s)) == EnumText(s)
  {
    var t := TrimSpace(s);
    var r := EnumText(s);
    assert forall i :: 0 <= i < |t| ==> (IsSpace(r[i]) <==> IsSpace(t[i]));
    if r != "" {
      assert TrimLeft(r) == r && TrimRight(r) == r;
    }
    assert EnumText(r) == r;
  }

  lemma EnumsCleanIdempotent(s: Status, j: Justification)
    ensures CleanStatus(CleanStatus(s)) == CleanStatus(s)
    ensures CleanJustification(CleanJustification(j)) == CleanJustification(j)
  {
    hide StatusOf, JustificationOf, EnumText;
    if s.OtherStatus? {
      EnumTextIdempotent(s.text);
    }
    if j.OtherJustification? {
      EnumTextIdempotent(j.text);
    }
  }

  lemma TrimReasoningIdempotent(r: Reasoning)
    ensures TrimReasoning(TrimReasoning(r)) == TrimReasoning(r)
  {
    if r.Text? { TrimIdempotent(r.text); }
  }

  lemma CleanTextIdempotent(a: Assessment)
    ensures CleanText(CleanText(a)) == CleanText(a)
  {
    hide CleanStatus, CleanJustification, TrimReasoning, TrimSpace;
    EnumsCleanIdempotent(a.status, a.justification);
    TrimReasoningIdempotent(a.reasoning);
    TrimIdempotent(a.impact);
    TrimIdempotent(a.action);
  }

  lemma DefaultActionIsTrimmed()
    ensures TrimSpace(DEFAULT_ACTION) == DEFAULT_ACTION && DEFAULT_ACTION != ""
  {
    var first, last := "Upgrade", "version.";
    assert first[0] == 'U' && last[7] == '.';
    assert DEFAULT_ACTION == first + " the affected component to a fixed " + last;
    TrimmedAlready(DEFAULT_ACTION);
  }

  /** Normalising twice changes nothing more. */
  lemma NormalizeIdempotent(a: Assessment)
    ensures Normalize(Normalize(a)) == Normalize(a)
  {
    CleanTextIdempotent(a);
    DefaultActionIsTrimmed();
    assert TrimSpace("") == "";
    var n := CleanText(a);
    assert CleanText(DropForbidden(n)) == DropForbidden(n);
  }

  /** A normalised verdict is valid exactly when its confidence is in range, its status is known, and a not_affected
      one carries a known justification, or none and an impact statement: no other status can fail. */
  lemma NormalizedValidity(a: Assessment)
    ensures var n := Normalize(a);
            Validate(n) == Pass <==>
            && 0.0 <= n.confidence <= 1.0 && !n.status.OtherStatus?
            && (n.status.NotAffected? ==>
                  !n.justification.OtherJustification? && (n.justification.NoJustification? ==> n.impact != ""))
  {
    DefaultActionIsTrimmed();
  }

  /** Normalising never takes anything from an assessment that is valid and trimmed already. */
  lemma NormalizeKeepsValid(a: Assessment)
    requires Validate(a) == Pass
    requires TrimSpace(a.impact) == a.impact && TrimSpace(a.action) == a.action &&
             TrimReasoning(a.reasoning) == a.reasoning
    ensures Normalize(a) == a
  {
    hide TrimSpace, TrimReasoning, EnumText;
    assert CleanText(a) == a;
  }

  function WithoutUsage(a: Assessment): Assessment { a.(usage := NO_USAGE) }
}
