/** The rules-only provider. The fixed sentences of its verdicts are shortened. */
module Heuristics {
  import opened Options
  import opened Text
  import opened Sources
  import opened Evidence
  import opened Assessments

  const NAME := "heuristic"

  /** The rules, strongest evidence first. */
  datatype Rule =
    | FixedVersion | CallPath | NoCallPath | DevelopmentOnly | SymbolsUnused | NotImportedBySoleConsumer
    | TransitiveNotImported | SymbolsNotNamed | DeclaredDevNotImported | DeclaredDev | Imported | NotImportedDirectly
    | Nothing

  function ActionFor(f: Finding): string {
    var name := if f.packageName == "" then f.purl else f.packageName;
    var fixedVersion := TrimSpace(f.fixedVersion);
    if fixedVersion != "" then "Upgrade " + (name + " to " + fixedVersion + " or later.")
    else "Upgrade " + (name + " to a version that fixes " + f.vulnID + ".")
  }

  /** First match wins. */
  function RuleFor(r: Report): Rule {
    if r.Has(VersionFixed) then FixedVersion
    else if r.Has(Reachable) then CallPath
    else if r.HasStrong(NotReachable) then NoCallPath
    else if r.HasStrong(DevDependency) then DevelopmentOnly
    else if r.HasStrong(SymbolNotReferenced) then SymbolsUnused
    else if r.HasStrong(ImportNotFound) then NotImportedBySoleConsumer
    else if r.Has(ImportNotFound) && r.Has(Transitive) then TransitiveNotImported
    else if r.Has(SymbolNotReferenced) then SymbolsNotNamed
    else if r.Has(DevDependency) && r.Has(ImportNotFound) then DeclaredDevNotImported
    else if r.Has(DevDependency) then DeclaredDev
    else if r.Has(PackageImported) then Imported
    else if r.Has(ImportNotFound) then NotImportedDirectly
    else Nothing
  }

  function StatusOfRule(rule: Rule): Status {
    match rule
    case FixedVersion => Fixed
    case CallPath => Affected
    case NoCallPath => NotAffected
    case DevelopmentOnly => NotAffected
    case SymbolsUnused => NotAffected
    case NotImportedBySoleConsumer => NotAffected
    case _ => UnderInvestigation
  }

  function JustificationOfRule(rule: Rule): Justification {
    match rule
    case NoCallPath => NotInExecutePath
    case DevelopmentOnly => CodeNotPresent
    case SymbolsUnused => NotInExecutePath
    case NotImportedBySoleConsumer => NotInExecutePath
    case _ => NoJustification
  }

  function ConfidenceOfRule(rule: Rule): real {
    match rule
    case FixedVersion => 0.95
    case CallPath => 0.9
    case NoCallPath => 0.85
    case DevelopmentOnly => 0.8
    case SymbolsUnused => 0.75
    case NotImportedBySoleConsumer => 0.7
    case TransitiveNotImported => 0.5
    case SymbolsNotNamed => 0.55
    case DeclaredDevNotImported => 0.6
    case DeclaredDev => 0.5
    case Imported => 0.45
    case NotImportedDirectly => 0.5
    case Nothing => 0.3
  }

  function ImpactOfRule(rule: Rule): string {
    match rule
    case NoCallPath => "no vulnerable symbol is reachable"
    case DevelopmentOnly => "outside the runtime closure"
    case SymbolsUnused => "sole consumer does not reference it"
    case NotImportedBySoleConsumer => "sole consumer does not import it"
    case _ => ""
  }

  function ReasonOfRule(rule: Rule): string {
    match rule
    case FixedVersion => "installed version is fixed"
    case CallPath => "call path found"
    case NoCallPath => "no path to the code"
    case DevelopmentOnly => "development only"
    case SymbolsUnused => "no reference found"
    case NotImportedBySoleConsumer => "no import found"
    case TransitiveNotImported => "transitive and not imported"
    case SymbolsNotNamed => "imported, symbols not named"
    case DeclaredDevNotImported => "declared for development, not imported"
    case DeclaredDev => "declared for development"
    case Imported => "package imported"
    case NotImportedDirectly => "not imported"
    case Nothing => "insufficient evidence"
  }

  function RefsOfRule(rule: Rule): seq<Kind> {
    match rule
    case FixedVersion => [VersionFixed]
    case CallPath => [Reachable]
    case NoCallPath => [NotReachable]
    case DevelopmentOnly => [DevDependency]
    case SymbolsUnused => [SymbolNotReferenced, DependencyPath]
    case NotImportedBySoleConsumer => [ImportNotFound, DependencyPath]
    case TransitiveNotImported => [ImportNotFound, Transitive]
    case SymbolsNotNamed => [SymbolNotReferenced]
    case DeclaredDevNotImported => [DevDependency, ImportNotFound]
    case DeclaredDev => [DevDependency]
    case Imported => [PackageImported]
    case NotImportedDirectly => [ImportNotFound]
    case Nothing => []
  }

  function VerdictOf(rule: Rule, f: Finding): Assessment {
    var refs := RefsOfRule(rule);
    Assessment(StatusOfRule(rule), JustificationOfRule(rule), ImpactOfRule(rule),
               if rule.CallPath? then ActionFor(f) else "",
               ConfidenceOfRule(rule), Text(ReasonOfRule(rule)),
               seq(|refs|, i requires 0 <= i < |refs| => KindName(refs[i])), NAME, NO_USAGE)
  }

  function Assess(r: Report): Assessment { VerdictOf(RuleFor(r), r.finding) }

  /** When the rules close a finding, the evidence they rest on is in the report. */
  lemma ClosedVerdictHasEvidence(r: Report)
    ensures Assess(r).status.Fixed? <==> r.Has(VersionFixed)
    ensures Assess(r).status.Affected? <==> !r.Has(VersionFixed) && r.Has(Reachable)
    ensures Assess(r).status.NotAffected? <==>
            && !r.Has(VersionFixed) && !r.Has(Reachable)
            && (r.HasStrong(NotReachable) || r.HasStrong(DevDependency) || r.HasStrong(SymbolNotReferenced) ||
                r.HasStrong(ImportNotFound))
    ensures Assess(r).status.NotAffected? || Assess(r).status.Fixed? ==> Assess(r).confidence >= 0.7
  {
    hide Report.Has, Report.HasStrong;
    hide ImpactOfRule, ReasonOfRule, RefsOfRule, ActionFor, KindName;
  }

  /** Some item is of the kind, and some such item is strong. */
  ghost predicate Shows(r: Report, k: Kind) { exists it :: it in r.items && it.kind == k }

  ghost predicate ShowsStrong(r: Report, k: Kind) { exists it :: it in r.items && it.kind == k && it.strong }

  lemma ShowsIs(r: Report)
    ensures forall k :: (r.Has(k) <==> Shows(r, k)) && (r.HasStrong(k) <==> ShowsStrong(r, k))
    ensures forall k :: ShowsStrong(r, k) ==> Shows(r, k)
  {
  }

  /** Which justification a closed finding gets, by the evidence that closes it: that the code is absent only for a
      development dependency, and that it is never executed otherwise. */
  lemma JustificationExactly(r: Report)
    ensures Assess(r).justification == CodeNotPresent <==>
            && !Shows(r, VersionFixed) && !Shows(r, Reachable) && !ShowsStrong(r, NotReachable)
            && ShowsStrong(r, DevDependency)
    ensures Assess(r).justification == NotInExecutePath <==>
            && !Shows(r, VersionFixed) && !Shows(r, Reachable)
            && (ShowsStrong(r, NotReachable) ||
                (!ShowsStrong(r, DevDependency) &&
                 (ShowsStrong(r, SymbolNotReferenced) || ShowsStrong(r, ImportNotFound))))
    ensures Assess(r).justification in {NoJustification, CodeNotPresent, NotInExecutePath}
  {
    hide Report.Has, Report.HasStrong, Shows, ShowsStrong;
    hide ImpactOfRule, ReasonOfRule, RefsOfRule, ActionFor, KindName;
    ShowsIs(r);
  }

  /** How sure the rules are, by the evidence alone. */
  lemma ConfidenceExactly(r: Report)
    ensures Assess(r).confidence ==
            if Shows(r, VersionFixed) then 0.95 else if Shows(r, Reachable) then 0.9
            else if ShowsStrong(r, NotReachable) then 0.85 else if ShowsStrong(r, DevDependency) then 0.8
            else if ShowsStrong(r, SymbolNotReferenced) then 0.75 else if ShowsStrong(r, ImportNotFound) then 0.7
            else if Shows(r, ImportNotFound) && Shows(r, Transitive) then 0.5
            else if Shows(r, SymbolNotReferenced) then 0.55
            else if Shows(r, DevDependency) then if Shows(r, ImportNotFound) then 0.6 else 0.5
            else if Shows(r, PackageImported) then 0.45 else if Shows(r, ImportNotFound) then 0.5 else 0.3
  {
    hide Report.Has, Report.HasStrong, Shows, ShowsStrong;
    hide ImpactOfRule, ReasonOfRule, RefsOfRule, ActionFor, KindName;
    ShowsIs(r);
  }

  lemma RefsAreShown(r: Report)
    ensures var refs := RefsOfRule(RuleFor(r));
            && (forall k :: k in refs ==> Shows(r, k) || k == DependencyPath)
            && (refs == [] <==> NothingToCite(r))
  {
    hide Shows, ShowsStrong, Report.Has, Report.HasStrong;
    ShowsIs(r);
    RefsOf(RuleFor(r));
    hide RefsOfRule;
  }

  lemma RefsOf(rule: Rule)
    ensures RefsOfRule(rule) == [] <==> rule.Nothing?
    ensures forall k :: k in RefsOfRule(rule) ==>
              || k == DependencyPath || (rule.FixedVersion? && k == VersionFixed) || (rule.CallPath? && k == Reachable)
              || (rule.NoCallPath? && k == NotReachable)
              || (k == DevDependency && (rule.DevelopmentOnly? || rule.DeclaredDevNotImported? || rule.DeclaredDev?))
              || (k == SymbolNotReferenced && (rule.SymbolsUnused? || rule.SymbolsNotNamed?))
              || (k == ImportNotFound && (rule.NotImportedBySoleConsumer? || rule.TransitiveNotImported? ||
                                          rule.DeclaredDevNotImported? || rule.NotImportedDirectly?))
              || (k == Transitive && rule.TransitiveNotImported?) || (k == PackageImported && rule.Imported?)
  {
  }

  /** No kind of evidence that some rule goes by. */
  ghost predicate NothingToCite(r: Report) {
    && !Shows(r, VersionFixed) && !Shows(r, Reachable) && !ShowsStrong(r, NotReachable) && !Shows(r, DevDependency)
    && !Shows(r, SymbolNotReferenced) && !Shows(r, ImportNotFound) && !Shows(r, PackageImported)
  }

  /** What a verdict refers to, by the evidence alone. */
  lemma CitesExactly(r: Report)
    ensures Assess(r).evidenceRefs ==
            if Shows(r, VersionFixed) then ["version_fixed"] else if Shows(r, Reachable) then ["govulncheck_reachable"]
            else if ShowsStrong(r, NotReachable) then ["govulncheck_not_reachable"]
            else if ShowsStrong(r, DevDependency) then ["dev_dependency"]
            else if ShowsStrong(r, SymbolNotReferenced) then ["symbol_not_referenced", "dependency_path"]
            else if ShowsStrong(r, ImportNotFound) then ["import_not_found", "dependency_path"]
            else if Shows(r, ImportNotFound) && Shows(r, Transitive) then ["import_not_found", "transitive_dependency"]
            else if Shows(r, SymbolNotReferenced) then ["symbol_not_referenced"]
            else if Shows(r, DevDependency) then
              if Shows(r, ImportNotFound) then ["dev_dependency", "import_not_found"] else ["dev_dependency"]
            else if Shows(r, PackageImported) then ["package_imported"]
            else if Shows(r, ImportNotFound) then ["import_not_found"] else []
  {
    RuleCites(RuleFor(r), r.finding);
    hide Report.Has, Report.HasStrong, Shows, ShowsStrong, VerdictOf;
    ShowsIs(r);
  }

  lemma RuleCites(rule: Rule, f: Finding)
    ensures VerdictOf(rule, f).evidenceRefs ==
            match rule
            case FixedVersion => ["version_fixed"]
            case CallPath => ["govulncheck_reachable"]
            case NoCallPath => ["govulncheck_not_reachable"]
            case DevelopmentOnly => ["dev_dependency"]
            case SymbolsUnused => ["symbol_not_referenced", "dependency_path"]
            case NotImportedBySoleConsumer => ["import_not_found", "dependency_path"]
            case TransitiveNotImported => ["import_not_found", "transitive_dependency"]
            case SymbolsNotNamed => ["symbol_not_referenced"]
            case DeclaredDevNotImported => ["dev_dependency", "import_not_found"]
            case DeclaredDev => ["dev_dependency"]
            case Imported => ["package_imported"]
            case NotImportedDirectly => ["import_not_found"]
            case Nothing => []
  {
    hide ImpactOfRule, ReasonOfRule, ActionFor, JustificationOfRule, StatusOfRule, ConfidenceOfRule;
    var refs := RefsOfRule(rule);
    assert |refs| <= 2;
    assert VerdictOf(rule, f).evidenceRefs ==
           if |refs| == 0 then [] else if |refs| == 1 then [KindName(refs[0])]
           else [KindName(refs[0]), KindName(refs[1])];
  }

  /** Closing evidence is cited, and nothing that is not in the report, but for the dependency path of a sole
      consumer. */
  lemma CitesItsEvidence(r: Report)
    ensures forall x :: x in Assess(r).evidenceRefs ==>
              exists k :: x == KindName(k) && (Shows(r, k) || k == DependencyPath)
    ensures Assess(r).evidenceRefs == [] <==> NothingToCite(r)
    ensures Assess(r).provider == "heuristic" && Assess(r).usage == NO_USAGE
  {
    RefsAreShown(r);
    var refs := RefsOfRule(RuleFor(r));
    hide Shows, ImpactOfRule, ReasonOfRule, ActionFor, KindName, Report.Has, Report.HasStrong, RuleFor;
    hide JustificationOfRule, ConfidenceOfRule, RefsOfRule;
    forall x | x in Assess(r).evidenceRefs
      ensures exists k :: x == KindName(k) && (Shows(r, k) || k == DependencyPath)
    {
      var i :| 0 <= i < |refs| && KindName(refs[i]) == x;
      assert refs[i] in refs;
    }
  }

  /** A reachable finding is told to upgrade: to the fixed version if there is one, named by its package or else its
      package url. */
  lemma ActionExactly(r: Report)
    ensures var f := r.finding;
            var name := if f.packageName == "" then f.purl else f.packageName;
            Assess(r).action ==
            if Shows(r, VersionFixed) || !Shows(r, Reachable) then ""
            else if TrimSpace(f.fixedVersion) != "" then
              "Upgrade " + (name + " to " + TrimSpace(f.fixedVersion) + " or later.")
            else "Upgrade " + (name + " to a version that fixes " + f.vulnID + ".")
  {
    hide Report.Has, Report.HasStrong, Shows, ImpactOfRule, ReasonOfRule, RefsOfRule, KindName, TrimSpace;
    ShowsIs(r);
  }

  lemma ActionIsText(f: Finding)
    ensures ActionFor(f) != ""
  {
    hide TrimSpace;
  }

  lemma ImpactBelongs(rule: Rule)
    ensures ImpactOfRule(rule) != "" <==> StatusOfRule(rule).NotAffected?
  {
  }

  /** Every rule gives a verdict that satisfies the field rules, with a justification where the status asks for one. */
  lemma VerdictIsWellFormed(rule: Rule, f: Finding)
    ensures var a := VerdictOf(rule, f);
            && Validate(a) == Pass && !a.status.OtherStatus? && !a.justification.OtherJustification?
            && (a.status.NotAffected? <==> !a.justification.NoJustification?)
  {
    ActionIsText(f);
    ImpactBelongs(rule);
    hide ImpactOfRule, ReasonOfRule, RefsOfRule, ActionFor, KindName;
  }

  lemma RuleReadsKindsOnly(a: Report, b: Report)
    requires forall k :: (a.Has(k) <==> b.Has(k)) && (a.HasStrong(k) <==> b.HasStrong(k))
    ensures RuleFor(a) == RuleFor(b)
  {
    hide Report.Has, Report.HasStrong;
  }

  /** The rules read the report only through which kinds it has, and which of them are strong;
      the action text alone also reads the finding. */
  lemma VerdictReadsKindsOnly(a: Report, b: Report)
    requires forall it :: it in a.items <==> it in b.items
    ensures Assess(a).(action := "") == Assess(b).(action := "")
  {
    hide RuleFor, ActionFor, KindName, ImpactOfRule, ReasonOfRule;
    forall k ensures (a.Has(k) <==> b.Has(k)) && (a.HasStrong(k) <==> b.HasStrong(k)) {}
    RuleReadsKindsOnly(a, b);
  }

  /** The weakest evidence that closes a finding. */
  lemma WeakestClosingRule(f: Finding, r: Report)
    requires r == Report(f, None, [Item(ImportNotFound, true)])
    ensures Assess(r).status.NotAffected? && Assess(r).confidence == 0.7
  {
    hide ActionFor, KindName, ImpactOfRule, ReasonOfRule, RefsOfRule;
    assert r.items[0] == Item(ImportNotFound, true);
    assert r.HasStrong(ImportNotFound);
    assert forall it :: it in r.items ==> it.kind == ImportNotFound;
  }

  // ---- the rules as the comment lists them ----

  /** The comment's nine rules: it asks the eighth for a direct dependency and lets the ninth stand for all the rest. */
  function DocumentedRule(r: Report): Rule {
    if r.Has(VersionFixed) then FixedVersion
    else if r.Has(Reachable) then CallPath
    else if r.HasStrong(NotReachable) then NoCallPath
    else if r.HasStrong(DevDependency) then DevelopmentOnly
    else if r.HasStrong(SymbolNotReferenced) then SymbolsUnused
    else if r.HasStrong(ImportNotFound) then NotImportedBySoleConsumer
    else if r.Has(ImportNotFound) && r.Has(Transitive) then TransitiveNotImported
    else if r.Has(SymbolNotReferenced) && r.Has(DirectDependency) then SymbolsNotNamed
    else Nothing
  }

  /** None of the first seven rules applies. */
  predicate Open(r: Report) {
    && !r.Has(VersionFixed) && !r.Has(Reachable) && !r.HasStrong(NotReachable) && !r.HasStrong(DevDependency)
    && !r.HasStrong(SymbolNotReferenced) && !r.HasStrong(ImportNotFound) &&
       !(r.Has(ImportNotFound) && r.Has(Transitive))
  }

  /** Comment and code never disagree on the status. They disagree on the confidence exactly when none of the first
      seven rules applies and there is a symbol search without a direct dependency, or no symbol search but a
      development, import or missing-import item. */
  lemma CommentDiffersExactly(r: Report)
    ensures StatusOfRule(DocumentedRule(r)) == StatusOfRule(RuleFor(r))
    ensures ConfidenceOfRule(DocumentedRule(r)) != ConfidenceOfRule(RuleFor(r)) <==>
            && Open(r)
            && if r.Has(SymbolNotReferenced) then !r.Has(DirectDependency)
               else r.Has(DevDependency) || r.Has(PackageImported) || r.Has(ImportNotFound)
  {
    hide Report.Has, Report.HasStrong;
  }

  /** The plainest such report: the package is imported, and nothing else is known. */
  lemma CommentMissesImported(f: Finding)
    ensures var r := Report(f, None, [Item(PackageImported, false)]);
            ConfidenceOfRule(RuleFor(r)) == 0.45 && ConfidenceOfRule(DocumentedRule(r)) == 0.3
  {
    var r := Report(f, None, [Item(PackageImported, false)]);
    assert r.items[0] == Item(PackageImported, false);
    assert r.Has(PackageImported);
    assert forall it :: it in r.items ==> it.kind == PackageImported && !it.strong;
  }
}
