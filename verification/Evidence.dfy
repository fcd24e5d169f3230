/** Evidence items and reports. Summaries and details of an item are free text and are not modelled. */
module Evidence {
  import opened Options
  import opened Sorting
  import opened Sources

  datatype Kind =
    | VersionFixed | VersionVulnerable | DirectDependency | Transitive
    | Reachable | NotReachable | NotImported
    | SymbolReferenced | SymbolNotReferenced | ImportNotFound
    | OSVDetails | RepoUnavailable | NoReachabilityTool
    | DevDependency | PackageImported | ManifestNotFound | DependencyPath

  function KindName(k: Kind): string {
    match k
    case VersionFixed => "version_fixed"
    case VersionVulnerable => "version_vulnerable"
    case DirectDependency => "direct_dependency"
    case Transitive => "transitive_dependency"
    case Reachable => "govulncheck_reachable"
    case NotReachable => "govulncheck_not_reachable"
    case NotImported => "govulncheck_not_imported"
    case SymbolReferenced => "symbol_referenced"
    case SymbolNotReferenced => "symbol_not_referenced"
    case ImportNotFound => "import_not_found"
    case OSVDetails => "osv_details"
    case RepoUnavailable => "repo_unavailable"
    case NoReachabilityTool => "no_reachability_analysis"
    case DevDependency => "dev_dependency"
    case PackageImported => "package_imported"
    case ManifestNotFound => "manifest_not_found"
    case DependencyPath => "dependency_path"
  }

  datatype Item = Item(kind: Kind, strong: bool)

  datatype Osv = Osv(id: string, aliases: seq<string>, modified: string)

  datatype Report = Report(finding: Finding, osv: Option<Osv>, items: seq<Item>) {
    predicate Has(k: Kind) {
      exists it :: it in items && it.kind == k
    }

    predicate HasStrong(k: Kind) {
      exists it :: it in items && it.kind == k && it.strong
    }

    function StrongItems(): seq<Item> {
      Select((it: Item) => it.strong, items)
    }
  }

  lemma {:induction false} SelectHolds<T(!new)>(p: T -> bool, s: seq<T>)
    ensures forall x :: x in Select(p, s) <==> x in s && p(x)
  {
    if s != [] {
      SelectHolds(p, s[1..]);
      assert s == [s[0]] + s[1..];
    }
  }

  lemma StrongItemsEmpty(r: Report)
    ensures r.StrongItems() == [] <==> forall it :: it in r.items ==> !it.strong
  {
    SelectHolds((it: Item) => it.strong, r.items);
    if it :| it in r.items && it.strong {
      assert it in r.StrongItems();
    }
    if r.StrongItems() != [] {
      assert r.StrongItems()[0] in r.StrongItems();
    }
  }
}
