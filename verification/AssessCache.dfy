/** The cache key of one assessment question and the store of verdicts. */
module AssessCache {
  import opened Options
  import opened Text
  import opened Sorting
  import opened Evidence
  import opened Assessments
  import Heuristics

  const VERSION := "v2"

  datatype CacheKey = CacheKey(provider: string, commit: string, repo: string, vulnID: string, purl: string,
                               evidence: string, version: string)

  // ---- the fingerprint ----

  function ItemLine(it: Item): string {
    KindName(it.kind) + if it.strong then ":true" else ":false"
  }

  function ItemLines(items: seq<Item>): seq<string> {
    if items == [] then [] else ItemLines(items[..|items| - 1]) + [ItemLine(items[|items| - 1])]
  }

  function JoinLines(lines: seq<string>): string {
    if lines == [] then "" else if |lines| == 1 then lines[0] else lines[0] + "\n" + JoinLines(lines[1..])
  }

  const VERSION_LABEL := "version="

  function Trailer(r: Report): (t: seq<string>)
    ensures |t| >= 2
  {
    [VERSION_LABEL + r.finding.packageVersion, "fixed=" + r.finding.fixedVersion] +
    if r.osv.Some? then ["osv_modified=" + r.osv.value.modified] else []
  }

  /** The text whose digest is the fingerprint. */
  function Preimage(r: Report): string {
    JoinLines(SortStrings(ItemLines(r.items)) + Trailer(r))
  }

  method CollectParts(r: Report) returns (parts: seq<string>)
    ensures JoinLines(parts) == Preimage(r)
  {
    parts := [];
    for i := 0 to |r.items|
      invariant parts == ItemLines(r.items[..i])
    {
      assert r.items[..i + 1][..i] == r.items[..i];
      parts := parts + [ItemLine(r.items[i])];
    }
    assert r.items[..|r.items|] == r.items;
    parts := SortStrings(parts);
    parts := parts + [VERSION_LABEL + r.finding.packageVersion, "fixed=" + r.finding.fixedVersion];
    ghost var sorted := SortStrings(ItemLines(r.items));
    if r.osv.Some? {
      parts := parts + ["osv_modified=" + r.osv.value.modified];
    }
    assert parts == sorted + Trailer(r);
  }

  function KeyFor(digest: string -> string, provider: string, commit: string, repo: string, r: Report): CacheKey {
    CacheKey(provider, commit, if commit == "" then repo else "", r.finding.vulnID, r.finding.purl, digest(Preimage(r)),
             VERSION)
  }

  // ---- item lines are told apart ----

  function NameLength(k: Kind): nat {
    match k
    case VersionFixed => 13 case VersionVulnerable => 18 case DirectDependency => 17 case Transitive => 21
    case Reachable => 21 case NotReachable => 25 case NotImported => 24
    case SymbolReferenced => 17 case SymbolNotReferenced => 21 case ImportNotFound => 16
    case OSVDetails => 11 case RepoUnavailable => 16 case NoReachabilityTool => 24
    case DevDependency => 14 case PackageImported => 16 case ManifestNotFound => 18 case DependencyPath => 15
  }

  function FirstLetter(k: Kind): char {
    match k
    case VersionFixed => 'v' case VersionVulnerable => 'v' case DirectDependency => 'd' case Transitive => 't'
    case Reachable => 'g' case NotReachable => 'g' case NotImported => 'g'
    case SymbolReferenced => 's' case SymbolNotReferenced => 's' case ImportNotFound => 'i'
    case OSVDetails => 'o' case RepoUnavailable => 'r' case NoReachabilityTool => 'n'
    case DevDependency => 'd' case PackageImported => 'p' case ManifestNotFound => 'm' case DependencyPath => 'd'
  }

  lemma KindNameShape(k: Kind)
    ensures |KindName(k)| == NameLength(k) && KindName(k)[0] == FirstLetter(k)
  {
  }

  lemma KindNameFirst(k: Kind)
    ensures FirstLetter(k) == 'v' ==> |KindName(k)| > 7 && KindName(k)[7] == '_'
  {
  }

  lemma ShortNameIsOneLine(k: Kind)
    ensures NameLength(k) <= 17 ==> '\n' !in KindName(k)
  {
  }

  lemma MiddleNameIsOneLine(k: Kind)
    ensures 18 <= NameLength(k) <= 21 ==> '\n' !in KindName(k)
  {
  }

  lemma LongNameIsOneLine(k: Kind)
    ensures NameLength(k) >= 22 ==> '\n' !in KindName(k)
  {
  }

  lemma KindNamePlain(k: Kind)
    ensures '\n' !in KindName(k)
    ensures |KindName(k)| > 0 && (KindName(k)[0] == 'v' ==> |KindName(k)| > 7 && KindName(k)[7] == '_')
  {
    hide KindName;
    KindNameShape(k);
    KindNameFirst(k);
    ShortNameIsOneLine(k);
    MiddleNameIsOneLine(k);
    LongNameIsOneLine(k);
  }

  lemma LengthAndLetterTellKinds(a: Kind, b: Kind)
    requires NameLength(a) == NameLength(b) && FirstLetter(a) == FirstLetter(b)
    ensures a == b
  {
  }

  lemma LineTellsItem(a: Item, b: Item)
    requires ItemLine(a) == ItemLine(b)
    ensures a == b
  {
    hide KindName;
    var l := ItemLine(a);
    KindNameShape(a.kind);
    KindNameShape(b.kind);
    var t, f := ":true", ":false";
    assert t[0] == ':' && f[1] == 'f' && |t| == 5 && |f| == 6;
    assert a.strong ==> l[|l| - 5] == t[0];
    assert !a.strong ==> l[|l| - 5] == f[1];
    assert b.strong ==> l[|l| - 5] == t[0];
    assert !b.strong ==> l[|l| - 5] == f[1];
    assert l[0] == FirstLetter(a.kind) && l[0] == FirstLetter(b.kind);
    LengthAndLetterTellKinds(a.kind, b.kind);
  }

  lemma {:induction false} LinesHold(items: seq<Item>)
    ensures |ItemLines(items)| == |items|
    ensures forall it :: it in items <==> ItemLine(it) in ItemLines(items)
    ensures forall l :: l in ItemLines(items) ==> exists it :: it in items && ItemLine(it) == l
  {
    hide ItemLine;
    if items != [] {
      var n := |items| - 1;
      LinesHold(items[..n]);
      assert items == items[..n] + [items[n]];
      assert items[n] in items;
      forall it ensures it in items <==> ItemLine(it) in ItemLines(items) {
        if ItemLine(it) == ItemLine(items[n]) { LineTellsItem(it, items[n]); }
      }
      forall l | l in ItemLines(items) ensures exists it :: it in items && ItemLine(it) == l {
        if l in ItemLines(items[..n]) {
          var it :| it in items[..n] && ItemLine(it) == l;
          assert it in items;
        }
      }
    }
  }

  // ---- the lines are recovered from the text ----

  ghost predicate Plain(line: string) {
    '\n' !in line && !Labelled(line)
  }

  predicate Labelled(line: string) {
    |line| >= 8 && line[..8] == VERSION_LABEL
  }

  lemma ItemLineIsPlain(it: Item)
    ensures Plain(ItemLine(it))
  {
    KindNamePlain(it.kind);
    KindNameShape(it.kind);
    hide KindName;
    var l, v := ItemLine(it), VERSION_LABEL;
    assert v[0] == 'v' && v[7] == '=' && |v| == 8;
    assert l[0] == KindName(it.kind)[0] && l[7] == KindName(it.kind)[7];
    assert l[..8][0] == l[0] && l[..8][7] == l[7];
  }

  lemma JoinFirst(l: string, rest: seq<string>)
    requires rest != []
    ensures JoinLines([l] + rest) == l + "\n" + JoinLines(rest)
  {
    assert ([l] + rest)[1..] == rest;
  }

  /** A text that starts with the version label does not start with a plain line and a newline. */
  lemma LabelIsNoPlainLine(line: string, x: string, version: string, y: string)
    requires Plain(line) && '\n' !in VERSION_LABEL
    ensures line + "\n" + x != VERSION_LABEL + version + "\n" + y
  {
    var s, t := line + "\n" + x, VERSION_LABEL + version + "\n" + y;
    assert t[..8] == VERSION_LABEL;
    if |line| >= 8 {
      assert s[..8] == line[..8];
    } else {
      assert s[|line|] == '\n' && t[|line|] == VERSION_LABEL[|line|];
    }
  }

  /** Reading a fingerprinted text back: the plain lines before the version line are the ones written. */
  lemma {:induction false} LinesRecovered(a: seq<string>, b: seq<string>, v: string, w: string, s: seq<string>,
                                          t: seq<string>)
    requires (forall l :: l in a ==> Plain(l)) && (forall l :: l in b ==> Plain(l)) && s != [] && t != []
    requires JoinLines(a + ([VERSION_LABEL + v] + s)) == JoinLines(b + ([VERSION_LABEL + w] + t))
    ensures a == b
    decreases |a| + |b|
  {
    hide JoinLines, Plain;
    var p, q := [VERSION_LABEL + v] + s, [VERSION_LABEL + w] + t;
    assert '\n' !in VERSION_LABEL;
    if a == [] && b == [] {
    } else if a == [] {
      assert a + p == p && b + q == [b[0]] + (b[1..] + q);
      JoinFirst(VERSION_LABEL + v, s);
      JoinFirst(b[0], b[1..] + q);
      LabelIsNoPlainLine(b[0], JoinLines(b[1..] + q), v, JoinLines(s));
      assert false;
    } else if b == [] {
      assert b + q == q && a + p == [a[0]] + (a[1..] + p);
      JoinFirst(VERSION_LABEL + w, t);
      JoinFirst(a[0], a[1..] + p);
      LabelIsNoPlainLine(a[0], JoinLines(a[1..] + p), w, JoinLines(t));
      assert false;
    } else {
      assert a + p == [a[0]] + (a[1..] + p) && b + q == [b[0]] + (b[1..] + q);
      JoinFirst(a[0], a[1..] + p);
      JoinFirst(b[0], b[1..] + q);
      PlainHasNoNewline(a[0]);
      PlainHasNoNewline(b[0]);
      SplitFirst(a[0], JoinLines(a[1..] + p), b[0], JoinLines(b[1..] + q), '\n');
      LinesRecovered(a[1..], b[1..], v, w, s, t);
      assert a == [a[0]] + a[1..] && b == [b[0]] + b[1..];
    }
  }

  lemma PlainHasNoNewline(l: string)
    requires Plain(l)
    ensures '\n' !in l
  {
  }

  lemma SortedLinesHold(items: seq<Item>)
    ensures forall it :: it in items <==> ItemLine(it) in SortStrings(ItemLines(items))
    ensures forall l :: l in SortStrings(ItemLines(items)) ==> Plain(l)
  {
    hide Plain, ItemLine, SortStrings;
    var lines := ItemLines(items);
    LinesHold(items);
    forall l ensures l in SortStrings(lines) <==> l in lines {
      assert l in multiset(SortStrings(lines)) <==> l in multiset(lines);
    }
    forall l | l in SortStrings(lines) ensures Plain(l) {
      var it :| it in items && ItemLine(it) == l;
      ItemLineIsPlain(it);
    }
  }

  /** Equal fingerprint texts come from the same evidence items, whatever the version strings hold. */
  lemma PreimageTellsItems(a: Report, b: Report)
    requires Preimage(a) == Preimage(b)
    ensures forall it :: it in a.items <==> it in b.items
    ensures multiset(ItemLines(a.items)) == multiset(ItemLines(b.items))
  {
    hide ItemLine, JoinLines, Plain;
    var la, lb := SortStrings(ItemLines(a.items)), SortStrings(ItemLines(b.items));
    SortedLinesHold(a.items);
    SortedLinesHold(b.items);
    assert Trailer(a) == [VERSION_LABEL + a.finding.packageVersion] + Trailer(a)[1..];
    assert Trailer(b) == [VERSION_LABEL + b.finding.packageVersion] + Trailer(b)[1..];
    LinesRecovered(la, lb, a.finding.packageVersion, b.finding.packageVersion, Trailer(a)[1..], Trailer(b)[1..]);
  }

  lemma {:induction false} JoinTells(a: seq<string>, b: seq<string>)
    requires a != [] && b != [] && JoinLines(a) == JoinLines(b)
    requires (forall l :: l in a ==> '\n' !in l) && forall l :: l in b ==> '\n' !in l
    ensures a == b
  {
    assert a == [a[0]] + a[1..] && b == [b[0]] + b[1..];
    assert a[0] in a && b[0] in b;
    BreaksBetween(a);
    BreaksBetween(b);
    if |a| > 1 && |b| > 1 {
      SplitFirst(a[0], JoinLines(a[1..]), b[0], JoinLines(b[1..]), '\n');
      JoinTells(a[1..], b[1..]);
    }
  }

  lemma BreaksBetween(lines: seq<string>)
    requires lines != []
    ensures |lines| > 1 ==> '\n' in JoinLines(lines)
    ensures |lines| == 1 ==> JoinLines(lines) == lines[0]
  {
    assert |lines| > 1 ==> JoinLines(lines)[|lines[0]|] == '\n';
  }

  /** What the fingerprint keeps besides the items holds no line break. */
  ghost predicate OneLiners(r: Report) {
    && '\n' !in r.finding.packageVersion && '\n' !in r.finding.fixedVersion
    && (r.osv.Some? ==> '\n' !in r.osv.value.modified)
  }

  lemma TrailerIsOneLiners(r: Report)
    requires OneLiners(r)
    ensures forall l :: l in SortStrings(ItemLines(r.items)) + Trailer(r) ==> '\n' !in l
  {
    SortedLinesHold(r.items);
    hide SortStrings, ItemLines, ItemLine;
    assert '\n' !in VERSION_LABEL && '\n' !in "fixed=" && '\n' !in "osv_modified=";
    forall l | l in SortStrings(ItemLines(r.items)) ensures '\n' !in l { PlainHasNoNewline(l); }
  }

  lemma TrailerTells(a: Report, b: Report)
    ensures Trailer(a) == Trailer(b) <==>
            && a.finding.packageVersion == b.finding.packageVersion && a.finding.fixedVersion == b.finding.fixedVersion
            && (a.osv.Some? <==> b.osv.Some?)
            && (a.osv.Some? && b.osv.Some? ==> a.osv.value.modified == b.osv.value.modified)
  {
    if Trailer(a) == Trailer(b) {
      assert Trailer(a)[0] == Trailer(b)[0] && Trailer(a)[1] == Trailer(b)[1] && |Trailer(a)| == |Trailer(b)|;
      PrefixTells(VERSION_LABEL, a.finding.packageVersion, b.finding.packageVersion);
      PrefixTells("fixed=", a.finding.fixedVersion, b.finding.fixedVersion);
      if a.osv.Some? && b.osv.Some? {
        assert Trailer(a)[2] == Trailer(b)[2];
        PrefixTells("osv_modified=", a.osv.value.modified, b.osv.value.modified);
      }
    }
  }

  lemma PrefixTells(p: string, x: string, y: string)
    requires p + x == p + y
    ensures x == y
  {
    assert (p + x)[|p|..] == x && (p + y)[|p|..] == y;
  }

  /** Two reports have one fingerprint text exactly when their items, versions and OSV times agree, line breaks
      aside. */
  lemma PreimageExactly(a: Report, b: Report)
    requires OneLiners(a) && OneLiners(b)
    ensures Preimage(a) == Preimage(b) <==>
            && multiset(ItemLines(a.items)) == multiset(ItemLines(b.items))
            && a.finding.packageVersion == b.finding.packageVersion && a.finding.fixedVersion == b.finding.fixedVersion
            && (a.osv.Some? <==> b.osv.Some?)
            && (a.osv.Some? && b.osv.Some? ==> a.osv.value.modified == b.osv.value.modified)
  {
    var la, lb := SortStrings(ItemLines(a.items)), SortStrings(ItemLines(b.items));
    TrailerTells(a, b);
    if Preimage(a) == Preimage(b) {
      TrailerIsOneLiners(a);
      TrailerIsOneLiners(b);
      JoinTells(la + Trailer(a), lb + Trailer(b));
      PreimageTellsItems(a, b);
      SortForgetsOrder(ItemLines(a.items), ItemLines(b.items));
      hide SortStrings, ItemLines, Trailer, JoinLines;
      assert Trailer(a) == (la + Trailer(a))[|la|..] && Trailer(b) == (lb + Trailer(b))[|lb|..];
    } else {
      hide Trailer, JoinLines;
      if multiset(ItemLines(a.items)) == multiset(ItemLines(b.items)) {
        SortForgetsOrder(ItemLines(a.items), ItemLines(b.items));
      }
    }
  }

  /** The order of the evidence never changes the fingerprint. */
  lemma PreimageForgetsOrder(a: Report, b: Report)
    requires a.finding == b.finding && a.osv == b.osv && multiset(ItemLines(a.items)) == multiset(ItemLines(b.items))
    ensures Preimage(a) == Preimage(b)
  {
    SortForgetsOrder(ItemLines(a.items), ItemLines(b.items));
  }

  /** Two questions with one key have one answer: under an injective digest the rules-only provider gives both the same
      verdict, up to the action text that names the package. */
  lemma VerdictFactorsThroughKey(digest: string -> string, provider: string, commit: string, repo: string, a: Report,
                                 b: Report)
    requires forall x, y :: digest(x) == digest(y) ==> x == y
    requires KeyFor(digest, provider, commit, repo, a) == KeyFor(digest, provider, commit, repo, b)
    ensures Heuristics.Assess(a).(action := "") == Heuristics.Assess(b).(action := "")
    ensures a.finding.vulnID == b.finding.vulnID && a.finding.purl == b.finding.purl
  {
    hide Preimage, Heuristics.Assess;
    PreimageTellsItems(a, b);
    Heuristics.VerdictReadsKindsOnly(a, b);
  }

  /** Two questions share a key exactly when provider, commit, finding and evidence text agree and, where no commit is
      known, the place of the repository does. */
  lemma KeyTellsQuestion(digest: string -> string, provider: string, commit: string, repo: string, a: Report,
                         provider': string, commit': string, repo': string, b: Report)
    requires forall x, y :: digest(x) == digest(y) ==> x == y
    ensures KeyFor(digest, provider, commit, repo, a) == KeyFor(digest, provider', commit', repo', b) <==>
            && provider == provider' && commit == commit' && (commit == "" ==> repo == repo')
            && a.finding.vulnID == b.finding.vulnID && a.finding.purl == b.finding.purl && Preimage(a) == Preimage(b)
  {
    hide Preimage;
  }

  // ---- the store ----

  datatype CacheEntry = CacheEntry(key: CacheKey, assessment: Assessment, createdAt: int)

  /** What a provider answers to a question. */
  datatype Reply = Answer(assessment: Assessment) | Failure(error: string, usage: Usage)

  /** Every stored verdict is the provider's answer to the key stored beside it, and costs nothing. */
  ghost predicate Faithful(files: map<string, CacheEntry>, answers: map<CacheKey, Reply>) {
    forall h :: h in files ==> FaithfulEntry(files[h], answers)
  }

  ghost predicate FaithfulEntry(e: CacheEntry, answers: map<CacheKey, Reply>) {
    && e.key in answers && answers[e.key].Answer?
    && e.assessment == WithoutUsage(answers[e.key].assessment)
  }

  ghost predicate CostsNothing(files: map<string, CacheEntry>) {
    forall h :: h in files ==> files[h].assessment.usage == NO_USAGE
  }

  /** A stored verdict is used only for the very key it was stored under, and only while it is fresh. */
  function Lookup(files: map<string, CacheEntry>, enabled: bool, ttl: int, file: string, k: CacheKey, now: int)
    : (r: Option<Assessment>)
    ensures r.Some? ==> exists h :: h in files && files[h].key == k && files[h].assessment == r.value &&
                                    (ttl > 0 ==> now - files[h].createdAt <= ttl)
  {
    if !enabled || file !in files then None
    else
      var e := files[file];
      if e.key != k || (ttl > 0 && now - e.createdAt > ttl) then None else Some(e.assessment)
  }

  /** Stores a verdict without its cost; writes says whether the file system accepts it. */
  function Stored(files: map<string, CacheEntry>, enabled: bool, writes: bool, file: string, k: CacheKey, a: Assessment,
                  now: int)
    : (r: map<string, CacheEntry>)
    ensures CostsNothing(files) ==> CostsNothing(r)
    ensures enabled && writes ==> forall ttl :: Lookup(r, enabled, ttl, file, k, now) == Some(WithoutUsage(a))
  {
    if enabled && writes then files[file := CacheEntry(k, WithoutUsage(a), now)] else files
  }

  class Store {
    const enabled: bool
    const ttl: int
    /** The file name of a key. Different keys may share one. */
    const fileOf: CacheKey -> string

    var files: map<string, CacheEntry>

    constructor (enabled: bool, ttl: int, fileOf: CacheKey -> string, files: map<string, CacheEntry>)
      ensures this.enabled == enabled && this.ttl == ttl && this.fileOf == fileOf && this.files == files
    {
      this.enabled, this.ttl, this.fileOf, this.files := enabled, ttl, fileOf, files;
    }

    method Get(k: CacheKey, now: int) returns (r: Option<Assessment>)
      ensures r == Lookup(files, enabled, ttl, fileOf(k), k, now)
    {
      if !enabled || fileOf(k) !in files { return None; }
      var e := files[fileOf(k)];
      if e.key != k { return None; }
      if ttl > 0 && now - e.createdAt > ttl { return None; }
      return Some(e.assessment);
    }

    method Put(k: CacheKey, a: Assessment, now: int, writes: bool) returns (ok: bool)
      modifies this
      ensures ok == (!enabled || writes)
      ensures files == Stored(old(files), enabled, writes, fileOf(k), k, a, now)
    {
      if !enabled { return true; }
      if !writes { return false; }
      files := files[fileOf(k) := CacheEntry(k, a.(usage := NO_USAGE), now)];
      return true;
    }
  }
}
