/** The assess loop of a run: cache, then budget, then provider, one finding after the other. */
module AssessLoop {
  import opened Options
  import opened Sources
  import opened Evidence
  import opened Assessments
  import opened Budgets
  import opened AssessCache
  import opened Pipelines
  import VexGen

  /** One finding's turn: its report and cache key, and what provider, clock and file system would do in it. */
  datatype Turn = Turn(finding: Finding, report: Report, key: CacheKey, file: string, reply: Reply, now: int,
                       writes: bool)

  /** What stays fixed over the loop. No limits means no budget. */
  datatype Setup = Setup(provider: string, readCache: bool, enabled: bool, ttl: int, limits: Option<Limits>)

  datatype Verdict =
    | Cached(assessment: Assessment)
    | Asked(assessment: Assessment)
    | Deferred

  datatype State = State(files: map<string, CacheEntry>, spent: Usage, verdicts: seq<Verdict>)

  /** What a provider's reply becomes; an error leaves the finding under investigation. */
  function Charged(reply: Reply, provider: string): Assessment {
    match reply
    case Answer(a) => a
    case Failure(error, usage) =>
      Assessment(UnderInvestigation, NoJustification, "", "", 0.0, AssessmentError(error), [], provider, usage)
  }

  const CACHE_HIT := NO_USAGE.(cacheHits := 1)

  predicate Exceeded(c: Setup, spent: Usage) {
    c.limits.Some? && Over(c.limits.value, spent)
  }

  function Decided(c: Setup, s: State, t: Turn): Verdict {
    var hit := if c.readCache then Lookup(s.files, c.enabled, c.ttl, t.file, t.key, t.now) else None;
    if hit.Some? then Cached(hit.value.(usage := CACHE_HIT))
    else if Exceeded(c, s.spent) then Deferred
    else Asked(Charged(t.reply, c.provider))
  }

  function Next(c: Setup, s: State, t: Turn): State {
    var v := Decided(c, s, t);
    if v.Asked? then
      State(if t.reply.Answer? then Stored(s.files, c.enabled, t.writes, t.file, t.key, v.assessment, t.now)
            else s.files,
            if c.limits.Some? then Add(s.spent, v.assessment.usage) else s.spent,
            s.verdicts + [v])
    else s.(verdicts := s.verdicts + [v])
  }

  function Loop(c: Setup, files: map<string, CacheEntry>, spent: Usage, turns: seq<Turn>): (s: State)
    ensures |s.verdicts| == |turns|
  {
    if turns == [] then State(files, spent, [])
    else Next(c, Loop(c, files, spent, turns[..|turns| - 1]), turns[|turns| - 1])
  }

  function Entries(turns: seq<Turn>, verdicts: seq<Verdict>): seq<VexGen.Entry>
    requires |turns| == |verdicts|
  {
    if turns == [] then []
    else
      var n := |turns| - 1;
      Entries(turns[..n], verdicts[..n]) + if verdicts[n].Deferred? then []
        else [VexGen.Entry(turns[n].report, verdicts[n].assessment)]
  }

  function Costs(verdicts: seq<Verdict>): seq<Usage> {
    if verdicts == [] then []
    else
      var n := |verdicts| - 1;
      Costs(verdicts[..n]) + if verdicts[n].Deferred? then [] else [verdicts[n].assessment.usage]
  }

  function CountDeferred(verdicts: seq<Verdict>): nat {
    if verdicts == [] then 0
    else CountDeferred(verdicts[..|verdicts| - 1]) + if verdicts[|verdicts| - 1].Deferred? then 1 else 0
  }

  datatype Record = Record(confidence: real, provider: string, cached: bool, usage: Usage)

  function RecordOf(v: Verdict): Record
    requires !v.Deferred?
  {
    Record(v.assessment.confidence, v.assessment.provider, v.Cached?, v.assessment.usage)
  }

  function Records(turns: seq<Turn>, verdicts: seq<Verdict>): map<string, Record>
    requires |turns| == |verdicts|
  {
    if turns == [] then map[]
    else
      var n := |turns| - 1;
      var r := Records(turns[..n], verdicts[..n]);
      if verdicts[n].Deferred? then r else r[KeyOf(turns[n].finding) := RecordOf(verdicts[n])]
  }

  // ---- conservation ----

  /** Every finding gets an entry or is deferred, and every entry is some finding's own verdict. */
  lemma {:induction false} EntriesAddUp(turns: seq<Turn>, verdicts: seq<Verdict>)
    requires |turns| == |verdicts|
    ensures |Entries(turns, verdicts)| + CountDeferred(verdicts) == |turns|
    ensures forall e :: e in Entries(turns, verdicts) ==> FromTurn(turns, verdicts, e)
  {
    if turns != [] {
      var n := |turns| - 1;
      EntriesAddUp(turns[..n], verdicts[..n]);
      forall e | e in Entries(turns, verdicts) ensures FromTurn(turns, verdicts, e) {
        if e in Entries(turns[..n], verdicts[..n]) {
          var i :| 0 <= i < n && IsEntry(turns[..n][i], verdicts[..n][i], e);
          assert IsEntry(turns[i], verdicts[i], e);
        } else {
          assert IsEntry(turns[n], verdicts[n], e);
        }
      }
    }
  }

  /** The entries are those of the turns that were not put off, in turn order. */
  lemma {:induction false} EntriesInOrder(turns: seq<Turn>, verdicts: seq<Verdict>) returns (at: seq<nat>)
    requires |turns| == |verdicts|
    ensures InOrder(turns, verdicts, Entries(turns, verdicts), at)
  {
    at := [];
    if turns != [] {
      var n := |turns| - 1;
      at := EntriesInOrder(turns[..n], verdicts[..n]);
      var front, t, v := Entries(turns[..n], verdicts[..n]), turns[n], verdicts[n];
      assert turns == turns[..n] + [t] && verdicts == verdicts[..n] + [v];
      assert v.Deferred? ==> Entries(turns, verdicts) == front;
      OneMoreInOrder(turns[..n], verdicts[..n], front, at, t, v);
      hide InOrder, Entries;
      if !v.Deferred? { at := at + [n]; }
    }
  }

  /** Entry i is that of turn at[i], the turns go forward, and none is left out that was not put off. */
  ghost predicate InOrder(turns: seq<Turn>, verdicts: seq<Verdict>, entries: seq<VexGen.Entry>, at: seq<nat>)
    requires |turns| == |verdicts|
  {
    && |at| == |entries| && (forall i, j :: 0 <= i < j < |at| ==> at[i] < at[j])
    && (forall i :: 0 <= i < |at| ==> at[i] < |turns| && IsEntry(turns[at[i]], verdicts[at[i]], entries[i]))
    && forall k :: 0 <= k < |turns| && !verdicts[k].Deferred? ==> k in at
  }

  lemma OneMoreInOrder(turns: seq<Turn>, verdicts: seq<Verdict>, entries: seq<VexGen.Entry>, at: seq<nat>, t: Turn,
                       v: Verdict)
    requires |turns| == |verdicts| && InOrder(turns, verdicts, entries, at)
    ensures v.Deferred? ==> InOrder(turns + [t], verdicts + [v], entries, at)
    ensures !v.Deferred? ==>
            InOrder(turns + [t], verdicts + [v], entries + [VexGen.Entry(t.report, v.assessment)], at + [|turns|])
  {
  }

  ghost predicate IsEntry(t: Turn, v: Verdict, e: VexGen.Entry) {
    !v.Deferred? && e == VexGen.Entry(t.report, v.assessment)
  }

  ghost predicate FromTurn(turns: seq<Turn>, verdicts: seq<Verdict>, e: VexGen.Entry)
    requires |turns| == |verdicts|
  {
    exists i :: 0 <= i < |turns| && IsEntry(turns[i], verdicts[i], e)
  }

  ghost predicate DistinctTurns(turns: seq<Turn>) {
    forall i, j :: 0 <= i < j < |turns| ==> KeyOf(turns[i].finding) != KeyOf(turns[j].finding)
  }

  /** With distinct keys, each recorded verdict is found again under its own finding's key. */
  lemma {:induction false} RecordsAreOwn(turns: seq<Turn>, verdicts: seq<Verdict>, i: nat)
    requires |turns| == |verdicts| && DistinctTurns(turns) && i < |turns| && !verdicts[i].Deferred?
    ensures KeyOf(turns[i].finding) in Records(turns, verdicts)
    ensures Records(turns, verdicts)[KeyOf(turns[i].finding)] == RecordOf(verdicts[i])
  {
    hide KeyOf;
    var n := |turns| - 1;
    if i < n {
      RecordsAreOwn(turns[..n], verdicts[..n], i);
    }
  }

  // ---- the budget ----

  /** A turn asks the provider only while no limit is reached. */
  lemma {:induction false} AskedWithinBudget(c: Setup, files: map<string, CacheEntry>, spent: Usage, turns: seq<Turn>,
                                             i: nat)
    requires i < |turns| && Loop(c, files, spent, turns).verdicts[i].Asked?
    ensures !Exceeded(c, Loop(c, files, spent, turns[..i]).spent)
    decreases |turns|
  {
    hide Exceeded, Stored, Lookup, Charged;
    var n := |turns| - 1;
    if i < n {
      AskedWithinBudget(c, files, spent, turns[..n], i);
      assert turns[..n][..i] == turns[..i];
    }
  }

  /** Once a finding is deferred, the provider is not asked again in this run. */
  lemma {:induction false} DeferredForGood(c: Setup, files: map<string, CacheEntry>, spent: Usage, turns: seq<Turn>,
                                           i: nat, j: nat)
    requires i < j < |turns| && Loop(c, files, spent, turns).verdicts[i].Deferred?
    ensures !Loop(c, files, spent, turns).verdicts[j].Asked?
    ensures Exceeded(c, Loop(c, files, spent, turns).spent)
    decreases |turns|
  {
    hide Stored, Lookup, Charged, Add, Over;
    var n := |turns| - 1;
    if j < n {
      DeferredForGood(c, files, spent, turns[..n], i, j);
    } else if i < n - 1 {
      DeferredForGood(c, files, spent, turns[..n], i, n - 1);
    } else {
      DeferredMeansExceeded(c, files, spent, turns[..n]);
    }
  }

  lemma DeferredMeansExceeded(c: Setup, files: map<string, CacheEntry>, spent: Usage, turns: seq<Turn>)
    requires turns != [] && Loop(c, files, spent, turns).verdicts[|turns| - 1].Deferred?
    ensures Exceeded(c, Loop(c, files, spent, turns).spent)
  {
    hide Stored, Lookup, Charged, Add, Over;
  }

  // ---- what each turn gets, by cache file, limits and reply ----

  /** The turn's file holds an entry for its very question, and the entry has not expired. */
  ghost predicate Served(c: Setup, files: map<string, CacheEntry>, t: Turn) {
    && c.readCache && c.enabled && t.file in files && files[t.file].key == t.key
    && (c.ttl > 0 ==> t.now - files[t.file].createdAt <= c.ttl)
  }

  ghost predicate LimitReached(c: Setup, spent: Usage) {
    && c.limits.Some?
    && (|| (c.limits.value.maxCalls > 0 && spent.calls >= c.limits.value.maxCalls)
        || (c.limits.value.maxTokens > 0 && spent.promptTokens + spent.completionTokens >= c.limits.value.maxTokens)
        || (c.limits.value.maxPremium > 0.0 && spent.premium >= c.limits.value.maxPremium))
  }

  /** What a failed call leaves: an open finding without confidence, at the call's cost. */
  ghost predicate IsFailure(a: Assessment, error: string, usage: Usage, provider: string) {
    && a.status == UnderInvestigation && a.justification == NoJustification && a.impact == "" && a.action == ""
    && a.confidence == 0.0 && a.evidenceRefs == [] && a.reasoning == AssessmentError(error)
    && a.provider == provider && a.usage == usage
  }

  /** A served entry's verdict, counted as one cache hit and nothing else. */
  ghost predicate IsServed(a: Assessment, e: CacheEntry) {
    && a.status == e.assessment.status && a.justification == e.assessment.justification
    && a.impact == e.assessment.impact && a.action == e.assessment.action && a.confidence == e.assessment.confidence
    && a.reasoning == e.assessment.reasoning && a.evidenceRefs == e.assessment.evidenceRefs
    && a.provider == e.assessment.provider
    && a.usage.calls == 0 && a.usage.promptTokens == 0 && a.usage.completionTokens == 0 && a.usage.premium == 0.0
    && a.usage.cacheHits == 1
  }

  ghost predicate GetsVerdict(c: Setup, files: map<string, CacheEntry>, spent: Usage, t: Turn, v: Verdict) {
    && (v.Cached? <==> Served(c, files, t))
    && (v.Deferred? <==> !Served(c, files, t) && LimitReached(c, spent))
    && (v.Cached? ==> IsServed(v.assessment, files[t.file]))
    && (v.Asked? && t.reply.Answer? ==> v.assessment == t.reply.assessment)
    && (v.Asked? && t.reply.Failure? ==> IsFailure(v.assessment, t.reply.error, t.reply.usage, c.provider))
  }

  /** Exactly which findings are served, put off or asked about, and what each gets: the entry, the provider's answer,
      or an open finding when the call failed. */
  lemma {:induction false} WhatTurnsGet(c: Setup, files: map<string, CacheEntry>, spent: Usage, turns: seq<Turn>,
                                        i: nat)
    requires i < |turns|
    ensures var before := Loop(c, files, spent, turns[..i]);
            GetsVerdict(c, before.files, before.spent, turns[i], Loop(c, files, spent, turns).verdicts[i])
    decreases |turns|
  {
    hide Stored, Add;
    var n := |turns| - 1;
    if i < n {
      hide GetsVerdict;
      WhatTurnsGet(c, files, spent, turns[..n], i);
      assert turns[..n][..i] == turns[..i];
    } else {
      DecidedGets(c, Loop(c, files, spent, turns[..n]), turns[n]);
    }
  }

  lemma DecidedGets(c: Setup, s: State, t: Turn)
    ensures GetsVerdict(c, s.files, s.spent, t, Decided(c, s, t))
  {
  }

  /** Turn j's answer is what the entry holds, at no cost. */
  ghost predicate HoldsAnswer(c: Setup, turns: seq<Turn>, verdicts: seq<Verdict>, j: nat, file: string, e: CacheEntry) {
    && j < |turns| == |verdicts| && verdicts[j].Asked? && turns[j].reply.Answer? && turns[j].writes && c.enabled
    && turns[j].file == file && e.key == turns[j].key && e.createdAt == turns[j].now
    && e.assessment == turns[j].reply.assessment.(usage := NO_USAGE)
  }

  /** Every cache entry after the loop was there before, or holds the answer of one of its turns: never a failure. */
  lemma {:induction false} EntriesHoldAnswers(c: Setup, files: map<string, CacheEntry>, spent: Usage, turns: seq<Turn>,
                                              file: string)
    ensures var s := Loop(c, files, spent, turns);
            && (file in s.files ==>
                  || (file in files && s.files[file] == files[file])
                  || exists j: nat :: HoldsAnswer(c, turns, s.verdicts, j, file, s.files[file]))
            && (file in files ==> file in s.files)
            && (c.enabled ==>
                  forall j: nat :: j < |turns| && s.verdicts[j].Asked? && turns[j].reply.Answer? && turns[j].writes ==>
                    turns[j].file in s.files)
  {
    hide Lookup, Add, Exceeded;
    if turns != [] {
      var n := |turns| - 1;
      var s, m := Loop(c, files, spent, turns[..n]), Loop(c, files, spent, turns);
      EntriesHoldAnswers(c, files, spent, turns[..n], file);
      if j: nat :| file in s.files && HoldsAnswer(c, turns[..n], s.verdicts, j, file, s.files[file]) {
        assert HoldsAnswer(c, turns, m.verdicts, j, file, s.files[file]);
      }
      if file in m.files && (file !in s.files || m.files[file] != s.files[file]) {
        assert HoldsAnswer(c, turns, m.verdicts, n, file, m.files[file]);
      }
    }
  }

  /** The budget is charged what the loop reports, and nothing for what is served or put off. */
  lemma {:induction false} SpentIsReported(c: Setup, files: map<string, CacheEntry>, spent: Usage, turns: seq<Turn>)
    ensures var s := Loop(c, files, spent, turns);
            var total := Sum(Costs(s.verdicts));
            if c.limits.Some? then
              && s.spent.calls == spent.calls + total.calls && s.spent.premium == spent.premium + total.premium
              && s.spent.promptTokens == spent.promptTokens + total.promptTokens
              && s.spent.completionTokens == spent.completionTokens + total.completionTokens
            else s.spent == spent
  {
    hide Lookup, Stored, Exceeded, Charged;
    if turns != [] {
      var n := |turns| - 1;
      var s, m := Loop(c, files, spent, turns[..n]), Loop(c, files, spent, turns);
      SpentIsReported(c, files, spent, turns[..n]);
      SpentNext(c, s, turns[n]);
      NextVerdict(turns, s.verdicts, n, Decided(c, s, turns[n]));
      DecidedCosts(c, s, turns[n]);
      hide Entries, Records, CountDeferred, Costs, Sum, Next, Decided;
    }
  }

  lemma DecidedCosts(c: Setup, s: State, t: Turn)
    ensures var v := Decided(c, s, t);
            && (v.Asked? ==> v.assessment.usage == Charged(t.reply, c.provider).usage)
            && (v.Cached? ==> v.assessment.usage == CACHE_HIT)
  {
    hide Lookup, Charged, Exceeded;
  }

  // ---- cache transparency ----

  /** The provider's answer depends on the key alone. */
  ghost predicate KeyedReplies(turns: seq<Turn>, answers: map<CacheKey, Reply>) {
    forall t :: t in turns ==> t.key in answers && t.reply == answers[t.key]
  }

  /** What the finding gets when the provider is asked, cost aside. */
  ghost predicate AsIfAsked(v: Verdict, t: Turn, provider: string) {
    !v.Deferred? && WithoutUsage(v.assessment) == WithoutUsage(Charged(t.reply, provider))
  }

  lemma OneTurnIsTransparent(c: Setup, s: State, t: Turn, answers: map<CacheKey, Reply>)
    requires c.limits.None? && Faithful(s.files, answers) && t.key in answers && t.reply == answers[t.key]
    ensures Faithful(Next(c, s, t).files, answers)
    ensures AsIfAsked(Decided(c, s, t), t, c.provider)
  {
    hide NO_USAGE;
    var hit := Lookup(s.files, c.enabled, c.ttl, t.file, t.key, t.now);
    if hit.Some? {
      var h :| h in s.files && s.files[h].key == t.key && s.files[h].assessment == hit.value;
      assert FaithfulEntry(s.files[h], answers);
    }
  }

  /** Without a budget, reading the cache never changes a verdict except for its cost, whatever faithful entries the
      cache holds and however keys share files; and the cache stays faithful for the runs after this one. */
  lemma {:induction false} CacheIsTransparent(c: Setup, files: map<string, CacheEntry>, spent: Usage, turns: seq<Turn>,
                                              answers: map<CacheKey, Reply>)
    requires c.limits.None? && Faithful(files, answers) && KeyedReplies(turns, answers)
    ensures var s := Loop(c, files, spent, turns);
            && Faithful(s.files, answers)
            && forall i :: 0 <= i < |turns| ==> AsIfAsked(s.verdicts[i], turns[i], c.provider)
  {
    hide AsIfAsked, Faithful, Stored, Lookup, Charged;
    if turns != [] {
      var n := |turns| - 1;
      CacheIsTransparent(c, files, spent, turns[..n], answers);
      OneTurnIsTransparent(c, Loop(c, files, spent, turns[..n]), turns[n], answers);
    }
  }

  /** Entries of two loops over the same questions, pairwise equal but for cost. */
  ghost predicate SameButCost(a: seq<VexGen.Entry>, b: seq<VexGen.Entry>) {
    && |a| == |b|
    && forall i :: 0 <= i < |a| ==>
       a[i].report == b[i].report && WithoutUsage(a[i].assessment) == WithoutUsage(b[i].assessment)
  }

  lemma {:induction false} SameEntries(s: seq<Turn>, t: seq<Turn>, v: seq<Verdict>, w: seq<Verdict>, provider: string)
    requires |s| == |v| == |t| == |w|
    requires forall i :: 0 <= i < |s| ==> s[i].report == t[i].report && s[i].reply == t[i].reply
    requires forall i :: 0 <= i < |s| ==> AsIfAsked(v[i], s[i], provider) && AsIfAsked(w[i], t[i], provider)
    ensures SameButCost(Entries(s, v), Entries(t, w))
  {
    hide Charged;
    if s != [] {
      var n := |s| - 1;
      SameEntries(s[..n], t[..n], v[..n], w[..n], provider);
    }
  }

  /** Runs with and without cache, and with any faithful cache contents, give documents of the same entries up to cost;
      by VexGen.CostIsInvisible those make the same statements. */
  lemma RunsAgree(c: Setup, d: Setup, files: map<string, CacheEntry>, files': map<string, CacheEntry>, spent: Usage,
                  s: seq<Turn>, t: seq<Turn>, answers: map<CacheKey, Reply>)
    requires c.limits.None? && d.limits.None? && c.provider == d.provider && |s| == |t|
    requires Faithful(files, answers) && Faithful(files', answers) && KeyedReplies(s, answers) &&
             KeyedReplies(t, answers)
    requires forall i :: 0 <= i < |s| ==> s[i].report == t[i].report && s[i].key == t[i].key
    ensures SameButCost(Entries(s, Loop(c, files, spent, s).verdicts), Entries(t, Loop(d, files', spent, t).verdicts))
  {
    hide AsIfAsked, Faithful, Loop, Entries, SameButCost;
    CacheIsTransparent(c, files, spent, s, answers);
    CacheIsTransparent(d, files', spent, t, answers);
    forall i | 0 <= i < |s| ensures s[i].reply == t[i].reply { assert s[i] in s && t[i] in t; }
    SameEntries(s, t, Loop(c, files, spent, s).verdicts, Loop(d, files', spent, t).verdicts, c.provider);
  }

  // ---- cache and budget together ----

  /** No more of anything a limit counts. */
  predicate AtMost(u: Usage, v: Usage) {
    u.calls <= v.calls && u.TotalTokens() <= v.TotalTokens() && u.premium <= v.premium
  }

  ghost predicate CostsSomething(turns: seq<Turn>) {
    forall t :: t in turns ==> NonNegative(Charged(t.reply, "").usage)
  }

  lemma OverByMore(l: Limits, u: Usage, v: Usage)
    requires AtMost(u, v) && Over(l, u)
    ensures Over(l, v)
  {
  }

  lemma ChargeMore(u: Usage, v: Usage, cost: Usage)
    requires AtMost(u, v) && NonNegative(cost)
    ensures AtMost(u, Add(v, cost)) && AtMost(Add(u, cost), Add(v, cost))
  {
  }

  lemma SpentNext(c: Setup, s: State, t: Turn)
    ensures var v := Decided(c, s, t);
            && Next(c, s, t).spent ==
                 (if v.Asked? && c.limits.Some? then Add(s.spent, Charged(t.reply, c.provider).usage) else s.spent)
            && Next(c, s, t).verdicts == s.verdicts + [v]
            && (v.Asked? ==> !Exceeded(c, s.spent)) && (v.Deferred? ==> Exceeded(c, s.spent))
            && (!c.readCache ==> (v.Deferred? <==> Exceeded(c, s.spent)))
            && (!c.readCache ==> !v.Cached?)
  {
    hide Lookup, Stored, Over, Add;
  }

  lemma FaithfulNext(c: Setup, s: State, t: Turn, answers: map<CacheKey, Reply>)
    requires Faithful(s.files, answers) && t.key in answers && t.reply == answers[t.key]
    ensures Faithful(Next(c, s, t).files, answers)
    ensures !Decided(c, s, t).Deferred? ==> AsIfAsked(Decided(c, s, t), t, c.provider)
  {
    hide NO_USAGE, Over, Add;
    var hit := Lookup(s.files, c.enabled, c.ttl, t.file, t.key, t.now);
    if hit.Some? {
      var h :| h in s.files && s.files[h].key == t.key && s.files[h].assessment == hit.value;
      assert FaithfulEntry(s.files[h], answers);
    }
  }

  /** Under the same budget the loop that reads the cache is ahead: it has spent no more, unless the other one has
      already reached a limit. */
  ghost predicate Ahead(c: Setup, spent: Usage, spent': Usage) {
    Exceeded(c, spent') || AtMost(spent, spent')
  }

  lemma StaysAhead(c: Setup, d: Setup, s: State, s': State, t: Turn)
    requires c.limits == d.limits && c.provider == d.provider && !d.readCache && Ahead(d, s.spent, s'.spent)
    requires NonNegative(Charged(t.reply, "").usage)
    ensures Ahead(d, Next(c, s, t).spent, Next(d, s', t).spent)
    ensures Decided(c, s, t).Deferred? ==> Decided(d, s', t).Deferred?
  {
    SpentNext(c, s, t);
    SpentNext(d, s', t);
    var cost := Charged(t.reply, c.provider).usage;
    assert cost == Charged(t.reply, "").usage;
    hide Next, Decided, Charged, Over, Add, AtMost;
    if c.limits.Some? {
      var l := c.limits.value;
      if Over(l, s'.spent) {
        OverStays(l, s'.spent, cost);
      } else {
        ChargeMore(s.spent, s'.spent, cost);
        if Over(l, s.spent) { OverByMore(l, s.spent, s'.spent); }
      }
    }
  }

  /** Under any budget, a run that reads the cache never puts off a finding that a run without it would assess, and what
      both of them assess gets the same verdict, cost aside. */
  lemma {:induction false} CacheNeverDefersMore(c: Setup, d: Setup, files: map<string, CacheEntry>,
                                                files': map<string, CacheEntry>,
                                                spent: Usage, turns: seq<Turn>, answers: map<CacheKey, Reply>)
    requires c.limits == d.limits && c.provider == d.provider && !d.readCache
    requires Faithful(files, answers) && Faithful(files', answers) && KeyedReplies(turns, answers) &&
             CostsSomething(turns)
    ensures var s, s' := Loop(c, files, spent, turns), Loop(d, files', spent, turns);
            && Ahead(d, s.spent, s'.spent) && Faithful(s.files, answers) && Faithful(s'.files, answers)
            && (forall i :: 0 <= i < |turns| && s.verdicts[i].Deferred? ==> s'.verdicts[i].Deferred?)
            && (forall i :: 0 <= i < |turns| && !s'.verdicts[i].Deferred? ==>
                  WithoutUsage(s.verdicts[i].assessment) == WithoutUsage(s'.verdicts[i].assessment))
  {
    hide Lookup, Stored, Charged, Over, Add, Faithful, Decided, WithoutUsage, Exceeded;
    if turns != [] {
      var n := |turns| - 1;
      var s, s', t := Loop(c, files, spent, turns[..n]), Loop(d, files', spent, turns[..n]), turns[n];
      CacheNeverDefersMore(c, d, files, files', spent, turns[..n], answers);
      StaysAhead(c, d, s, s', t);
      FaithfulNext(c, s, t, answers);
      FaithfulNext(d, s', t, answers);
      SpentNext(c, s, t);
      SpentNext(d, s', t);
      hide Next, Ahead;
    }
  }

  /** A stored answer is served again whatever the provider would answer now. */
  lemma StoredAnswerIsServed(c: Setup, files: map<string, CacheEntry>, spent: Usage, first: Turn, second: Turn)
    requires c.readCache && c.enabled && c.ttl <= 0 && c.limits.None?
    requires Lookup(files, true, c.ttl, first.file, first.key, first.now).None?
    requires first.reply.Answer? && first.writes && first.key == second.key && first.file == second.file
    ensures Loop(c, files, spent, [first, second]).verdicts[1] == Cached(first.reply.assessment.(usage := CACHE_HIT))
  {
    var turns := [first, second];
    LoopStarts(c, files, spent, turns);
    NextTurn(c, files, spent, turns, 0);
    NextTurn(c, files, spent, turns, 1);
    assert turns[..2] == turns;
    var s := Loop(c, files, spent, turns[..1]);
    assert s.files == files[first.file := CacheEntry(first.key, WithoutUsage(first.reply.assessment), first.now)];
    hide Loop;
    assert Loop(c, files, spent, turns) == Next(c, s, second);
  }

  // ---- the loop over the live cache and budget ----

  function LimitsOf(b: Budget?): Option<Limits> {
    if b == null then None else Some(b.limits)
  }

  function SpentOf(b: Budget?): Usage
    reads if b == null then {} else {b}
  {
    if b == null then NO_USAGE else b.spent
  }

  method AssessFindings(turns: seq<Turn>, provider: string, readCache: bool, cache: Store, budget: Budget?)
    returns (entries: seq<VexGen.Entry>, records: map<string, Record>, deferred: nat, usage: Usage,
             ghost verdicts: seq<Verdict>)
    requires forall t :: t in turns ==> t.file == cache.fileOf(t.key)
    modifies cache, if budget == null then {} else {budget}
    ensures State(cache.files, SpentOf(budget), verdicts) ==
            Loop(Setup(provider, readCache, cache.enabled, cache.ttl, LimitsOf(budget)), old(cache.files),
                 old(SpentOf(budget)), turns)
    ensures entries == Entries(turns, verdicts) && records == Records(turns, verdicts)
    ensures deferred == CountDeferred(verdicts) && usage == Sum(Costs(verdicts))
  {
    hide Lookup, Stored, Charged, Over, Reached, Add, KeyOf;
    hide Loop, Entries, Records, Costs, CountDeferred, Sum;
    NothingYet();
    entries, records, deferred, usage, verdicts := [], map[], 0, NO_USAGE, [];
    ghost var c := Setup(provider, readCache, cache.enabled, cache.ttl, LimitsOf(budget));
    ghost var files, spent := cache.files, SpentOf(budget);
    LoopStarts(c, files, spent, turns);
    for i := 0 to |turns|
      invariant State(cache.files, SpentOf(budget), verdicts) == Loop(c, files, spent, turns[..i])
      invariant entries == Entries(turns[..i], verdicts) && records == Records(turns[..i], verdicts)
      invariant deferred == CountDeferred(verdicts) && usage == Sum(Costs(verdicts))
    {
      var t := turns[i];
      ghost var before := State(cache.files, SpentOf(budget), verdicts);
      NextTurn(c, files, spent, turns, i);
      NextVerdict(turns, verdicts, i, Decided(c, before, t));
      assert t in turns;
      var hit: Option<Assessment> := None;
      if readCache { hit := cache.Get(t.key, t.now); }
      var a;
      if hit.Some? {
        a := hit.value.(usage := CACHE_HIT);
        verdicts := verdicts + [Cached(a)];
      } else {
        var over := false;
        if budget != null { over := budget.Exceeded(); }
        if over {
          deferred := deferred + 1;
          verdicts := verdicts + [Deferred];
          continue;
        }
        a := Charged(t.reply, provider);
        if budget != null { budget.Spend(a.usage); }
        if t.reply.Answer? {
          var _ := cache.Put(t.key, a, t.now, t.writes);
        }
        verdicts := verdicts + [Asked(a)];
      }
      usage := Add(usage, a.usage);
      entries := entries + [VexGen.Entry(t.report, a)];
      records := records[KeyOf(t.finding) := Record(a.confidence, a.provider, hit.Some?, a.usage)];
    }
    assert turns[..|turns|] == turns;
  }

  lemma NothingYet()
    ensures Entries([], []) == [] && Records([], []) == map[] && Costs([]) == [] && CountDeferred([]) == 0 &&
            Sum([]) == NO_USAGE
  {
  }

  lemma LoopStarts(c: Setup, files: map<string, CacheEntry>, spent: Usage, turns: seq<Turn>)
    ensures turns[..0] == [] && Loop(c, files, spent, []) == State(files, spent, [])
  {
  }

  lemma NextVerdict(turns: seq<Turn>, verdicts: seq<Verdict>, i: nat, v: Verdict)
    requires i < |turns| && |verdicts| == i
    ensures Entries(turns[..i + 1], verdicts + [v]) ==
            Entries(turns[..i], verdicts) + if v.Deferred? then [] else [VexGen.Entry(turns[i].report, v.assessment)]
    ensures Records(turns[..i + 1], verdicts + [v]) ==
            if v.Deferred? then Records(turns[..i], verdicts)
            else Records(turns[..i], verdicts)[KeyOf(turns[i].finding) := RecordOf(v)]
    ensures CountDeferred(verdicts + [v]) == CountDeferred(verdicts) + if v.Deferred? then 1 else 0
    ensures Sum(Costs(verdicts + [v])) == if v.Deferred? then Sum(Costs(verdicts))
            else Add(Sum(Costs(verdicts)), v.assessment.usage)
  {
    hide KeyOf, Add;
    assert turns[..i + 1][..i] == turns[..i] && turns[..i + 1][i] == turns[i];
    assert (verdicts + [v])[..i] == verdicts;
    if v.Deferred? {
      assert Costs(verdicts + [v]) == Costs(verdicts);
    } else {
      assert Costs(verdicts + [v]) == Costs(verdicts) + [v.assessment.usage];
      SumSnoc(Costs(verdicts), v.assessment.usage);
    }
  }

  lemma SumSnoc(us: seq<Usage>, u: Usage)
    ensures Sum(us + [u]) == Add(Sum(us), u)
  {
    hide Add;
    assert (us + [u])[..|us|] == us;
  }

  lemma NextTurn(c: Setup, files: map<string, CacheEntry>, spent: Usage, turns: seq<Turn>, i: nat)
    requires i < |turns|
    ensures Loop(c, files, spent, turns[..i + 1]) == Next(c, Loop(c, files, spent, turns[..i]), turns[i])
  {
    hide Next;
    assert turns[..i + 1][..i] == turns[..i];
  }
}
