/** What the shared budget guarantees over every interleaving, and what it does not. */
module PoolSpend {
  import opened Options
  import opened Assessments
  import opened Budgets
  import opened Watch
  import opened WatchPool

  // ---- where the money is ----

  function CostOf(x: Worker): Usage { if x.Busy? then x.usage else NO_USAGE }

  function Costs(crew: seq<Worker>): seq<Usage> { seq(|crew|, i requires 0 <= i < |crew| => CostOf(crew[i])) }

  /** What runs still under way have been charged for. */
  function Pending(crew: seq<Worker>): Usage { Sum(Costs(crew)) }

  function Others(crew: seq<Worker>, w: nat): Usage
    requires w < |crew|
  {
    Sum(Costs(crew[..w]) + Costs(crew[w + 1..]))
  }

  lemma PendingOne(crew: seq<Worker>, w: nat)
    requires w < |crew|
    ensures Pending(crew) == Add(CostOf(crew[w]), Others(crew, w))
  {
    hide Add, CostOf;
    assert Costs(crew) == Costs(crew[..w]) + [CostOf(crew[w])] + Costs(crew[w + 1..]);
    SumRemove(Costs(crew[..w]), CostOf(crew[w]), Costs(crew[w + 1..]));
  }

  lemma PendingSwap(crew: seq<Worker>, w: nat, x: Worker)
    requires w < |crew|
    ensures Pending(crew[w := x]) == Add(CostOf(x), Others(crew, w))
    ensures Pending(crew) == Add(CostOf(crew[w]), Others(crew, w))
  {
    hide Add, CostOf, Pending;
    PendingOne(crew, w);
    PendingOne(crew[w := x], w);
    assert crew[w := x][..w] == crew[..w] && crew[w := x][w + 1..] == crew[w + 1..];
  }

  lemma {:induction false} NothingPending(crew: seq<Worker>)
    requires forall x :: x in crew ==> !x.Busy?
    ensures Pending(crew) == NO_USAGE
  {
    hide Add;
    if crew != [] {
      var n := |crew| - 1;
      assert Costs(crew)[..n] == Costs(crew[..n]);
      assert Costs(crew)[n] == NO_USAGE by { assert crew[n] in crew; }
      NothingPending(crew[..n]);
      AddIsCommutativeMonoid(NO_USAGE, NO_USAGE, NO_USAGE);
    }
  }

  /** Cache hits are counted in a run's cost but never charged to the budget. */
  function Charged(u: Usage): Usage { u.(cacheHits := 0) }

  lemma ChargedAdd(u: Usage, v: Usage)
    ensures Charged(Add(u, v)) == Add(Charged(u), Charged(v))
    ensures Charged(Add(u, CACHE_HIT)) == Charged(u)
  {
  }

  /** Every charge is in exactly one place: reported by a finished run, lost with a failed one, or with a run under
      way. */
  ghost predicate Accounted(s: State) {
    s.spent == Charged(Add(Add(s.memory.lastPass, s.lost), Pending(s.crew)))
  }

  lemma Regroup(last: Usage, lost: Usage, x: Usage, rest: Usage, cost: Usage)
    ensures Add(Add(last, lost), Add(Add(x, cost), rest)) == Add(Add(Add(last, lost), Add(x, rest)), cost)
    ensures Add(Add(Add(last, x), lost), Add(NO_USAGE, rest)) == Add(Add(last, lost), Add(x, rest))
    ensures Add(Add(last, Add(lost, x)), Add(NO_USAGE, rest)) == Add(Add(last, lost), Add(x, rest))
  {
    hide Add;
    AddIsCommutativeMonoid(x, cost, rest);
    AddIsCommutativeMonoid(cost, rest, NO_USAGE);
    AddIsCommutativeMonoid(x, rest, cost);
    AddIsCommutativeMonoid(Add(last, lost), Add(x, rest), cost);
    AddIsCommutativeMonoid(rest, NO_USAGE, NO_USAGE);
    AddIsCommutativeMonoid(last, x, lost);
    AddIsCommutativeMonoid(x, lost, NO_USAGE);
    AddIsCommutativeMonoid(last, lost, x);
    AddIsCommutativeMonoid(Add(last, lost), x, rest);
  }

  lemma AccountedKept(c: Config, s: State, a: Step)
    requires Enabled(c, s, a) && Accounted(s)
    ensures Accounted(Apply(c, s, a))
  {
    hide Add, Pending, Exhausted, Fits, Charged;
    if !a.Cancel? && !a.Close? {
      var s' := Apply(c, s, a);
      var w := a.w;
      var x := s.crew[w];
      var base, rest := Add(s.memory.lastPass, s.lost), Others(s.crew, w);
      PendingSwap(s.crew, w, s'.crew[w]);
      match a {
        case ServeCached(_) =>
          Regroup(s.memory.lastPass, s.lost, x.usage, rest, CACHE_HIT);
          ChargedAdd(Add(base, Add(x.usage, rest)), CACHE_HIT);
        case Reply(_, cost) =>
          Regroup(s.memory.lastPass, s.lost, x.usage, rest, cost);
          ChargedAdd(Add(base, Add(x.usage, rest)), cost);
          ReplyIsCharged(c, s, a);
        case Commit(_, _) => Regroup(s.memory.lastPass, s.lost, x.usage, rest, NO_USAGE);
        case Abort(_) => Regroup(s.memory.lastPass, s.lost, x.usage, rest, NO_USAGE);
        case _ =>
      }
    }
  }

  lemma ReplyIsCharged(c: Config, s: State, a: Step)
    requires Enabled(c, s, a) && a.Reply?
    ensures Charged(a.cost) == a.cost
  {
  }

  // ---- how far the budget can be overshot ----

  /** What is spent, plus the most that the calls under way can still report, stays below the limit plus one full round
      of all workers. */
  predicate Within(spent: real, most: real, inflight: nat, limit: real, workers: nat) {
    limit > 0.0 ==> spent + most * (inflight as real) < limit + most * (workers as real)
  }

  predicate Bounded(c: Config, s: State) {
    c.limits.Some? ==>
      var l, n := c.limits.value, Asking(s.crew);
      && Within(s.spent.calls as real, c.maxCalls as real, n, l.maxCalls as real, c.workers)
      && Within(s.spent.TotalTokens() as real, c.maxTokens as real, n, l.maxTokens as real, c.workers)
      && Within(s.spent.premium, c.maxPremium, n, l.maxPremium, c.workers)
  }

  lemma WithinAsk(spent: real, most: real, inflight: nat, limit: real, workers: nat)
    requires most >= 0.0 && inflight <= workers && (limit > 0.0 ==> spent < limit)
    ensures Within(spent, most, inflight, limit, workers)
  {
    assert most * (inflight as real) <= most * (workers as real);
  }

  lemma WithinReply(spent: real, cost: real, most: real, inflight: nat, limit: real, workers: nat)
    requires Within(spent, most, inflight, limit, workers) && cost <= most && inflight > 0
    ensures Within(spent + cost, most, inflight - 1, limit, workers)
  {
    assert most * (inflight as real) == most * ((inflight - 1) as real) + most;
  }

  /** Spending with calls under way never exceeds what it could have been before the answer came. */
  function Exposure(c: Config, s: State): int { s.spent.calls + c.maxCalls * Asking(s.crew) }

  lemma AskingSwap(c: Config, s: State, a: Step)
    requires Enabled(c, s, a)
    ensures Asking(Apply(c, s, a).crew) == Asking(s.crew) + (if a.Ask? then 1 else if a.Reply? then -1 else 0)
    ensures |Apply(c, s, a).crew| == |s.crew|
  {
    hide RecordResult, Add, Exhausted, Fits;
    if !a.Cancel? && !a.Close? { SwapWorker(s.crew, a.w, Apply(c, s, a).crew[a.w]); }
  }

  lemma SpentBy(c: Config, s: State, a: Step)
    requires Enabled(c, s, a)
    ensures Apply(c, s, a).spent == if a.Reply? then Add(s.spent, a.cost) else s.spent
    ensures Apply(c, s, a).asked == if a.Ask? then s.asked + 1 else s.asked
  {
    hide RecordResult, Add, Exhausted, Fits;
  }

  lemma BoundedKept(c: Config, s: State, a: Step)
    requires ValidConfig(c) && Enabled(c, s, a) && |s.crew| == c.workers && Bounded(c, s)
    ensures Bounded(c, Apply(c, s, a))
  {
    var s' := Apply(c, s, a);
    AskingSwap(c, s, a);
    SpentBy(c, s, a);
    AskingAtMostAll(s'.crew);
    if c.limits.Some? {
      var l, n := c.limits.value, Asking(s'.crew);
      hide Apply, Within, ValidConfig;
      assert c.maxPremium >= 0.0;
      if a.Ask? {
        WithinAsk(s.spent.calls as real, c.maxCalls as real, n, l.maxCalls as real, c.workers);
        WithinAsk(s.spent.TotalTokens() as real, c.maxTokens as real, n, l.maxTokens as real, c.workers);
        WithinAsk(s.spent.premium, c.maxPremium, n, l.maxPremium, c.workers);
      } else if a.Reply? {
        WithinReply(s.spent.calls as real, a.cost.calls as real, c.maxCalls as real, n + 1, l.maxCalls as real,
                    c.workers);
        WithinReply(s.spent.TotalTokens() as real, a.cost.TotalTokens() as real, c.maxTokens as real, n + 1,
                    l.maxTokens as real, c.workers);
        WithinReply(s.spent.premium, a.cost.premium, c.maxPremium, n + 1, l.maxPremium, c.workers);
      }
    }
  }

  /** Calls that have been answered. */
  function Answered(s: State): int { s.asked - Asking(s.crew) }

  /** Answers report at least minCalls calls each; asking is only begun below the limit. */
  predicate AskedWithin(c: Config, s: State) {
    && 0 <= Answered(s) && c.minCalls * Answered(s) <= s.spent.calls
    && (c.minCalls >= 1 && c.limits.Some? && c.limits.value.maxCalls > 0 ==>
        s.asked <= c.limits.value.maxCalls - 1 + c.workers)
  }

  lemma OneMoreAnswer(least: nat, answered: int)
    requires 0 <= answered
    ensures least * (answered + 1) == least * answered + least
    ensures least >= 1 ==> answered <= least * answered
  {
  }

  lemma AskedWithinKept(c: Config, s: State, a: Step)
    requires Enabled(c, s, a) && |s.crew| == c.workers && AskedWithin(c, s)
    ensures AskedWithin(c, Apply(c, s, a))
  {
    var s' := Apply(c, s, a);
    AskingSwap(c, s, a);
    SpentBy(c, s, a);
    AskingAtMostAll(s'.crew);
    OneMoreAnswer(c.minCalls, Answered(s));
    assert a.Ask? ==> !Exhausted(c, s);
    assert a.Reply? ==> c.minCalls <= a.cost.calls;
    hide Apply, Asking, Enabled;
  }

  /** A finding is put off only once a limit has been reached. */
  ghost predicate DeferralExplained(c: Config, s: State) {
    && (forall w :: 0 <= w < |s.crew| && s.crew[w].Busy? && s.crew[w].deferred > 0 ==> Exhausted(c, s))
    && (forall j :: j in s.results && s.results[j].Finished? && s.results[j].deferred > 0 ==> Exhausted(c, s))
  }

  lemma ExhaustedStays(c: Config, s: State, a: Step)
    requires Enabled(c, s, a) && Exhausted(c, s)
    ensures Exhausted(c, Apply(c, s, a)) && Apply(c, s, a).asked == s.asked
    ensures Exposure(c, Apply(c, s, a)) <= Exposure(c, s)
  {
    SpentBy(c, s, a);
    AskingSwap(c, s, a);
    hide Apply;
    if a.Reply? {
      OverStays(c.limits.value, s.spent, a.cost);
      var n := Asking(s.crew);
      assert c.maxCalls * (n - 1) == c.maxCalls * n - c.maxCalls;
    }
  }

  lemma DeferralExplainedKept(c: Config, s: State, a: Step)
    requires Enabled(c, s, a) && DeferralExplained(c, s)
    ensures DeferralExplained(c, Apply(c, s, a))
  {
    var s' := Apply(c, s, a);
    if Exhausted(c, s) {
      ExhaustedStays(c, s, a);
    } else {
      hide Exhausted, Fits, RecordResult, Add;
      if !a.Cancel? && !a.Close? {
        assert forall v :: 0 <= v < |s'.crew| && s'.crew[v].Busy? ==> s'.crew[v].deferred == 0;
      }
    }
  }

  // ---- every run of the pool ----

  ghost predicate Solvent(c: Config, s: State) {
    |s.crew| == c.workers && Accounted(s) && Bounded(c, s) && AskedWithin(c, s) && DeferralExplained(c, s)
  }

  lemma WithinAtStart(most: real, limit: real, workers: nat)
    requires most >= 0.0
    ensures Within(0.0, most, 0, limit, workers)
  {
    assert most * (workers as real) >= 0.0;
  }

  lemma NoCharge()
    ensures Charged(Add(Add(NO_USAGE, NO_USAGE), NO_USAGE)) == NO_USAGE
  {
  }

  lemma NothingIsAccounted(s: State)
    requires s.memory.lastPass == NO_USAGE && s.lost == NO_USAGE && s.spent == NO_USAGE
    requires forall x :: x in s.crew ==> !x.Busy?
    ensures Accounted(s)
  {
    hide Pending, Add, Charged, NO_USAGE;
    NothingPending(s.crew);
    NoCharge();
  }

  lemma StartIsBounded(c: Config, m: Memory)
    requires c.maxPremium >= 0.0
    ensures Bounded(c, Start(c, m)) && AskedWithin(c, Start(c, m))
  {
    var s := Start(c, m);
    FreshCrew(c.workers, s.crew);
    hide Asking, Within;
    if c.limits.Some? {
      var l := c.limits.value;
      WithinAtStart(c.maxCalls as real, l.maxCalls as real, c.workers);
      WithinAtStart(c.maxTokens as real, l.maxTokens as real, c.workers);
      WithinAtStart(c.maxPremium, l.maxPremium, c.workers);
    }
  }

  lemma StartIsSolvent(c: Config, m: Memory)
    requires ValidConfig(c)
    ensures Solvent(c, Start(c, m))
  {
    hide Accounted, Bounded, AskedWithin, Exhausted;
    var s := Start(c, m);
    assert |s.crew| == c.workers;
    StartIsBounded(c, m);
    NothingIsAccounted(s);
    hide ValidConfig;
  }

  lemma SolventKept(c: Config, s: State, a: Step)
    requires ValidConfig(c) && Enabled(c, s, a) && Solvent(c, s)
    ensures Solvent(c, Apply(c, s, a))
  {
    hide Apply, Accounted, Bounded, AskedWithin, DeferralExplained, ValidConfig, Enabled;
    AccountedKept(c, s, a);
    BoundedKept(c, s, a);
    AskedWithinKept(c, s, a);
    DeferralExplainedKept(c, s, a);
    AskingSwap(c, s, a);
  }

  lemma {:induction false} AlwaysSolvent(c: Config, m: Memory, t: seq<State>)
    requires ValidConfig(c) && Execution(c, m, t)
    ensures Solvent(c, t[|t| - 1])
  {
    hide Solvent, Apply, Enabled, ValidConfig;
    if |t| == 1 {
      StartIsSolvent(c, m);
    } else {
      var n := |t| - 1;
      ExecutionPrefix(c, m, t, n);
      AlwaysSolvent(c, m, t[..n]);
      var i := n - 1;
      assert Next(c, t[i], t[n]);
      var a :| Enabled(c, t[i], a) && t[n] == Apply(c, t[i], a);
      SolventKept(c, t[i], a);
    }
  }

  /** In every interleaving, what is spent plus what the calls under way may still report stays under each positive
      limit plus one call of every worker. */
  lemma OvershootIsBounded(c: Config, m: Memory, t: seq<State>, l: Limits)
    requires ValidConfig(c) && Execution(c, m, t) && c.limits == Some(l)
    ensures var s := t[|t| - 1];
            var n := Asking(s.crew);
            && n <= c.workers
            && (l.maxCalls > 0 ==> s.spent.calls + c.maxCalls * n <= l.maxCalls - 1 + c.maxCalls * c.workers)
            && (l.maxTokens > 0 ==>
                s.spent.TotalTokens() + c.maxTokens * n <= l.maxTokens - 1 + c.maxTokens * c.workers)
            && (l.maxPremium > 0.0 ==>
                  s.spent.premium + c.maxPremium * (n as real) < l.maxPremium + c.maxPremium * (c.workers as real))
  {
    var s := t[|t| - 1];
    AlwaysSolvent(c, m, t);
    AskingAtMostAll(s.crew);
    hide Execution, Accounted, AskedWithin, DeferralExplained, ValidConfig, Asking, Bounded;
    BoundedInInts(c, s, l);
  }

  lemma BoundedInInts(c: Config, s: State, l: Limits)
    requires Bounded(c, s) && c.limits == Some(l)
    ensures var n := Asking(s.crew);
            && (l.maxCalls > 0 ==> s.spent.calls + c.maxCalls * n <= l.maxCalls - 1 + c.maxCalls * c.workers)
            && (l.maxTokens > 0 ==>
                s.spent.TotalTokens() + c.maxTokens * n <= l.maxTokens - 1 + c.maxTokens * c.workers)
            && (l.maxPremium > 0.0 ==>
                  s.spent.premium + c.maxPremium * (n as real) < l.maxPremium + c.maxPremium * (c.workers as real))
  {
    hide Asking;
    var n := Asking(s.crew);
    WithinInts(s.spent.calls, c.maxCalls, n, l.maxCalls, c.workers);
    WithinInts(s.spent.TotalTokens(), c.maxTokens, n, l.maxTokens, c.workers);
  }

  lemma WithinInts(spent: int, most: nat, inflight: nat, limit: int, workers: nat)
    requires Within(spent as real, most as real, inflight, limit as real, workers)
    ensures limit > 0 ==> spent + most * inflight <= limit - 1 + most * workers
  {
    assert (most as real) * (inflight as real) == (most * inflight) as real;
    assert (most as real) * (workers as real) == (most * workers) as real;
  }

  /** Once a limit is reached it stays reached: no further call begins, and what is spent plus what is outstanding never
      grows again, so only calls under way still finish. */
  lemma {:induction false} ExhaustedForGood(c: Config, m: Memory, t: seq<State>, i: nat, j: nat)
    requires Execution(c, m, t) && i <= j < |t| && Exhausted(c, t[i])
    ensures Exhausted(c, t[j]) && t[j].asked == t[i].asked && Exposure(c, t[j]) <= Exposure(c, t[i])
    decreases j
  {
    hide Exhausted, Exposure, Apply, Enabled, Start;
    if i < j {
      var k := j - 1;
      ExhaustedForGood(c, m, t, i, k);
      assert Next(c, t[k], t[j]);
      var a :| Enabled(c, t[k], a) && t[j] == Apply(c, t[k], a);
      ExhaustedStays(c, t[k], a);
    }
  }

  /** A finding is put off only when a limit was reached, and from then on no call begins in any run of the pass. */
  lemma NoCallAfterDeferral(c: Config, m: Memory, t: seq<State>, i: nat, j: nat, w: nat)
    requires ValidConfig(c) && Execution(c, m, t) && i <= j < |t|
    requires w < |t[i].crew| && t[i].crew[w].Busy? && t[i].crew[w].deferred > 0
    ensures Exhausted(c, t[j]) && t[j].asked == t[i].asked
  {
    ExecutionPrefix(c, m, t, i + 1);
    AlwaysSolvent(c, m, t[..i + 1]);
    hide Exhausted, Accounted, Bounded, AskedWithin, ValidConfig, Execution;
    ExhaustedForGood(c, m, t, i, j);
  }

  /** Where everybody has left, what the budget was charged is what the pass reports plus what failed runs lost. */
  lemma ChargesAreReported(c: Config, m: Memory, t: seq<State>)
    requires ValidConfig(c) && Execution(c, m, t) && Ended(t[|t| - 1])
    ensures var s := t[|t| - 1]; s.spent == Charged(Add(s.memory.lastPass, s.lost))
  {
    var s := t[|t| - 1];
    AlwaysSolvent(c, m, t);
    NothingPending(s.crew);
    hide Execution, Bounded, AskedWithin, DeferralExplained, ValidConfig, Add;
    AddIsCommutativeMonoid(Add(s.memory.lastPass, s.lost), NO_USAGE, NO_USAGE);
  }

  // ---- calls begun, as against calls reported ----

  /** Where every call reports itself, the number of calls begun is bounded by the limit and the workers. */
  lemma CallsAreBounded(c: Config, m: Memory, t: seq<State>, l: Limits)
    requires ValidConfig(c) && Execution(c, m, t) && c.limits == Some(l)
    requires c.minCalls >= 1 && l.maxCalls > 0
    ensures t[|t| - 1].asked <= l.maxCalls - 1 + c.workers
  {
    hide Execution, Accounted, Bounded, DeferralExplained, ValidConfig;
    AlwaysSolvent(c, m, t);
  }

  function Total(findings: seq<nat>): nat {
    if findings == [] then 0 else Total(findings[..|findings| - 1]) + findings[|findings| - 1]
  }

  /** The first worker waits for SBOM j, with a call begun for every finding before it and nothing charged. */
  ghost predicate QuietBefore(c: Config, s: State, j: nat) {
    && |c.findings| == |c.todo| && j <= |c.todo| && s.next == j && s.feeding && s.crew != [] && s.crew[0] == Waiting
    && s.spent == NO_USAGE && s.asked == Total(c.findings[..j])
  }

  /** The first worker is at SBOM j with left findings to go. */
  ghost predicate QuietAt(c: Config, s: State, j: nat, left: nat) {
    && |c.findings| == |c.todo| && j < |c.todo| && s.next == j + 1 && s.feeding && left <= c.findings[j]
    && s.crew != [] && s.crew[0] == Busy(j, left, NO_USAGE, 0, false)
    && s.spent == NO_USAGE && s.asked == Total(c.findings[..j]) + c.findings[j] - left
  }

  lemma NothingExhausts(c: Config, s: State)
    requires s.spent == NO_USAGE
    ensures !Exhausted(c, s)
  {
  }

  lemma NothingFits(c: Config)
    requires c.minCalls == 0 && c.maxPremium >= 0.0
    ensures Fits(c, NO_USAGE)
  {
  }

  lemma QuietHand(c: Config, s: State, j: nat)
    requires QuietBefore(c, s, j) && j < |c.todo|
    ensures Enabled(c, s, Hand(0)) && QuietAt(c, Apply(c, s, Hand(0)), j, c.findings[j])
  {
    hide Total;
  }

  lemma QuietAsk(c: Config, s: State, j: nat, left: nat)
    requires QuietAt(c, s, j, left) && left > 0
    ensures Enabled(c, s, Ask(0))
    ensures var s' := Apply(c, s, Ask(0));
            && s'.crew != [] && s'.crew[0] == Busy(j, left - 1, NO_USAGE, 0, true) && s'.next == s.next
            && s'.feeding && s'.spent == NO_USAGE && s'.asked == s.asked + 1
  {
    NothingExhausts(c, s);
    hide Total, Exhausted, Add;
  }

  lemma QuietAnswer(c: Config, s: State)
    requires s.crew != [] && s.crew[0].Busy? && s.crew[0].asking && Fits(c, NO_USAGE)
    ensures Enabled(c, s, Reply(0, NO_USAGE))
    ensures var s' := Apply(c, s, Reply(0, NO_USAGE));
            && s'.crew == s.crew[0 := s.crew[0].(asking := false, usage := Add(s.crew[0].usage, NO_USAGE))]
            && s'.spent == Add(s.spent, NO_USAGE) && s'.asked == s.asked && s'.next == s.next && s'.feeding == s.feeding
  {
    hide Fits, Add, NO_USAGE, RecordResult, Exhausted;
  }

  lemma QuietReply(c: Config, s: State, j: nat, left: nat)
    requires c.minCalls == 0 && c.maxPremium >= 0.0 && |c.findings| == |c.todo| && j < |c.todo| && left <= c.findings[j]
    requires s.crew != [] && s.crew[0] == Busy(j, left, NO_USAGE, 0, true) && s.next == j + 1 && s.feeding
    requires s.spent == NO_USAGE && s.asked == Total(c.findings[..j]) + c.findings[j] - left
    ensures Enabled(c, s, Reply(0, NO_USAGE)) && QuietAt(c, Apply(c, s, Reply(0, NO_USAGE)), j, left)
  {
    hide Total, Fits, Add, NO_USAGE, Apply, Enabled;
    NothingFits(c);
    QuietAnswer(c, s);
    AddIsCommutativeMonoid(NO_USAGE, NO_USAGE, NO_USAGE);
  }

  lemma QuietCommit(c: Config, s: State, j: nat)
    requires QuietAt(c, s, j, 0)
    ensures Enabled(c, s, Commit(0, 0)) && QuietBefore(c, Apply(c, s, Commit(0, 0)), j + 1)
  {
    hide Add, RecordResult;
    assert c.findings[..j + 1][..j] == c.findings[..j];
  }

  lemma Extended(c: Config, m: Memory, t: seq<State>, a: Step) returns (t': seq<State>)
    requires t != [] && Execution(c, m, t) && Enabled(c, t[|t| - 1], a)
    ensures t' != [] && Execution(c, m, t') && t'[|t'| - 1] == Apply(c, t[|t| - 1], a)
  {
    hide Enabled, Apply, Start;
    var s := Apply(c, t[|t| - 1], a);
    assert Next(c, t[|t| - 1], s);
    t' := t + [s];
  }

  lemma {:induction false} QuietRun(c: Config, m: Memory, t: seq<State>, j: nat, left: nat) returns (t': seq<State>)
    requires ValidConfig(c) && c.minCalls == 0 && t != [] && Execution(c, m, t) && QuietAt(c, t[|t| - 1], j, left)
    ensures t' != [] && Execution(c, m, t') && QuietBefore(c, t'[|t'| - 1], j + 1)
    decreases left
  {
    assert c.maxPremium >= 0.0;
    hide Execution, Enabled, Apply, ValidConfig, QuietBefore;
    var s := t[|t| - 1];
    if left == 0 {
      QuietCommit(c, s, j);
      t' := Extended(c, m, t, Commit(0, 0));
    } else {
      QuietAsk(c, s, j, left);
      t' := Extended(c, m, t, Ask(0));
      QuietReply(c, t'[|t'| - 1], j, left - 1);
      t' := Extended(c, m, t', Reply(0, NO_USAGE));
      hide QuietAt;
      t' := QuietRun(c, m, t', j, left - 1);
    }
  }

  lemma {:induction false} QuietPass(c: Config, m: Memory, j: nat) returns (t: seq<State>)
    requires ValidConfig(c) && c.minCalls == 0 && c.todo != [] && j <= |c.todo|
    ensures t != [] && Execution(c, m, t) && QuietBefore(c, t[|t| - 1], j)
  {
    if j == 0 {
      t := [Start(c, m)];
      assert c.findings[..0] == [];
    } else {
      hide Execution, Enabled, Apply, QuietBefore, QuietAt;
      t := QuietPass(c, m, j - 1);
      QuietHand(c, t[|t| - 1], j - 1);
      t := Extended(c, m, t, Hand(0));
      t := QuietRun(c, m, t, j - 1, c.findings[j - 1]);
    }
  }

  /** Failed calls report nothing, so no limit stops them: in every configuration in which they may fail, some run of
      the pool begins as many calls as there are findings and charges nothing. */
  lemma SilentCallsAreUnbounded(c: Config, m: Memory) returns (t: seq<State>)
    requires ValidConfig(c) && c.minCalls == 0
    ensures t != [] && Execution(c, m, t) && t[|t| - 1].asked == Total(c.findings) && t[|t| - 1].spent == NO_USAGE
  {
    if c.todo == [] {
      t := [Start(c, m)];
    } else {
      t := QuietPass(c, m, |c.todo|);
      assert c.findings[..|c.todo|] == c.findings;
    }
  }
}
