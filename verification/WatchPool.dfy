/** The worker pool of a watch pass as a state machine: a feeder, workers, the locked commit, and the shared budget
    that is checked before a provider call and charged after it. One step is one action of one of them. */
module WatchPool {
  import opened Options
  import opened Assessments
  import opened Budgets
  import opened Watch

  /** What a pass runs on. findings[j] is how many findings the run of SBOM j puts to the assessor; a provider call
      reports no cache hits, at least minCalls and at most maxCalls calls, and at most maxTokens tokens and maxPremium
      premium requests. minCalls is zero where a failed call reports nothing. */
  datatype Config = Config(todo: seq<Sbom>, findings: seq<nat>, workers: nat, limits: Option<Limits>,
                           minCalls: nat, maxCalls: nat, maxTokens: nat, maxPremium: real)

  ghost predicate ValidConfig(c: Config) {
    && |c.findings| == |c.todo| && DistinctIds(c.todo)
    && c.minCalls <= c.maxCalls && c.maxPremium >= 0.0
    && (c.workers == 0 <==> c.todo == [])
  }

  /** At least one worker, and no more than there is work. */
  function WorkerCount(concurrency: int, work: nat): (n: nat)
    ensures n <= work && (n == 0 <==> work == 0) && (concurrency >= 1 ==> n <= concurrency)
    ensures n < work ==> n >= 1 && n >= concurrency
  {
    var wanted := if concurrency < 1 then 1 else concurrency;
    if wanted > work then work else wanted
  }

  /** A worker waits for an SBOM, works on one (asking says a provider call is under way), or has left. */
  datatype Worker =
    | Waiting
    | Busy(job: nat, left: nat, usage: Usage, deferred: nat, asking: bool)
    | Gone

  /** asked counts provider calls begun; lost is what failed runs had spent. */
  datatype State = State(next: nat, feeding: bool, cancelled: bool, crew: seq<Worker>, spent: Usage, memory: Memory,
                         processed: nat, results: map<nat, Result>, asked: nat, lost: Usage)

  datatype Step =
    | Hand(w: nat)
    | Cancel
    | Close
    | ServeCached(w: nat)
    | Defer(w: nat)
    | Ask(w: nat)
    | Reply(w: nat, cost: Usage)
    | Commit(w: nat, at: int)
    | Abort(w: nat)
    | Leave(w: nat)

  function Start(c: Config, m: Memory): State {
    State(0, true, false, seq(c.workers, _ => Waiting), NO_USAGE, m.(lastPass := NO_USAGE), 0, map[], 0, NO_USAGE)
  }

  predicate Exhausted(c: Config, s: State) {
    c.limits.Some? && Over(c.limits.value, s.spent)
  }

  predicate Fits(c: Config, cost: Usage) {
    && NonNegative(cost) && cost.cacheHits == 0
    && c.minCalls <= cost.calls <= c.maxCalls && cost.TotalTokens() <= c.maxTokens && cost.premium <= c.maxPremium
  }

  predicate Working(s: State, w: nat) {
    w < |s.crew| && s.crew[w].Busy? && !s.crew[w].asking
  }

  predicate Enabled(c: Config, s: State, a: Step) {
    match a
    case Hand(w) => s.feeding && s.next < |c.todo| && |c.findings| == |c.todo| && w < |s.crew| && s.crew[w].Waiting?
    case Cancel => !s.cancelled
    case Close => s.feeding && (s.next == |c.todo| || s.cancelled)
    case ServeCached(w) => Working(s, w) && s.crew[w].left > 0
    case Defer(w) => Working(s, w) && s.crew[w].left > 0 && Exhausted(c, s)
    case Ask(w) => Working(s, w) && s.crew[w].left > 0 && !Exhausted(c, s)
    case Reply(w, cost) => w < |s.crew| && s.crew[w].Busy? && s.crew[w].asking && Fits(c, cost)
    case Commit(w, _) => Working(s, w) && s.crew[w].left == 0 && s.crew[w].job < |c.todo|
    case Abort(w) => Working(s, w)
    case Leave(w) => !s.feeding && w < |s.crew| && s.crew[w].Waiting?
  }

  function Finish(s: State, w: nat, sbom: Sbom, r: Result): State
    requires Working(s, w)
  {
    var b := s.crew[w];
    s.(crew := s.crew[w := Waiting], results := s.results[b.job := r], memory := RecordResult(s.memory, sbom, r),
       processed := if r.Finished? then s.processed + 1 else s.processed,
       lost := if r.Finished? then s.lost else Add(s.lost, b.usage))
  }

  const CACHE_HIT := NO_USAGE.(cacheHits := 1)

  function Apply(c: Config, s: State, a: Step): State
    requires Enabled(c, s, a)
  {
    match a
    case Hand(w) => s.(next := s.next + 1, crew := s.crew[w := Busy(s.next, c.findings[s.next], NO_USAGE, 0, false)])
    case Cancel => s.(cancelled := true)
    case Close => s.(feeding := false)
    case ServeCached(w) =>
      var b := s.crew[w];
      s.(crew := s.crew[w := b.(left := b.left - 1, usage := Add(b.usage, CACHE_HIT))])
    case Defer(w) =>
      var b := s.crew[w];
      s.(crew := s.crew[w := b.(left := b.left - 1, deferred := b.deferred + 1)])
    case Ask(w) =>
      var b := s.crew[w];
      s.(crew := s.crew[w := b.(asking := true, left := b.left - 1)], asked := s.asked + 1)
    case Reply(w, cost) =>
      var b := s.crew[w];
      s.(crew := s.crew[w := b.(asking := false, usage := Add(b.usage, cost))], spent := Add(s.spent, cost))
    case Commit(w, at) => Finish(s, w, c.todo[s.crew[w].job], Finished(s.crew[w].usage, s.crew[w].deferred, at))
    case Abort(w) => Finish(s, w, Sbom("", "", 0), Failed)
    case Leave(w) => s.(crew := s.crew[w := Gone])
  }

  ghost predicate Next(c: Config, s: State, s': State) {
    exists a :: Enabled(c, s, a) && s' == Apply(c, s, a)
  }

  /** A run of the pool: any interleaving of enabled steps. */
  ghost predicate Execution(c: Config, m: Memory, t: seq<State>) {
    && t != [] && t[0] == Start(c, m)
    && forall i, j :: 0 <= i && j == i + 1 < |t| ==> Next(c, t[i], t[j])
  }

  lemma ExecutionPrefix(c: Config, m: Memory, t: seq<State>, n: nat)
    requires Execution(c, m, t) && 0 < n <= |t|
    ensures Execution(c, m, t[..n])
  {
    hide Next, Start;
  }

  predicate Ended(s: State) {
    !s.feeding && forall w :: 0 <= w < |s.crew| ==> s.crew[w].Gone?
  }

  // ---- sums over the crew ----

  function AskingOf(x: Worker): nat { if x.Busy? && x.asking then 1 else 0 }

  function Asking(crew: seq<Worker>): nat {
    if crew == [] then 0 else Asking(crew[..|crew| - 1]) + AskingOf(crew[|crew| - 1])
  }

  function WeightOf(x: Worker): nat {
    match x
    case Gone => 0
    case Waiting => 1
    case Busy(_, left, _, _, asking) => 2 * left + if asking then 3 else 2
  }

  function Weight(crew: seq<Worker>): nat {
    if crew == [] then 0 else Weight(crew[..|crew| - 1]) + WeightOf(crew[|crew| - 1])
  }

  lemma {:induction false} SwapWorker(crew: seq<Worker>, w: nat, x: Worker)
    requires w < |crew|
    ensures Asking(crew[w := x]) - AskingOf(x) == Asking(crew) - AskingOf(crew[w])
    ensures Weight(crew[w := x]) - WeightOf(x) == Weight(crew) - WeightOf(crew[w])
  {
    hide AskingOf, WeightOf;
    var n := |crew| - 1;
    var crew' := crew[w := x];
    if w == n {
      assert crew'[..n] == crew[..n];
    } else {
      SwapWorker(crew[..n], w, x);
      assert crew'[..n] == crew[..n][w := x] && crew'[n] == crew[n];
    }
  }

  lemma {:induction false} AskingAtMostAll(crew: seq<Worker>)
    ensures Asking(crew) <= |crew|
  {
    if crew != [] { AskingAtMostAll(crew[..|crew| - 1]); }
  }

  lemma {:induction false} FreshCrew(n: nat, crew: seq<Worker>)
    requires |crew| == n && forall w :: 0 <= w < n ==> crew[w] == Waiting
    ensures Asking(crew) == 0 && Weight(crew) == n
  {
    if n > 0 { FreshCrew(n - 1, crew[..n - 1]); }
  }
}
