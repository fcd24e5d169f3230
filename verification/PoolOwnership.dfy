/** Each selected SBOM is dealt to one worker, the pool always ends, and its result does not depend on the schedule. */
module PoolOwnership {
  import opened Assessments
  import opened Watch
  import opened WatchPool

  ghost predicate Holds(s: State, w: nat, j: nat) {
    w < |s.crew| && s.crew[w].Busy? && s.crew[w].job == j
  }

  ghost predicate Held(s: State, j: nat) {
    exists w: nat :: Holds(s, w, j)
  }

  /** Every SBOM handed out is with exactly one worker or has its one result. */
  ghost predicate Dealt(s: State) {
    && (forall j :: j in s.results ==> j < s.next)
    && (forall w: nat, j: nat :: Holds(s, w, j) ==> j < s.next && j !in s.results)
    && (forall v: nat, w: nat, j: nat :: Holds(s, v, j) && Holds(s, w, j) ==> v == w)
    && (forall j: nat :: j < s.next && j !in s.results ==> Held(s, j))
  }

  /** Nobody leaves while the feeder runs, and the feeder stops early only when cancelled. */
  ghost predicate Staffed(c: Config, s: State) {
    && s.next <= |c.todo| && |s.crew| == c.workers
    && (s.feeding ==> forall w :: 0 <= w < |s.crew| ==> !s.crew[w].Gone?)
    && (!s.feeding && !s.cancelled ==> s.next == |c.todo|)
  }

  lemma StaffedKept(c: Config, s: State, a: Step)
    requires Enabled(c, s, a) && Staffed(c, s)
    ensures Staffed(c, Apply(c, s, a))
  {
    hide RecordResult, Add, Exhausted, Fits;
  }

  lemma DealtHand(s: State, s': State, w: nat, x: Worker)
    requires Dealt(s) && w < |s.crew| && !s.crew[w].Busy? && x.Busy? && x.job == s.next
    requires s'.crew == s.crew[w := x] && s'.results == s.results && s'.next == s.next + 1
    ensures Dealt(s')
  {
    forall j: nat | j < s'.next && j !in s'.results ensures Held(s', j) {
      if j == s.next {
        assert Holds(s', w, j);
      } else {
        var v: nat :| Holds(s, v, j);
        assert Holds(s', v, j);
      }
    }
    forall v: nat, j: nat | Holds(s', v, j) && v != w ensures j != s.next { assert Holds(s, v, j); }
    forall v: nat, j: nat | Holds(s', v, j) ensures j < s'.next && j !in s'.results {
      if v != w { assert Holds(s, v, j); }
    }
    forall v: nat, u: nat, j: nat | Holds(s', v, j) && Holds(s', u, j) ensures v == u {
      if v != w && u != w { assert Holds(s, v, j) && Holds(s, u, j); }
    }
  }

  /** A worker goes on with the SBOM it has. */
  lemma DealtWork(s: State, s': State, w: nat, x: Worker)
    requires Dealt(s) && w < |s.crew| && s.crew[w].Busy? && x.Busy? && x.job == s.crew[w].job
    requires s'.crew == s.crew[w := x] && s'.results == s.results && s'.next == s.next
    ensures Dealt(s')
  {
    forall v: nat, j: nat ensures Holds(s', v, j) == Holds(s, v, j) {}
    forall j: nat ensures Held(s', j) == Held(s, j) {
      if Held(s, j) { var v: nat :| Holds(s, v, j); assert Holds(s', v, j); }
    }
  }

  lemma DealtFinish(s: State, s': State, w: nat, r: Result)
    requires Dealt(s) && w < |s.crew| && s.crew[w].Busy?
    requires s'.crew == s.crew[w := Waiting] && s'.results == s.results[s.crew[w].job := r] && s'.next == s.next
    ensures Dealt(s')
  {
    var done := s.crew[w].job;
    assert Holds(s, w, done);
    forall v: nat, j: nat | Holds(s', v, j) ensures Holds(s, v, j) && j != done && v != w {
      assert v != w && Holds(s, v, j);
    }
    forall j: nat | j < s'.next && j !in s'.results ensures Held(s', j) {
      var v: nat :| Holds(s, v, j);
      assert Holds(s', v, j);
    }
  }

  lemma DealtLeave(s: State, s': State, w: nat)
    requires Dealt(s) && w < |s.crew| && !s.crew[w].Busy?
    requires s'.crew == s.crew[w := Gone] && s'.results == s.results && s'.next == s.next
    ensures Dealt(s')
  {
    forall v: nat, j: nat ensures Holds(s', v, j) == Holds(s, v, j) {}
    forall j: nat ensures Held(s', j) == Held(s, j) {
      if Held(s, j) { var v: nat :| Holds(s, v, j); assert Holds(s', v, j); }
    }
  }

  lemma DealtSame(s: State, s': State)
    requires Dealt(s) && s'.crew == s.crew && s'.results == s.results && s'.next == s.next
    ensures Dealt(s')
  {
    forall v: nat, j: nat ensures Holds(s', v, j) == Holds(s, v, j) {}
    forall j: nat ensures Held(s', j) == Held(s, j) {
      if Held(s, j) { var v: nat :| Holds(s, v, j); assert Holds(s', v, j); }
    }
  }

  lemma DealtKept(c: Config, s: State, a: Step)
    requires Enabled(c, s, a) && Dealt(s)
    ensures Dealt(Apply(c, s, a))
  {
    hide Dealt, RecordResult, Add, Exhausted, Fits;
    var s' := Apply(c, s, a);
    match a
    case Hand(w) => DealtHand(s, s', w, s'.crew[w]);
    case Cancel => DealtSame(s, s');
    case Close => DealtSame(s, s');
    case ServeCached(w) => DealtWork(s, s', w, s'.crew[w]);
    case Defer(w) => DealtWork(s, s', w, s'.crew[w]);
    case Ask(w) => DealtWork(s, s', w, s'.crew[w]);
    case Reply(w, _) => DealtWork(s, s', w, s'.crew[w]);
    case Commit(w, at) => DealtFinish(s, s', w, s'.results[s.crew[w].job]);
    case Abort(w) => DealtFinish(s, s', w, Failed);
    case Leave(w) => DealtLeave(s, s', w);
  }

  // ---- the memory is the results, in any order ----

  function FinishedRuns(results: map<nat, Result>, n: nat): nat {
    if n == 0 then 0
    else FinishedRuns(results, n - 1) + if n - 1 in results && results[n - 1].Finished? then 1 else 0
  }

  lemma UpdatesCommute<V>(m: map<string, V>, i: string, x: V, j: string, y: V)
    requires i != j
    ensures m[i := x][j := y] == m[j := y][i := x]
  {
  }

  lemma MarksCommute(m: Memory, s: Sbom, at: int, s': Sbom, at': int)
    requires s.id != s'.id
    ensures MarkDone(MarkDone(m, s, at), s', at') == MarkDone(MarkDone(m, s', at'), s, at)
  {
    UpdatesCommute(m.processed, s.id, s.fingerprint, s'.id, s'.fingerprint);
    UpdatesCommute(m.processedAt, s.id, at, s'.id, at');
  }

  function Paid(m: Memory, u: Usage): Memory { m.(usage := Add(m.usage, u), lastPass := Add(m.lastPass, u)) }

  lemma MarkPaid(m: Memory, u: Usage, s: Sbom, at: int)
    ensures Paid(MarkDone(m, s, at), u) == MarkDone(Paid(m, u), s, at)
  {
    hide Add;
  }

  lemma PaymentsCommute(m: Memory, u: Usage, v: Usage)
    ensures Paid(Paid(m, u), v) == Paid(Paid(m, v), u)
  {
    hide Add;
    AddSwapLast(m.usage, u, v);
    AddSwapLast(m.lastPass, u, v);
  }

  function Settle(m: Memory, s: Sbom, r: Result): Memory
    requires r.Finished?
  {
    if r.deferred > 0 then m else MarkDone(m, s, r.at)
  }

  /** Recording runs of different SBOMs commutes. */
  lemma RecordsCommute(m: Memory, s: Sbom, r: Result, s': Sbom, r': Result)
    requires s.id != s'.id
    ensures RecordResult(RecordResult(m, s, r), s', r') == RecordResult(RecordResult(m, s', r'), s, r)
  {
    hide Paid, MarkDone;
    if r.Finished? && r'.Finished? {
      RecordIsPaidAndSettled(m, s, r);
      RecordIsPaidAndSettled(m, s', r');
      RecordIsPaidAndSettled(RecordResult(m, s, r), s', r');
      RecordIsPaidAndSettled(RecordResult(m, s', r'), s, r);
      hide RecordResult;
      var both := Paid(Paid(m, r.usage), r'.usage);
      PaymentsCommute(m, r.usage, r'.usage);
      MarksCommute(both, s, r.at, s', r'.at);
      MarkPaid(Paid(m, r.usage), r'.usage, s, r.at);
      MarkPaid(Paid(m, r'.usage), r.usage, s', r'.at);
    }
  }

  lemma RecordIsPaidAndSettled(m: Memory, s: Sbom, r: Result)
    requires r.Finished?
    ensures RecordResult(m, s, r) == Settle(Paid(m, r.usage), s, r)
  {
    hide Add, MarkDone;
  }

  lemma AddSwapLast(a: Usage, b: Usage, c: Usage)
    ensures Add(Add(a, b), c) == Add(Add(a, c), b)
  {
    hide Add;
    AddIsCommutativeMonoid(a, b, c);
    AddIsCommutativeMonoid(a, c, b);
    AddIsCommutativeMonoid(b, c, a);
  }

  lemma {:induction false} RecordLate(m: Memory, todo: seq<Sbom>, results: map<nat, Result>, n: nat, j: nat, r: Result)
    requires DistinctIds(todo) && n <= |todo| && j < |todo| && j !in results
    ensures RecordAll(m, todo, results[j := r], n) ==
            if j < n then RecordResult(RecordAll(m, todo, results, n), todo[j], r) else RecordAll(m, todo, results, n)
    ensures FinishedRuns(results[j := r], n) == FinishedRuns(results, n) + if j < n && r.Finished? then 1 else 0
  {
    if n > 0 {
      RecordLate(m, todo, results, n - 1, j, r);
      hide RecordResult;
      if j < n - 1 && n - 1 in results {
        assert todo[j].id != todo[n - 1].id;
        RecordsCommute(RecordAll(m, todo, results, n - 1), todo[j], r, todo[n - 1], results[n - 1]);
      }
    }
  }

  lemma {:induction false} NothingRecorded(m: Memory, todo: seq<Sbom>, n: nat)
    requires n <= |todo|
    ensures RecordAll(m, todo, map[], n) == m && FinishedRuns(map[], n) == 0
  {
    if n > 0 { NothingRecorded(m, todo, n - 1); }
  }

  /** The shared state is exactly what recording the results so far, in list order, would give. */
  ghost predicate Recorded(c: Config, m: Memory, s: State) {
    && s.memory == RecordAll(m, c.todo, s.results, |c.todo|)
    && s.processed == FinishedRuns(s.results, |c.todo|)
  }

  lemma RecordedKept(c: Config, m: Memory, s: State, a: Step)
    requires Enabled(c, s, a) && Dealt(s) && s.next <= |c.todo| && DistinctIds(c.todo) && Recorded(c, m, s)
    ensures Recorded(c, m, Apply(c, s, a))
  {
    hide RecordAll, FinishedRuns, Add, DistinctIds, Exhausted, Fits;
    if a.Commit? || a.Abort? {
      var j := s.crew[a.w].job;
      assert Holds(s, a.w, j);
      var r := Apply(c, s, a).results[j];
      RecordLate(m, c.todo, s.results, |c.todo|, j, r);
    }
  }

  // ---- every run of the pool ----

  ghost predicate Sound(c: Config, m: Memory, s: State) {
    Staffed(c, s) && Dealt(s) && Recorded(c, m.(lastPass := NO_USAGE), s)
  }

  lemma StartIsSound(c: Config, m: Memory)
    requires ValidConfig(c)
    ensures Sound(c, m, Start(c, m))
  {
    NothingRecorded(m.(lastPass := NO_USAGE), c.todo, |c.todo|);
  }

  lemma {:induction false} AlwaysSound(c: Config, m: Memory, t: seq<State>)
    requires ValidConfig(c) && Execution(c, m, t)
    ensures Sound(c, m, t[|t| - 1])
  {
    hide Dealt, Recorded, Apply, Enabled;
    if |t| == 1 {
      StartIsSound(c, m);
    } else {
      var n := |t| - 1;
      ExecutionPrefix(c, m, t, n);
      AlwaysSound(c, m, t[..n]);
      var i := n - 1;
      assert Next(c, t[i], t[n]);
      var a :| Enabled(c, t[i], a) && t[n] == Apply(c, t[i], a);
      StaffedKept(c, t[i], a);
      DealtKept(c, t[i], a);
      assert t[i].next <= |c.todo|;
      RecordedKept(c, m.(lastPass := NO_USAGE), t[i], a);
    }
  }

  /** A pass is cancelled only by somebody's cancelling it. */
  lemma {:induction false} CancelledByStep(c: Config, m: Memory, t: seq<State>)
    requires Execution(c, m, t) && t[|t| - 1].cancelled
    ensures exists i, j :: 0 <= i && j == i + 1 < |t| && !t[i].cancelled && t[j] == t[i].(cancelled := true)
  {
    hide RecordResult, Add, Exhausted, Fits;
    if |t| > 1 {
      var n := |t| - 1;
      var i := n - 1;
      ExecutionPrefix(c, m, t, n);
      assert Next(c, t[i], t[n]);
      if t[i].cancelled {
        hide Next, Execution;
        CancelledByStep(c, m, t[..n]);
        var k, l :| 0 <= k && l == k + 1 < n && !t[..n][k].cancelled && t[..n][l] == t[..n][k].(cancelled := true);
        assert t[l] == t[k].(cancelled := true);
      } else {
        var a :| Enabled(c, t[i], a) && t[n] == Apply(c, t[i], a);
        assert a.Cancel?;
      }
    }
  }

  /** A run puts off at most the findings that it has: what is left, under way and put off never exceeds them. */
  ghost predicate Accounted(c: Config, s: State) {
    && (forall w :: 0 <= w < |s.crew| && s.crew[w].Busy? ==>
          && s.crew[w].job < |c.findings|
          && s.crew[w].left + s.crew[w].deferred + (if s.crew[w].asking then 1 else 0) <= c.findings[s.crew[w].job])
    && forall j :: j in s.results && s.results[j].Finished? ==>
         j < |c.findings| && s.results[j].deferred <= c.findings[j]
  }

  lemma AccountedKept(c: Config, s: State, a: Step)
    requires Enabled(c, s, a) && Accounted(c, s)
    ensures Accounted(c, Apply(c, s, a))
  {
    hide RecordResult, Add, Exhausted, Fits;
  }

  /** So the deferred findings of a pass are findings of its SBOMs, in every interleaving. */
  lemma {:induction false} DeferredAtMostAll(c: Config, m: Memory, t: seq<State>)
    requires Execution(c, m, t)
    ensures Accounted(c, t[|t| - 1])
  {
    hide Apply, Enabled, Accounted;
    if |t| == 1 {
      StartIsAccounted(c, m);
    } else {
      var n := |t| - 1;
      ExecutionPrefix(c, m, t, n);
      DeferredAtMostAll(c, m, t[..n]);
      var i := n - 1;
      assert Next(c, t[i], t[n]);
      var a :| Enabled(c, t[i], a) && t[n] == Apply(c, t[i], a);
      AccountedKept(c, t[i], a);
    }
  }

  lemma StartIsAccounted(c: Config, m: Memory)
    ensures Accounted(c, Start(c, m))
  {
  }

  // ---- progress ----

  /** A step that some part of the pool takes on its own: no cancellation, no failing run, no help from the cache. */
  predicate Progress(a: Step) { !a.Cancel? && !a.Abort? && !a.ServeCached? }

  ghost predicate CanProgress(c: Config, s: State) {
    exists a :: Progress(a) && Enabled(c, s, a)
  }

  /** A busy worker can always go on. */
  lemma BusyGoesOn(c: Config, s: State, w: nat)
    requires ValidConfig(c) && Staffed(c, s) && Dealt(s) && w < |s.crew| && s.crew[w].Busy?
    ensures CanProgress(c, s)
  {
    var x := s.crew[w];
    assert Holds(s, w, x.job);
    if x.asking {
      assert Fits(c, NO_USAGE.(calls := c.minCalls));
      assert Enabled(c, s, Reply(w, NO_USAGE.(calls := c.minCalls)));
    } else if x.left == 0 {
      assert Enabled(c, s, Commit(w, 0));
    } else if Exhausted(c, s) {
      assert Enabled(c, s, Defer(w));
    } else {
      assert Enabled(c, s, Ask(w));
    }
  }

  /** The pool never blocks: until everybody has left, somebody can act. */
  lemma NeverStuck(c: Config, m: Memory, t: seq<State>)
    requires ValidConfig(c) && Execution(c, m, t) && !Ended(t[|t| - 1])
    ensures CanProgress(c, t[|t| - 1])
  {
    AlwaysSound(c, m, t);
    var s := t[|t| - 1];
    hide Execution, Recorded, Exhausted, Fits, DistinctIds;
    if w :| 0 <= w < |s.crew| && s.crew[w].Busy? {
      BusyGoesOn(c, s, w);
    } else if s.feeding {
      if s.next == |c.todo| {
        assert Enabled(c, s, Close);
      } else {
        assert s.crew[0].Waiting?;
        assert Enabled(c, s, Hand(0));
      }
    } else {
      var w :| 0 <= w < |s.crew| && !s.crew[w].Gone?;
      assert Enabled(c, s, Leave(w));
    }
  }

  function Unhanded(findings: seq<nat>): nat {
    if findings == [] then 0 else 2 * findings[0] + 2 + Unhanded(findings[1..])
  }

  /** What is left to do. */
  function Measure(c: Config, s: State): nat
    requires s.next <= |c.findings|
  {
    Unhanded(c.findings[s.next..]) + Weight(s.crew) + (if s.cancelled then 0 else 1) + if s.feeding then 1 else 0
  }

  lemma StepShrinks(c: Config, s: State, a: Step)
    requires |c.findings| == |c.todo| && s.next <= |c.todo| && Enabled(c, s, a)
    ensures Apply(c, s, a).next <= |c.todo| && Measure(c, Apply(c, s, a)) < Measure(c, s)
  {
    hide RecordResult, Add, Exhausted, Fits;
    var s' := Apply(c, s, a);
    if a.Hand? { assert c.findings[s.next..][1..] == c.findings[s'.next..]; }
    if !a.Cancel? && !a.Close? {
      var w := a.w;
      assert s'.crew == s.crew[w := s'.crew[w]];
      SwapWorker(s.crew, w, s'.crew[w]);
    }
  }

  /** Every run of the pool is finite, and its length is bounded by the work there was. */
  lemma {:induction false} AlwaysEnds(c: Config, m: Memory, t: seq<State>)
    requires ValidConfig(c) && Execution(c, m, t)
    ensures t[|t| - 1].next <= |c.todo| && |t| - 1 + Measure(c, t[|t| - 1]) <= Unhanded(c.findings) + c.workers + 2
  {
    hide Apply, Enabled;
    if |t| == 1 {
      FreshCrew(c.workers, t[0].crew);
      assert c.findings[0..] == c.findings;
    } else {
      var n := |t| - 1;
      ExecutionPrefix(c, m, t, n);
      AlwaysEnds(c, m, t[..n]);
      var i := n - 1;
      assert Next(c, t[i], t[n]);
      var a :| Enabled(c, t[i], a) && t[n] == Apply(c, t[i], a);
      StepShrinks(c, t[i], a);
    }
  }

  // ---- outcomes ----

  ghost predicate Completes(c: Config, m: Memory, t: seq<State>) {
    Execution(c, m, t) && Ended(t[|t| - 1])
  }

  /** When everybody has left, each SBOM handed out has its one result, which is all of them unless the pass was
      cancelled; the watcher's memory is those results recorded in list order. */
  lemma Outcome(c: Config, m: Memory, t: seq<State>)
    requires ValidConfig(c) && Completes(c, m, t)
    ensures var s := t[|t| - 1];
            && (forall j: nat :: j in s.results <==> j < s.next) && s.next <= |c.todo|
            && (!s.cancelled ==> s.next == |c.todo|)
            && s.memory == RecordAll(m.(lastPass := NO_USAGE), c.todo, s.results, |c.todo|)
            && s.processed == FinishedRuns(s.results, |c.todo|)
  {
    AlwaysSound(c, m, t);
    var s := t[|t| - 1];
    hide Execution, RecordAll, FinishedRuns, DistinctIds;
    forall j: nat | j < s.next ensures j in s.results {
      assert !Held(s, j);
    }
  }

  /** Given each run's result, neither the number of workers nor the limits nor the schedule shows in what is left. */
  lemma ScheduleIsIrrelevant(c: Config, c': Config, m: Memory, t: seq<State>, t': seq<State>)
    requires ValidConfig(c) && ValidConfig(c') && c.todo == c'.todo
    requires Completes(c, m, t) && Completes(c', m, t')
    requires t[|t| - 1].results == t'[|t'| - 1].results
    ensures t[|t| - 1].memory == t'[|t'| - 1].memory && t[|t| - 1].processed == t'[|t'| - 1].processed
  {
    hide Completes, RecordAll, FinishedRuns, ValidConfig;
    LastOfRun(c, m, t);
    LastOfRun(c', m, t');
    Outcome(c, m, t);
    Outcome(c', m, t');
  }

  lemma LastOfRun(c: Config, m: Memory, t: seq<State>)
    requires Completes(c, m, t)
    ensures t != []
  {
  }

  /** The pool does what the sequence-of-passes view of a pass says. */
  lemma PoolCompletesPass(o: Settings, m: Memory, listing: seq<Sbom>, now: int, c: Config, t: seq<State>)
    requires DistinctIds(listing) && ValidConfig(c)
    requires c.todo == TodoOf(o, m.(lastPass := NO_USAGE), listing, now)
    requires Completes(c, Select(o, m.(lastPass := NO_USAGE), listing, now).memory, t)
    ensures t[|t| - 1].memory == AfterPass(o, m, listing, now, t[|t| - 1].results)
  {
    var m0 := m.(lastPass := NO_USAGE);
    var x := Select(o, m0, listing, now);
    Outcome(c, x.memory, t);
    SelectKeepsCost(o, m0, listing, now);
    hide RecordAll, Completes, Select, ValidConfig;
    assert x.memory.(lastPass := NO_USAGE) == x.memory;
  }

  lemma {:induction false} SelectKeepsCost(o: Settings, m: Memory, listing: seq<Sbom>, now: int)
    ensures Select(o, m, listing, now).memory.lastPass == m.lastPass
    ensures Select(o, m, listing, now).memory.usage == m.usage
  {
    hide NeedsWork, SkippedAsEmpty;
    if listing != [] { SelectKeepsCost(o, m, listing[..|listing| - 1], now); }
  }
}
