/** A provider wrapped with the rules-only fallback, and what an outage of it leaves in the cache. */
module Fallback {
  import opened Options
  import opened Evidence
  import opened Assessments
  import opened AssessCache
  import opened AssessLoop
  import Heuristics

  /** Both providers' names: the cache knows the pair by this one name, whichever of them answers. */
  function Name(primary: string): string { primary + "+" + Heuristics.NAME }

  /** The primary's answer, or the rules' verdict with a note of the error. What a failed call cost is lost. */
  function WithFallback(primary: Reply, r: Report): Reply {
    match primary
    case Answer(_) => primary
    case Failure(error, _) =>
      var a := Heuristics.Assess(r);
      Answer(a.(reasoning := PrimaryFailed(error, a.reasoning)))
  }

  /** The fallback never fails, keeps the rules' confidence, and costs nothing. */
  lemma FallbackAnswers(primary: Reply, r: Report)
    ensures WithFallback(primary, r).Answer?
    ensures primary.Failure? ==>
              var a := WithFallback(primary, r).assessment;
              a.usage == NO_USAGE && a.confidence == Heuristics.Assess(r).confidence &&
              a.status == Heuristics.Assess(r).status
  {
    hide Heuristics.RuleFor, Heuristics.ActionFor;
  }

  /** A turn whose provider is such a pair. */
  predicate Wrapped(t: Turn, primary: Reply) { t.reply == WithFallback(primary, t.report) }

  // ---- after an outage ----

  /** A verdict the rules gave during an outage is served in a later run, when the primary would answer: the key of the
      question has the pair's one name. */
  lemma OutageVerdictIsServed(c: Setup, files: map<string, CacheEntry>, spent: Usage, spent': Usage, first: Turn,
                              second: Turn, digest: string -> string, primary: string, commit: string, repo: string,
                              error: string, cost: Usage, answer: Assessment)
    requires c.readCache && c.enabled && c.ttl <= 0 && c.limits.None?
    requires first.key == KeyFor(digest, Name(primary), commit, repo, first.report)
    requires second.key == KeyFor(digest, Name(primary), commit, repo, second.report)
    requires Lookup(files, true, c.ttl, first.file, first.key, first.now).None?
    requires first.writes && first.key == second.key && first.file == second.file
    requires Wrapped(first, Failure(error, cost)) && Wrapped(second, Answer(answer))
    ensures var left := Loop(c, files, spent, [first]).files;
            var v := Loop(c, left, spent', [second]).verdicts[0];
            && v.Cached? && left[first.file].key.provider == primary + "+" + "heuristic"
            && v.assessment.status == Heuristics.Assess(first.report).status
            && v.assessment.reasoning == PrimaryFailed(error, Heuristics.Assess(first.report).reasoning)
  {
    FallbackAnswers(Failure(error, cost), first.report);
    hide Heuristics.Assess;
    RunsConcat(c, files, spent, [first], [second]);
    StoredAnswerIsServed(c, files, spent, first, second);
    assert [first] + [second] == [first, second];
    hide Lookup, Stored;
    SpentIsNotRead(c, Loop(c, files, spent, [first]).files, Loop(c, files, spent, [first]).spent, spent', [second]);
  }

  lemma SameNext(c: Setup, x: State, y: State, t: Turn)
    requires x.files == y.files && x.spent == y.spent
    ensures Next(c, x, t).files == Next(c, y, t).files && Next(c, x, t).spent == Next(c, y, t).spent
    ensures Decided(c, x, t) == Decided(c, y, t)
    ensures Next(c, x, t).verdicts == x.verdicts + [Decided(c, x, t)]
    ensures Next(c, y, t).verdicts == y.verdicts + [Decided(c, y, t)]
  {
    hide Lookup, Stored, Charged, Exceeded, Add;
  }

  /** A run over what another one left is the second half of both together. */
  lemma {:induction false} RunsConcat(c: Setup, files: map<string, CacheEntry>, spent: Usage, s: seq<Turn>,
                                      t: seq<Turn>)
    ensures var one := Loop(c, files, spent, s);
            var two, both := Loop(c, one.files, one.spent, t), Loop(c, files, spent, s + t);
            both.files == two.files && both.spent == two.spent && both.verdicts == one.verdicts + two.verdicts
  {
    hide Lookup, Stored, Charged, Exceeded, Add;
    if t == [] {
      assert s + t == s;
    } else {
      var n := |t| - 1;
      assert (s + t)[..|s + t| - 1] == s + t[..n] && (s + t)[|s + t| - 1] == t[n];
      RunsConcat(c, files, spent, s, t[..n]);
      var one := Loop(c, files, spent, s);
      SameNext(c, Loop(c, files, spent, s + t[..n]), Loop(c, one.files, one.spent, t[..n]), t[n]);
      hide Next, Decided;
    }
  }

  lemma {:induction false} SpentIsNotRead(c: Setup, files: map<string, CacheEntry>, spent: Usage, spent': Usage,
                                          t: seq<Turn>)
    requires c.limits.None?
    ensures Loop(c, files, spent, t).files == Loop(c, files, spent', t).files
    ensures Loop(c, files, spent, t).verdicts == Loop(c, files, spent', t).verdicts
  {
    hide Lookup, Stored, Charged;
    if t != [] { SpentIsNotRead(c, files, spent, spent', t[..|t| - 1]); }
  }

  // ---- exactly when a cache shared by many runs is transparent ----

  predicate Stores(t: Turn) { t.reply.Answer? && t.writes }

  /** The verdict that the first stored answer to a key left. */
  function FirstAnswer(turns: seq<Turn>, k: CacheKey): Option<Assessment> {
    if turns == [] then None
    else
      var before, last := FirstAnswer(turns[..|turns| - 1], k), turns[|turns| - 1];
      if before.Some? then before
      else if last.key == k && Stores(last) then Some(WithoutUsage(last.reply.assessment)) else None
  }

  /** Keys have files of their own. */
  ghost predicate OwnFiles(turns: seq<Turn>) {
    forall s, t :: s in turns && t in turns ==> (s.file == t.file <==> s.key == t.key)
  }

  ghost predicate HeldFor(files: map<string, CacheEntry>, before: seq<Turn>, t: Turn) {
    match FirstAnswer(before, t.key)
    case None => t.file !in files
    case Some(a) => t.file in files && files[t.file].key == t.key && files[t.file].assessment == a
  }

  ghost predicate Plain(c: Setup) { c.readCache && c.enabled && c.ttl <= 0 && c.limits.None? }

  lemma OneMoreHeld(c: Setup, s: State, before: seq<Turn>, t: Turn, u: Turn)
    requires Plain(c) && HeldFor(s.files, before, t) && HeldFor(s.files, before, u) &&
             (t.file == u.file <==> t.key == u.key)
    ensures HeldFor(Next(c, s, t).files, before + [t], u)
    ensures WithoutUsage(Decided(c, s, t).assessment) ==
            match FirstAnswer(before, t.key)
            case None => WithoutUsage(Charged(t.reply, c.provider))
            case Some(a) => WithoutUsage(a)
    ensures !Decided(c, s, t).Deferred?
  {
    hide NO_USAGE;
    assert (before + [t])[..|before|] == before;
  }

  lemma {:induction false} HeldAfter(c: Setup, turns: seq<Turn>, n: nat, spent: Usage)
    requires Plain(c) && OwnFiles(turns) && n <= |turns|
    ensures forall u :: u in turns ==> HeldFor(Loop(c, map[], spent, turns[..n]).files, turns[..n], u)
  {
    hide HeldFor, Next, OwnFiles;
    if n == 0 {
      forall u | u in turns ensures HeldFor(map[], [], u) { NothingHeld(u); }
      assert turns[..0] == [];
    } else {
      HeldAfter(c, turns, n - 1, spent);
      assert turns[..n][..n - 1] == turns[..n - 1] && turns[..n] == turns[..n - 1] + [turns[n - 1]];
      forall u | u in turns ensures HeldFor(Loop(c, map[], spent, turns[..n]).files, turns[..n], u) {
        FilesApart(turns, turns[n - 1], u);
        OneMoreHeld(c, Loop(c, map[], spent, turns[..n - 1]), turns[..n - 1], turns[n - 1], u);
      }
    }
  }

  lemma NothingHeld(u: Turn)
    ensures HeldFor(map[], [], u)
  {
  }

  lemma FilesApart(turns: seq<Turn>, t: Turn, u: Turn)
    requires OwnFiles(turns) && t in turns && u in turns
    ensures t.file == u.file <==> t.key == u.key
  {
  }

  /** Turn i is the first to store an answer to the question that turn j asks again. */
  ghost predicate FirstStored(turns: seq<Turn>, i: nat, j: nat) {
    && i < j < |turns| && turns[i].key == turns[j].key && Stores(turns[i])
    && forall h :: 0 <= h < i && turns[h].key == turns[j].key ==> !Stores(turns[h])
  }

  lemma {:induction false} FirstAnswerIs(turns: seq<Turn>, j: nat, n: nat)
    requires n <= j < |turns|
    ensures FirstAnswer(turns[..n], turns[j].key).Some? <==> exists i: nat :: i < n && FirstStored(turns, i, j)
    ensures forall i: nat :: i < n && FirstStored(turns, i, j) ==>
              FirstAnswer(turns[..n], turns[j].key) == Some(WithoutUsage(turns[i].reply.assessment))
  {
    if n == 0 {
      assert turns[..0] == [];
    } else {
      FirstAnswerIs(turns, j, n - 1);
      FirstAnswerStep(turns, turns[j].key, n);
      hide FirstAnswer, Stores, WithoutUsage;
      if FirstAnswer(turns[..n - 1], turns[j].key).None? && turns[n - 1].key == turns[j].key && Stores(turns[n - 1]) {
        NoneStored(turns, j, n - 1);
        assert FirstStored(turns, n - 1, j);
      }
    }
  }

  lemma FirstAnswerStep(turns: seq<Turn>, k: CacheKey, n: nat)
    requires 0 < n <= |turns|
    ensures FirstAnswer(turns[..n], k) ==
            if FirstAnswer(turns[..n - 1], k).None? && turns[n - 1].key == k && Stores(turns[n - 1])
            then Some(WithoutUsage(turns[n - 1].reply.assessment)) else FirstAnswer(turns[..n - 1], k)
  {
    assert turns[..n][..n - 1] == turns[..n - 1] && turns[..n][n - 1] == turns[n - 1];
  }

  lemma {:induction false} NoneStored(turns: seq<Turn>, j: nat, n: nat)
    requires n <= j < |turns| && FirstAnswer(turns[..n], turns[j].key).None?
    ensures forall h :: 0 <= h < n && turns[h].key == turns[j].key ==> !Stores(turns[h])
  {
    if n > 0 {
      FirstAnswerStep(turns, turns[j].key, n);
      hide FirstAnswer, Stores, WithoutUsage;
      NoneStored(turns, j, n - 1);
    }
  }

  ghost predicate Transparent(c: Setup, spent: Usage, turns: seq<Turn>) {
    forall j :: 0 <= j < |turns| ==> AsIfAsked(Loop(c, map[], spent, turns).verdicts[j], turns[j], c.provider)
  }

  lemma {:induction false} VerdictAt(c: Setup, spent: Usage, turns: seq<Turn>, j: nat)
    requires j < |turns|
    ensures Loop(c, map[], spent, turns).verdicts[j] == Decided(c, Loop(c, map[], spent, turns[..j]), turns[j])
    decreases |turns|
  {
    hide Lookup, Stored, Charged, Exceeded, Add;
    var n := |turns| - 1;
    if j < n {
      VerdictAt(c, spent, turns[..n], j);
      assert turns[..n][..j] == turns[..j];
    }
  }

  /** Over any sequence of runs that starts with an empty cache, here put end to end, reading it changes no verdict
      but for its cost exactly when each question asked again gets the answer that was stored for it first. */
  lemma TransparentExactly(c: Setup, spent: Usage, turns: seq<Turn>)
    requires Plain(c) && OwnFiles(turns)
    ensures Transparent(c, spent, turns) <==>
            forall i: nat, j: nat :: FirstStored(turns, i, j) ==>
              WithoutUsage(turns[i].reply.assessment) == WithoutUsage(Charged(turns[j].reply, c.provider))
  {
    forall j: nat | j < |turns|
      ensures AsIfAsked(Loop(c, map[], spent, turns).verdicts[j], turns[j], c.provider) <==>
              forall i: nat :: FirstStored(turns, i, j) ==>
                WithoutUsage(turns[i].reply.assessment) == WithoutUsage(Charged(turns[j].reply, c.provider))
    {
      TransparentAt(c, spent, turns, j);
    }
    hide AsIfAsked, Charged, FirstStored, WithoutUsage;
  }

  lemma TransparentAt(c: Setup, spent: Usage, turns: seq<Turn>, j: nat)
    requires Plain(c) && OwnFiles(turns) && j < |turns|
    ensures AsIfAsked(Loop(c, map[], spent, turns).verdicts[j], turns[j], c.provider) <==>
            forall i: nat :: FirstStored(turns, i, j) ==>
              WithoutUsage(turns[i].reply.assessment) == WithoutUsage(Charged(turns[j].reply, c.provider))
  {
    VerdictAt(c, spent, turns, j);
    HeldAfter(c, turns, j, spent);
    var t := turns[j];
    OneMoreHeld(c, Loop(c, map[], spent, turns[..j]), turns[..j], t, t);
    FirstAnswerIs(turns, j, j);
    hide Loop, Decided, Charged, HeldFor, FirstAnswer, OwnFiles;
    assert forall i: nat :: FirstStored(turns, i, j) ==> i < j;
    hide FirstStored;
  }

  /** The same for a primary that answers by key alone when it answers at all: the cache is transparent exactly when no
      question is asked both in and out of an outage, and two outages that meet the same question agree in their error
      and in the rules' verdict. */
  lemma TransparentThroughOutages(c: Setup, spent: Usage, turns: seq<Turn>, primary: seq<Reply>,
                                  answers: map<CacheKey, Assessment>)
    requires Plain(c) && OwnFiles(turns) && |primary| == |turns|
    requires forall i :: 0 <= i < |turns| ==> Wrapped(turns[i], primary[i])
    requires forall i :: 0 <= i < |turns| && primary[i].Answer? ==>
               turns[i].key in answers && primary[i].assessment == answers[turns[i].key] &&
               !answers[turns[i].key].reasoning.PrimaryFailed?
    ensures Transparent(c, spent, turns) <==>
            forall i: nat, j: nat :: FirstStored(turns, i, j) ==>
              || (primary[i].Answer? && primary[j].Answer?)
              || (primary[i].Failure? && primary[j].Failure? && primary[i].error == primary[j].error &&
                  Heuristics.Assess(turns[i].report) == Heuristics.Assess(turns[j].report))
  {
    TransparentExactly(c, spent, turns);
    forall i: nat, j: nat | FirstStored(turns, i, j)
      ensures WithoutUsage(turns[i].reply.assessment) == WithoutUsage(Charged(turns[j].reply, c.provider)) <==>
              || (primary[i].Answer? && primary[j].Answer?)
              || (primary[i].Failure? && primary[j].Failure? && primary[i].error == primary[j].error &&
                  Heuristics.Assess(turns[i].report) == Heuristics.Assess(turns[j].report))
    {
      SameReplies(turns[i], turns[j], primary[i], primary[j], c.provider);
    }
    hide Transparent, Charged, Heuristics.Assess, FirstStored;
  }

  lemma SameReplies(s: Turn, t: Turn, p: Reply, q: Reply, provider: string)
    requires Wrapped(s, p) && Wrapped(t, q)
    requires p.Answer? ==> !p.assessment.reasoning.PrimaryFailed?
    requires q.Answer? ==> !q.assessment.reasoning.PrimaryFailed?
    requires p.Answer? && q.Answer? ==> p == q
    ensures WithoutUsage(s.reply.assessment) == WithoutUsage(Charged(t.reply, provider)) <==>
            || (p.Answer? && q.Answer?)
            || (p.Failure? && q.Failure? && p.error == q.error &&
                Heuristics.Assess(s.report) == Heuristics.Assess(t.report))
  {
    NothingCharged(s.report);
    NothingCharged(t.report);
    hide Heuristics.Assess;
    if p.Failure? && q.Failure? {
      var a, b := Heuristics.Assess(s.report), Heuristics.Assess(t.report);
      assert a == b <==>
             a.(reasoning := PrimaryFailed("", a.reasoning)) == b.(reasoning := PrimaryFailed("", b.reasoning));
    }
  }

  lemma NothingCharged(r: Report)
    ensures Heuristics.Assess(r).usage == NO_USAGE
  {
    hide Heuristics.RuleFor, Heuristics.ActionFor;
  }
}
