/** The watcher's memory across passes: which SBOMs a pass selects and what its runs leave behind. */
module Watch {
  import opened Options
  import opened Assessments

  /** One listed SBOM; fingerprint stands for its vulnerability count and ingestion time. */
  datatype Sbom = Sbom(id: string, fingerprint: string, vulnCount: nat)

  datatype Memory = Memory(processed: map<string, string>, processedAt: map<string, int>, usage: Usage, lastPass: Usage)

  datatype Settings = Settings(reassessAfter: int, skipZero: bool)

  /** How one run ended: with an error, or with its cost, its deferred findings and the time. */
  datatype Result = Failed | Finished(usage: Usage, deferred: nat, at: int)

  predicate Due(o: Settings, m: Memory, id: string, now: int) {
    o.reassessAfter > 0 && (id !in m.processedAt || now - m.processedAt[id] >= o.reassessAfter)
  }

  predicate Current(m: Memory, s: Sbom) {
    s.id in m.processed && m.processed[s.id] == s.fingerprint
  }

  /** New, changed or due. */
  predicate NeedsWork(o: Settings, m: Memory, s: Sbom, now: int) {
    !Current(m, s) || Due(o, m, s.id, now)
  }

  predicate SkippedAsEmpty(o: Settings, s: Sbom) { o.skipZero && s.vulnCount == 0 }

  function MarkDone(m: Memory, s: Sbom, at: int): Memory {
    m.(processed := m.processed[s.id := s.fingerprint], processedAt := m.processedAt[s.id := at])
  }

  datatype Selection = Selection(memory: Memory, todo: seq<Sbom>)

  function SelectOne(o: Settings, x: Selection, s: Sbom, now: int): Selection {
    if !NeedsWork(o, x.memory, s, now) then x
    else if SkippedAsEmpty(o, s) then x.(memory := MarkDone(x.memory, s, now))
    else x.(todo := x.todo + [s])
  }

  function Select(o: Settings, m: Memory, listing: seq<Sbom>, now: int): Selection {
    if listing == [] then Selection(m, [])
    else SelectOne(o, Select(o, m, listing[..|listing| - 1], now), listing[|listing| - 1], now)
  }

  /** What the locked section of a worker does with one run's result. */
  function RecordResult(m: Memory, s: Sbom, r: Result): Memory {
    match r
    case Failed => m
    case Finished(usage, deferred, at) =>
      var paid := m.(usage := Add(m.usage, usage), lastPass := Add(m.lastPass, usage));
      if deferred > 0 then paid else MarkDone(paid, s, at)
  }

  function RecordAll(m: Memory, todo: seq<Sbom>, results: map<nat, Result>, n: nat): Memory
    requires n <= |todo|
  {
    if n == 0 then m
    else
      var before := RecordAll(m, todo, results, n - 1);
      if n - 1 in results then RecordResult(before, todo[n - 1], results[n - 1]) else before
  }

  ghost predicate DistinctIds(listing: seq<Sbom>) {
    forall i, j :: 0 <= i < j < |listing| ==> listing[i].id != listing[j].id
  }

  predicate Succeeded(results: map<nat, Result>, j: nat) {
    j in results && results[j].Finished? && results[j].deferred == 0
  }

  // ---- one SBOM's share of the memory ----

  datatype Share = Share(fingerprint: Option<string>, at: Option<int>)

  function ShareOf(m: Memory, id: string): Share {
    Share(if id in m.processed then Some(m.processed[id]) else None,
          if id in m.processedAt then Some(m.processedAt[id]) else None)
  }

  /** Whether an SBOM needs work depends on its own share alone. */
  lemma NeedsWorkByShare(o: Settings, m: Memory, m': Memory, s: Sbom, now: int)
    requires ShareOf(m, s.id) == ShareOf(m', s.id)
    ensures NeedsWork(o, m, s, now) == NeedsWork(o, m', s, now)
  {
  }

  ghost predicate Unlisted(listing: seq<Sbom>, id: string) {
    forall s :: s in listing ==> s.id != id
  }

  lemma {:induction false} SelectUnlisted(o: Settings, m: Memory, listing: seq<Sbom>, now: int, id: string)
    requires Unlisted(listing, id)
    ensures var x := Select(o, m, listing, now);
            ShareOf(x.memory, id) == ShareOf(m, id) && Unlisted(x.todo, id)
  {
    hide NeedsWork, SkippedAsEmpty;
    if listing != [] {
      var n := |listing| - 1;
      assert listing == listing[..n] + [listing[n]];
      SelectUnlisted(o, m, listing[..n], now, id);
    }
  }

  /** With distinct ids a pass decides on an SBOM by the share it started with. */
  lemma {:induction false} SelectListed(o: Settings, m: Memory, listing: seq<Sbom>, now: int, i: nat)
    requires DistinctIds(listing) && i < |listing|
    ensures var x, s := Select(o, m, listing, now), listing[i];
            && (s in x.todo <==> NeedsWork(o, m, s, now) && !SkippedAsEmpty(o, s))
            && (s in x.todo <==> !Unlisted(x.todo, s.id))
            && ShareOf(x.memory, s.id) == if NeedsWork(o, m, s, now) && SkippedAsEmpty(o, s)
                                          then Share(Some(s.fingerprint), Some(now)) else ShareOf(m, s.id)
  {
    hide SkippedAsEmpty;
    var n := |listing| - 1;
    var s, x := listing[i], Select(o, m, listing[..n], now);
    if i < n {
      SelectListed(o, m, listing[..n], now, i);
      assert listing[n].id != s.id;
    } else {
      SelectUnlisted(o, m, listing[..n], now, s.id);
      NeedsWorkByShare(o, m, x.memory, s, now);
      hide NeedsWork;
      assert s !in x.todo;
    }
  }

  lemma {:induction false} TodoIsDistinct(o: Settings, m: Memory, listing: seq<Sbom>, now: int)
    requires DistinctIds(listing)
    ensures DistinctIds(Select(o, m, listing, now).todo)
    ensures forall s :: s in Select(o, m, listing, now).todo ==> s in listing
  {
    hide NeedsWork, SkippedAsEmpty;
    if listing != [] {
      var n := |listing| - 1;
      assert listing == listing[..n] + [listing[n]];
      TodoIsDistinct(o, m, listing[..n], now);
      var todo := Select(o, m, listing[..n], now).todo;
      forall j | 0 <= j < |todo| ensures todo[j].id != listing[n].id {
        assert todo[j] in todo;
        var k :| 0 <= k < n && listing[..n][k] == todo[j];
        assert listing[k].id != listing[n].id;
      }
    }
  }

  lemma {:induction false} RecordUnlisted(m: Memory, todo: seq<Sbom>, results: map<nat, Result>, n: nat, id: string)
    requires n <= |todo| && forall j :: 0 <= j < n ==> todo[j].id != id
    ensures ShareOf(RecordAll(m, todo, results, n), id) == ShareOf(m, id)
  {
    hide Add;
    if n > 0 { RecordUnlisted(m, todo, results, n - 1, id); }
  }

  lemma {:induction false} RecordListed(m: Memory, todo: seq<Sbom>, results: map<nat, Result>, n: nat, j: nat)
    requires DistinctIds(todo) && j < n <= |todo|
    ensures ShareOf(RecordAll(m, todo, results, n), todo[j].id) ==
            if Succeeded(results, j) then Share(Some(todo[j].fingerprint), Some(results[j].at))
              else ShareOf(m, todo[j].id)
  {
    hide Add;
    if j < n - 1 {
      RecordListed(m, todo, results, n - 1, j);
      assert todo[n - 1].id != todo[j].id;
    } else {
      RecordUnlisted(m, todo, results, n - 1, todo[j].id);
    }
  }

  // ---- passes ----

  function TodoOf(o: Settings, m: Memory, listing: seq<Sbom>, now: int): seq<Sbom> { Select(o, m, listing, now).todo }

  /** The memory after a pass whose runs ended with results, by index into the selected SBOMs. */
  function AfterPass(o: Settings, m: Memory, listing: seq<Sbom>, now: int, results: map<nat, Result>): Memory {
    var x := Select(o, m.(lastPass := NO_USAGE), listing, now);
    RecordAll(x.memory, x.todo, results, |x.todo|)
  }

  lemma LastPassIsNotRead(o: Settings, m: Memory, s: Sbom, now: int)
    ensures ShareOf(m.(lastPass := NO_USAGE), s.id) == ShareOf(m, s.id)
    ensures NeedsWork(o, m.(lastPass := NO_USAGE), s, now) == NeedsWork(o, m, s, now)
  {
  }

  /** The run for s succeeded in this pass. */
  ghost predicate Done(todo: seq<Sbom>, results: map<nat, Result>, s: Sbom, at: int) {
    exists j :: 0 <= j < |todo| && todo[j] == s && Succeeded(results, j) && results[j].at == at
  }

  /** What a pass leaves of a listed SBOM's share: the new fingerprint after a successful run or the empty skip,
      otherwise exactly what was there. */
  lemma PassShare(o: Settings, m: Memory, listing: seq<Sbom>, now: int, results: map<nat, Result>, i: nat)
    requires DistinctIds(listing) && i < |listing|
    ensures var s, m0 := listing[i], m.(lastPass := NO_USAGE);
            var todo, after := TodoOf(o, m0, listing, now), ShareOf(AfterPass(o, m, listing, now, results), s.id);
            && (s in todo <==> NeedsWork(o, m, s, now) && !SkippedAsEmpty(o, s))
            && (NeedsWork(o, m, s, now) && SkippedAsEmpty(o, s) ==> after == Share(Some(s.fingerprint), Some(now)))
            && (forall at :: Done(todo, results, s, at) ==> after == Share(Some(s.fingerprint), Some(at)))
            && (!(NeedsWork(o, m, s, now) && SkippedAsEmpty(o, s)) && (forall at :: !Done(todo, results, s, at)) ==>
                  after == ShareOf(m, s.id))
  {
    var s, m0 := listing[i], m.(lastPass := NO_USAGE);
    var x := Select(o, m0, listing, now);
    LastPassIsNotRead(o, m, s, now);
    SelectListed(o, m0, listing, now, i);
    TodoIsDistinct(o, m0, listing, now);
    hide Select, NeedsWork, SkippedAsEmpty, RecordAll;
    if s in x.todo {
      var j :| 0 <= j < |x.todo| && x.todo[j] == s;
      RecordListed(x.memory, x.todo, results, |x.todo|, j);
      forall k | 0 <= k < |x.todo| && x.todo[k] == s ensures k == j {}
      if Succeeded(results, j) { assert Done(x.todo, results, s, results[j].at); }
    } else {
      forall j | 0 <= j < |x.todo| ensures x.todo[j].id != s.id { assert x.todo[j] in x.todo; }
      RecordUnlisted(x.memory, x.todo, results, |x.todo|, s.id);
    }
  }

  lemma PassShareUnlisted(o: Settings, m: Memory, listing: seq<Sbom>, now: int, results: map<nat, Result>, id: string)
    requires Unlisted(listing, id)
    ensures ShareOf(AfterPass(o, m, listing, now, results), id) == ShareOf(m, id)
  {
    var x := Select(o, m.(lastPass := NO_USAGE), listing, now);
    SelectUnlisted(o, m.(lastPass := NO_USAGE), listing, now, id);
    forall j | 0 <= j < |x.todo| ensures x.todo[j].id != id { assert x.todo[j] in x.todo; }
    RecordUnlisted(x.memory, x.todo, results, |x.todo|, id);
  }

  /** What a pass selects and what it skips as empty, by the memory alone: a listed SBOM that is new, changed, or
      due. */
  lemma SelectedExactly(o: Settings, m: Memory, listing: seq<Sbom>, now: int, i: nat)
    requires DistinctIds(listing) && i < |listing|
    ensures var s := listing[i];
            var wanted := || s.id !in m.processed || m.processed[s.id] != s.fingerprint
                          || (o.reassessAfter > 0 &&
                              (s.id !in m.processedAt || now - m.processedAt[s.id] >= o.reassessAfter));
            var empty, x := o.skipZero && s.vulnCount == 0, Select(o, m, listing, now);
            && (s in x.todo <==> wanted && !empty)
            && (wanted && empty ==> ShareOf(x.memory, s.id) == Share(Some(s.fingerprint), Some(now)))
            && (!(wanted && empty) ==> ShareOf(x.memory, s.id) == ShareOf(m, s.id))
  {
    SelectListed(o, m, listing, now, i);
    hide Select;
  }

  ghost predicate Increasing(at: seq<nat>) {
    forall i, j :: 0 <= i < j < |at| ==> at[i] < at[j]
  }

  /** The selection keeps the order of the listing. */
  lemma {:induction false} SelectionIsInOrder(o: Settings, m: Memory, listing: seq<Sbom>, now: int)
    returns (at: seq<nat>)
    ensures |at| == |TodoOf(o, m, listing, now)| && Increasing(at)
    ensures forall i :: 0 <= i < |at| ==> at[i] < |listing| && listing[at[i]] == TodoOf(o, m, listing, now)[i]
  {
    hide NeedsWork, SkippedAsEmpty;
    at := [];
    if listing != [] {
      var n := |listing| - 1;
      at := SelectionIsInOrder(o, m, listing[..n], now);
      var front := Select(o, m, listing[..n], now);
      if NeedsWork(o, front.memory, listing[n], now) && !SkippedAsEmpty(o, listing[n]) { at := at + [n]; }
    }
  }

  // ---- sequences of passes ----

  datatype Pass = Pass(listing: seq<Sbom>, now: int, results: map<nat, Result>)

  function After(o: Settings, m: Memory, passes: seq<Pass>): Memory {
    if passes == [] then m
    else
      var p := passes[|passes| - 1];
      AfterPass(o, After(o, m, passes[..|passes| - 1]), p.listing, p.now, p.results)
  }

  /** The SBOMs that pass k selects. */
  function TodoAt(o: Settings, m: Memory, passes: seq<Pass>, k: nat): seq<Sbom>
    requires k < |passes|
  {
    TodoOf(o, After(o, m, passes[..k]).(lastPass := NO_USAGE), passes[k].listing, passes[k].now)
  }

  ghost predicate ListedThroughout(passes: seq<Pass>, s: Sbom) {
    forall k :: 0 <= k < |passes| ==> DistinctIds(passes[k].listing) && s in passes[k].listing
  }

  ghost predicate ClockForward(passes: seq<Pass>) {
    forall j, k :: 0 <= j <= k < |passes| ==> passes[j].now <= passes[k].now
  }

  ghost predicate NotDone(todo: seq<Sbom>, results: map<nat, Result>, s: Sbom) {
    forall at :: !Done(todo, results, s, at)
  }

  ghost predicate NeverDone(o: Settings, m: Memory, passes: seq<Pass>, s: Sbom) {
    forall k :: 0 <= k < |passes| ==> NotDone(TodoAt(o, m, passes, k), passes[k].results, s)
  }

  lemma PassesPrefix(o: Settings, m: Memory, passes: seq<Pass>, n: nat)
    requires n <= |passes|
    ensures forall k :: 0 <= k < n ==> TodoAt(o, m, passes[..n], k) == TodoAt(o, m, passes, k)
  {
    forall k | 0 <= k < n ensures TodoAt(o, m, passes[..n], k) == TodoAt(o, m, passes, k) {
      assert passes[..n][..k] == passes[..k];
    }
  }

  lemma {:induction false} ShareUntilDone(o: Settings, m: Memory, passes: seq<Pass>, s: Sbom)
    requires ListedThroughout(passes, s) && NeverDone(o, m, passes, s) && !SkippedAsEmpty(o, s)
    ensures ShareOf(After(o, m, passes), s.id) == ShareOf(m, s.id)
  {
    hide SkippedAsEmpty, TodoOf, AfterPass, NotDone, ShareOf, NeedsWork;
    if passes != [] {
      var n := |passes| - 1;
      var p, was := passes[n], After(o, m, passes[..n]);
      PassesPrefix(o, m, passes, n);
      ShareUntilDone(o, m, passes[..n], s);
      assert NotDone(TodoAt(o, m, passes, n), p.results, s);
      UndonePassKeepsShare(o, was, p, s);
    }
  }

  lemma UndonePassKeepsShare(o: Settings, m: Memory, p: Pass, s: Sbom)
    requires DistinctIds(p.listing) && s in p.listing && !SkippedAsEmpty(o, s)
    requires NotDone(TodoOf(o, m.(lastPass := NO_USAGE), p.listing, p.now), p.results, s)
    ensures ShareOf(AfterPass(o, m, p.listing, p.now, p.results), s.id) == ShareOf(m, s.id)
  {
    hide TodoOf, AfterPass, SkippedAsEmpty, NeedsWork;
    var i :| 0 <= i < |p.listing| && p.listing[i] == s;
    PassShare(o, m, p.listing, p.now, p.results, i);
  }

  /** An SBOM that needs work and keeps its listing is selected in every pass until a run for it succeeds. */
  lemma SelectedUntilDone(o: Settings, m: Memory, passes: seq<Pass>, s: Sbom, k: nat)
    requires k < |passes| && ListedThroughout(passes, s) && ClockForward(passes)
    requires NeedsWork(o, m, s, passes[0].now) && !SkippedAsEmpty(o, s)
    requires NeverDone(o, m, passes[..k], s)
    ensures s in TodoAt(o, m, passes, k)
  {
    var was, p := After(o, m, passes[..k]), passes[k];
    ShareUntilDone(o, m, passes[..k], s);
    NeedsWorkByShare(o, m, was, s, p.now);
    StillNeeded(o, m, s, passes[0].now, p.now);
    hide NeedsWork, SkippedAsEmpty, AfterPass, After;
    var i :| 0 <= i < |p.listing| && p.listing[i] == s;
    PassShare(o, was, p.listing, p.now, p.results, i);
  }

  lemma StillNeeded(o: Settings, m: Memory, s: Sbom, now: int, later: int)
    requires NeedsWork(o, m, s, now) && now <= later
    ensures NeedsWork(o, m, s, later)
  {
  }

  /** No listing of the passes shows the SBOM with another fingerprint, and none comes so late that it is due. */
  ghost predicate Undisturbed(o: Settings, passes: seq<Pass>, id: string, fingerprint: string, at: int) {
    forall k :: 0 <= k < |passes| ==>
      && DistinctIds(passes[k].listing)
      && (forall s :: s in passes[k].listing && s.id == id ==> s.fingerprint == fingerprint)
      && (o.reassessAfter > 0 ==> passes[k].now - at < o.reassessAfter)
  }

  /** A finished SBOM is left alone, and its share with it, until its fingerprint changes or it is due. */
  lemma {:induction false} FinishedIsLeftAlone(o: Settings, m: Memory, passes: seq<Pass>, id: string,
                                               fingerprint: string, at: int)
    requires ShareOf(m, id) == Share(Some(fingerprint), Some(at)) && Undisturbed(o, passes, id, fingerprint, at)
    ensures ShareOf(After(o, m, passes), id) == ShareOf(m, id)
    ensures forall k :: 0 <= k < |passes| ==> Unlisted(TodoAt(o, m, passes, k), id)
  {
    if passes != [] {
      var n := |passes| - 1;
      var p, was := passes[n], After(o, m, passes[..n]);
      FinishedIsLeftAlone(o, m, passes[..n], id, fingerprint, at);
      PassesPrefix(o, m, passes, n);
      hide TodoOf, AfterPass, SkippedAsEmpty;
      OnePassLeavesAlone(o, was, p, id, fingerprint, at);
    }
  }

  lemma OnePassLeavesAlone(o: Settings, m: Memory, p: Pass, id: string, fingerprint: string, at: int)
    requires ShareOf(m, id) == Share(Some(fingerprint), Some(at)) && Undisturbed(o, [p], id, fingerprint, at)
    ensures ShareOf(AfterPass(o, m, p.listing, p.now, p.results), id) == ShareOf(m, id)
    ensures Unlisted(TodoOf(o, m.(lastPass := NO_USAGE), p.listing, p.now), id)
  {
    assert [p][0] == p;
    var m0 := m.(lastPass := NO_USAGE);
    if Unlisted(p.listing, id) {
      PassShareUnlisted(o, m, p.listing, p.now, p.results, id);
      SelectUnlisted(o, m0, p.listing, p.now, id);
    } else {
      var s :| s in p.listing && s.id == id;
      var i :| 0 <= i < |p.listing| && p.listing[i] == s;
      assert !NeedsWork(o, m, s, p.now);
      LastPassIsNotRead(o, m, s, p.now);
      SelectListed(o, m0, p.listing, p.now, i);
      hide Select, SkippedAsEmpty, AfterPass;
      PassShare(o, m, p.listing, p.now, p.results, i);
      assert NotDone(TodoOf(o, m0, p.listing, p.now), p.results, s);
    }
  }

  /** A finished SBOM is selected again in the first pass that lists it with another fingerprint or comes late
      enough. */
  lemma FinishedIsSelectedAgain(o: Settings, m: Memory, passes: seq<Pass>, s: Sbom, fingerprint: string, at: int,
                                k: nat)
    requires ShareOf(m, s.id) == Share(Some(fingerprint), Some(at))
    requires k < |passes| && Undisturbed(o, passes[..k], s.id, fingerprint, at)
    requires DistinctIds(passes[k].listing) && s in passes[k].listing
    ensures s in TodoAt(o, m, passes, k) <==>
            && !(o.skipZero && s.vulnCount == 0)
            && (s.fingerprint != fingerprint || (o.reassessAfter > 0 && passes[k].now - at >= o.reassessAfter))
  {
    var was, p := After(o, m, passes[..k]), passes[k];
    FinishedIsLeftAlone(o, m, passes[..k], s.id, fingerprint, at);
    LastPassIsNotRead(o, was, s, p.now);
    hide Select, After, Undisturbed;
    var i :| 0 <= i < |p.listing| && p.listing[i] == s;
    SelectedExactly(o, was.(lastPass := NO_USAGE), p.listing, p.now, i);
  }

  // ---- the live state ----

  class WatchState {
    var memory: Memory

    constructor (memory: Memory)
      ensures this.memory == memory
    {
      this.memory := memory;
    }

    /** The serial selection at the start of a pass. */
    method SelectWork(o: Settings, listing: seq<Sbom>, now: int) returns (todo: seq<Sbom>)
      modifies this
      ensures Selection(memory, todo) == Select(o, old(memory).(lastPass := NO_USAGE), listing, now)
    {
      memory := memory.(lastPass := NO_USAGE);
      todo := [];
      for i := 0 to |listing|
        invariant Selection(memory, todo) == Select(o, old(memory).(lastPass := NO_USAGE), listing[..i], now)
      {
        assert listing[..i + 1][..i] == listing[..i];
        var s := listing[i];
        var due := o.reassessAfter > 0 &&
          (s.id !in memory.processedAt || now - memory.processedAt[s.id] >= o.reassessAfter);
        if s.id in memory.processed && memory.processed[s.id] == s.fingerprint && !due { continue; }
        if o.skipZero && s.vulnCount == 0 {
          memory := memory.(processed := memory.processed[s.id := s.fingerprint],
                            processedAt := memory.processedAt[s.id := now]);
          continue;
        }
        todo := todo + [s];
      }
      assert listing[..|listing|] == listing;
    }

    /** The locked section of a worker. */
    method Commit(s: Sbom, r: Result)
      modifies this
      ensures memory == RecordResult(old(memory), s, r)
    {
      if r.Failed? { return; }
      memory := memory.(usage := Add(memory.usage, r.usage));
      memory := memory.(lastPass := Add(memory.lastPass, r.usage));
      if r.deferred == 0 {
        memory := memory.(processed := memory.processed[s.id := s.fingerprint]);
        memory := memory.(processedAt := memory.processedAt[s.id := r.at]);
      }
    }
  }
}
