/**
  Runs of the four-step memory script by any number of concurrent trials, and what the
  oracle of conformance/src/lib/eval-memory-witness.ts makes of them.
 */
module Trials {
  import opened Json
  import opened Wrappers
  import opened Memory
  import opened Seqs

  /** Which trial takes each step of the run. */
  type Schedule = seq<nat>
  /** What the host returned for each step of the run. */
  type Outcomes = nat -> Option<Json>

  function Occurs(s: Schedule, t: nat): nat {
    if s == [] then 0 else Occurs(s[..|s| - 1], t) + if s[|s| - 1] == t then 1 else 0
  }

  /** The step of its script that trial `s[k]` takes at `k`. */
  function StepAt(s: Schedule, k: nat): nat
    requires k < |s|
  {
    Occurs(s[..k], s[k])
  }

  /** Each of the trials below `n` runs all four steps, in any interleaving. */
  ghost predicate Complete(s: Schedule, n: nat) {
    (forall t | t in s :: t < n) && forall t: nat | t < n :: Occurs(s, t) == 4
  }

  function Scripted(step: nat, outcome: Option<Json>): Call {
    Call(Some(Str(if step == 2 then "write" else "read")), Some(Str(if step == 0 then SEEDED else NOTE)), outcome, true)
  }

  function RunCalls(s: Schedule, out: Outcomes): seq<Call> {
    seq(|s|, k requires 0 <= k < |s| => Scripted(StepAt(s, k), out(k)))
  }

  // ---------------------------------------------------------------- counting steps

  function Steps(s: Schedule, step: nat): nat {
    if s == [] then 0 else Steps(s[..|s| - 1], step) + if StepAt(s, |s| - 1) == step then 1 else 0
  }

  /** How often `step` returned `content`. */
  function Hits(s: Schedule, out: Outcomes, step: nat, content: Json): nat {
    if s == [] then 0
    else
      var last := |s| - 1;
      Hits(s[..last], out, step, content)
      + if StepAt(s, last) == step && FieldOf(out(last), "content") == Some(content) then 1 else 0
  }

  ghost predicate Always(s: Schedule, out: Outcomes, step: nat, content: Json) {
    forall k | 0 <= k < |s| && StepAt(s, k) == step :: FieldOf(out(k), "content") == Some(content)
  }

  /** The trials that are past `step`. */
  ghost function Past(s: Schedule, n: nat, step: nat): set<nat> {
    set t | t in Below(n) && Occurs(s, t) > step
  }

  lemma {:induction false} StepsArePast(s: Schedule, n: nat, step: nat)
    requires forall t | t in s :: t < n
    ensures Steps(s, step) == |Past(s, n, step)|
  {
    if s == [] {
      assert Past(s, n, step) == {};
    } else {
      var rest, t := s[..|s| - 1], s[|s| - 1];
      assert forall u | u in rest :: u in s;
      StepsArePast(rest, n, step);
      assert t in s;
      assert Past(s, n, step) == Past(rest, n, step) + if Occurs(rest, t) == step then {t} else {};
    }
  }

  lemma CompleteSteps(s: Schedule, n: nat, step: nat)
    requires Complete(s, n) && step < 4
    ensures Steps(s, step) == n
  {
    StepsArePast(s, n, step);
    assert Past(s, n, step) == Below(n);
  }

  lemma PrefixStep(s: Schedule, m: nat, k: nat)
    requires k < m <= |s|
    ensures StepAt(s[..m], k) == StepAt(s, k)
  {
    assert s[..m][..k] == s[..k];
  }

  lemma StepsStay(s: Schedule)
    requires s != []
    ensures forall k | 0 <= k < |s| - 1 :: StepAt(s[..|s| - 1], k) == StepAt(s, k)
  {
    forall k | 0 <= k < |s| - 1
      ensures StepAt(s[..|s| - 1], k) == StepAt(s, k)
    { PrefixStep(s, |s| - 1, k); }
  }

  ghost predicate FourSteps(s: Schedule) {
    forall k | 0 <= k < |s| :: StepAt(s, k) < 4
  }

  lemma FourStepsBefore(s: Schedule)
    requires s != [] && FourSteps(s)
    ensures FourSteps(s[..|s| - 1]) && StepAt(s, |s| - 1) < 4
  {
    var rest := s[..|s| - 1];
    StepsStay(s);
    assert forall k | 0 <= k < |rest| :: StepAt(rest, k) == StepAt(s, k);
  }

  lemma {:induction false} FewSteps(s: Schedule, n: nat, k: nat)
    requires Complete(s, n) && k < |s|
    ensures StepAt(s, k) < 4
  {
    OccursGrows(s, s[k], k + 1);
    assert s[..k + 1][..k] == s[..k];
    assert s[k] in s;
  }

  lemma {:induction false} OccursGrows(s: Schedule, t: nat, k: nat)
    requires k <= |s|
    ensures Occurs(s[..k], t) <= Occurs(s, t)
    decreases |s|
  {
    if k == |s| {
      assert s[..k] == s;
    } else {
      assert s[..|s| - 1][..k] == s[..k];
      OccursGrows(s[..|s| - 1], t, k);
    }
  }

  lemma {:induction false} TotalSteps(s: Schedule)
    requires FourSteps(s)
    ensures |s| == Steps(s, 0) + Steps(s, 1) + Steps(s, 2) + Steps(s, 3)
  {
    if s == [] {
    } else {
      var rest := s[..|s| - 1];
      FourStepsBefore(s);
      TotalSteps(rest);
    }
  }

  lemma {:induction false} HitsOf(s: Schedule, out: Outcomes, step: nat, content: Json)
    ensures Hits(s, out, step, content) <= Steps(s, step)
    ensures Hits(s, out, step, content) == Steps(s, step) <==> Always(s, out, step, content)
  {
    if s == [] {
    } else {
      var rest := s[..|s| - 1];
      HitsOf(rest, out, step, content);
      StepsStay(s);
    }
  }

  lemma {:induction false} HitsExclude(s: Schedule, out: Outcomes, step: nat, a: Json, b: Json)
    requires a != b
    ensures Hits(s, out, step, a) + Hits(s, out, step, b) <= Steps(s, step)
  {
    if s == [] {
    } else {
      HitsExclude(s[..|s| - 1], out, step, a, b);
    }
  }

  // ---------------------------------------------------------------- what the judge sees of a run

  lemma RunAppends(s: Schedule, out: Outcomes)
    requires s != []
    ensures var last := |s| - 1; RunCalls(s, out) == RunCalls(s[..last], out) + [Scripted(StepAt(s, last), out(last))]
  {
    StepsStay(s);
  }

  lemma {:induction false} ReadsOfRun(s: Schedule, out: Outcomes)
    requires FourSteps(s)
    ensures |Select(RunCalls(s, out), IsSeedRead)| == Steps(s, 0)
    ensures |Select(RunCalls(s, out), IsNoteRead)| == Steps(s, 1) + Steps(s, 3)
    ensures |Select(RunCalls(s, out), FindsNote)| == Hits(s, out, 1, Str(WRITTEN)) + Hits(s, out, 3, Str(WRITTEN))
    ensures |Select(RunCalls(s, out), FindsNothing)| == Hits(s, out, 1, Null) + Hits(s, out, 3, Null)
  {
    if s == [] {
    } else {
      var rest := s[..|s| - 1];
      FourStepsBefore(s);
      ReadsOfRun(rest, out);
      var c := Scripted(StepAt(s, |rest|), out(|rest|));
      RunAppends(s, out);
    }
  }

  ghost predicate SeedsFine(calls: seq<Call>) {
    forall c | c in Select(calls, IsSeedRead) :: Content(c) == Some(Str(SEED))
  }

  lemma SeedsFineAppend(calls: seq<Call>, c: Call)
    ensures SeedsFine(calls + [c]) <==> SeedsFine(calls) && (IsSeedRead(c) ==> Content(c) == Some(Str(SEED)))
  {}

  lemma AlwaysAppend(s: Schedule, out: Outcomes, step: nat, content: Json)
    requires s != []
    ensures Always(s, out, step, content) <==>
              Always(s[..|s| - 1], out, step, content)
              && (StepAt(s, |s| - 1) == step ==> FieldOf(out(|s| - 1), "content") == Some(content))
  {
    StepsStay(s);
  }

  lemma {:induction false} SeedReadsOfRun(s: Schedule, out: Outcomes)
    requires FourSteps(s)
    ensures SeedsFine(RunCalls(s, out)) <==> Always(s, out, 0, Str(SEED))
  {
    if s == [] {
    } else {
      var rest, last := s[..|s| - 1], |s| - 1;
      FourStepsBefore(s);
      SeedReadsOfRun(rest, out);
      RunAppends(s, out);
      SeedsFineAppend(RunCalls(rest, out), Scripted(StepAt(s, last), out(last)));
      AlwaysAppend(s, out, 0, Str(SEED));
    }
  }

  /**
    The verdict on a run of any host, in any interleaving: note reads that found the note
    and note reads that found nothing are counted together, whichever step made them.
   */
  lemma VerdictByCounts(s: Schedule, n: nat, out: Outcomes)
    requires Complete(s, n)
    ensures JudgeTrialMemoryIsolated(RunCalls(s, out), n)
         == if Hits(s, out, 1, Str(WRITTEN)) + Hits(s, out, 3, Str(WRITTEN)) < n then Blocked
            else Judged(Always(s, out, 0, Str(SEED)), Hits(s, out, 1, Null) + Hits(s, out, 3, Null) == n)
  {
    RunShape(s, n, out);
    ReadsOfRun(s, out);
    SeedReadsOfRun(s, out);
  }

  lemma RunShape(s: Schedule, n: nat, out: Outcomes)
    requires Complete(s, n)
    ensures |RunCalls(s, out)| == 4 * n && forall c | c in RunCalls(s, out) :: c.returned
    ensures Steps(s, 0) == Steps(s, 1) == Steps(s, 3) == n && FourSteps(s)
  {
    forall k | 0 <= k < |s|
      ensures StepAt(s, k) < 4
    { FewSteps(s, n, k); }
    TotalSteps(s);
    CompleteSteps(s, n, 0);
    CompleteSteps(s, n, 1);
    CompleteSteps(s, n, 2);
    CompleteSteps(s, n, 3);
    AllReturned(s, out);
  }

  lemma AllReturned(s: Schedule, out: Outcomes)
    ensures forall c | c in RunCalls(s, out) :: c.returned
  {
    forall c | c in RunCalls(s, out)
      ensures c.returned
    {
      var k :| 0 <= k < |s| && RunCalls(s, out)[k] == c;
      assert c == Scripted(StepAt(s, k), out(k));
    }
  }

  /**
    A host whose trials read their own writes is always judged, and the two findings say
    exactly that every trial read the seed and that every first read of the note found nothing.
   */
  lemma ReadYourWritesIsExact(s: Schedule, n: nat, out: Outcomes)
    requires Complete(s, n) && Always(s, out, 3, Str(WRITTEN))
    ensures JudgeTrialMemoryIsolated(RunCalls(s, out), n)
         == Judged(Always(s, out, 0, Str(SEED)), Always(s, out, 1, Null))
  {
    VerdictByCounts(s, n, out);
    CompleteSteps(s, n, 1);
    CompleteSteps(s, n, 3);
    HitsOf(s, out, 3, Str(WRITTEN));
    HitsOf(s, out, 1, Null);
    HitsExclude(s, out, 3, Str(WRITTEN), Null);
  }

  /**
    Of a host that need not read its own writes, the finding that trials are isolated is
    right exactly when no read after a write found nothing.
   */
  lemma IsolationIsRightUnlessForgotten(s: Schedule, n: nat, out: Outcomes)
    requires Complete(s, n)
    requires var v := JudgeTrialMemoryIsolated(RunCalls(s, out), n); v.Judged? && v.isolated
    ensures Always(s, out, 1, Null) <==> Hits(s, out, 3, Null) == 0
  {
    VerdictByCounts(s, n, out);
    CompleteSteps(s, n, 1);
    HitsOf(s, out, 1, Null);
  }

  /** On any host, the finding that they are not isolated is right: some first read of the note found something else. */
  lemma LeakFindingIsRight(s: Schedule, n: nat, out: Outcomes)
    requires Complete(s, n)
    requires var v := JudgeTrialMemoryIsolated(RunCalls(s, out), n); v.Judged? && !v.isolated
    ensures !Always(s, out, 1, Null)
  {
    VerdictByCounts(s, n, out);
    CompleteSteps(s, n, 1);
    CompleteSteps(s, n, 3);
    HitsOf(s, out, 1, Null);
    HitsOf(s, out, 3, Str(WRITTEN));
    HitsExclude(s, out, 1, Null, Str(WRITTEN));
    HitsExclude(s, out, 3, Str(WRITTEN), Null);
  }

  /** A leak is missed when writes are forgotten: every first read finds the note, every second nothing. */
  lemma ForgettingHidesALeak(s: Schedule, n: nat, out: Outcomes)
    requires Complete(s, n) && n > 0
    requires Always(s, out, 0, Str(SEED)) && Always(s, out, 1, Str(WRITTEN)) && Always(s, out, 3, Null)
    ensures JudgeTrialMemoryIsolated(RunCalls(s, out), n) == Judged(true, true) && !Always(s, out, 1, Null)
  {
    VerdictByCounts(s, n, out);
    CompleteSteps(s, n, 1);
    CompleteSteps(s, n, 3);
    HitsOf(s, out, 1, Str(WRITTEN));
    HitsOf(s, out, 1, Null);
    HitsOf(s, out, 3, Null);
    HitsExclude(s, out, 1, Str(WRITTEN), Null);
  }

  // ---------------------------------------------------------------- hosts that keep their memory in stores

  /** What a read returns. */
  function Reading(content: Json): Option<Json> {
    Some(Obj([Member("id", Str(NOTE)), Member("content", content)]))
  }

  lemma ReadingHolds(content: Json)
    ensures FieldOf(Reading(content), "content") == Some(content)
  {
    FindIsUnique(Reading(content).value.members, 1);
  }

  /** One store per scope; `scope` says which trials share one. */
  type World = map<nat, map<string, string>>

  function Store(w: World, c: nat): map<string, string> {
    if c in w then w[c] else map[SEEDED := SEED]
  }

  /** The stores after the steps of `s`: a trial's third step writes the note into its scope. */
  function WorldAfter(s: Schedule, scope: nat -> nat): World {
    if s == [] then map[]
    else
      var last := |s| - 1;
      var w, c := WorldAfter(s[..last], scope), scope(s[last]);
      if StepAt(s, last) == 2 then w[c := Store(w, c)[NOTE := WRITTEN]] else w
  }

  function OutcomeAt(s: Schedule, k: nat, scope: nat -> nat): Option<Json>
    requires k < |s|
  {
    var store, id := Store(WorldAfter(s[..k], scope), scope(s[k])), if StepAt(s, k) == 0 then SEEDED else NOTE;
    if StepAt(s, k) == 2 then None else Reading(if id in store then Str(store[id]) else Null)
  }

  function StoreOutcomes(s: Schedule, scope: nat -> nat): Outcomes {
    (k: nat) => if k < |s| then OutcomeAt(s, k, scope) else None
  }

  /** A trial of scope `c` has written in `s`. */
  ghost predicate HasWritten(s: Schedule, scope: nat -> nat, c: nat) {
    exists w | 0 <= w < |s| :: StepAt(s, w) == 2 && scope(s[w]) == c
  }

  /** Some trial reads the note for the first time after a trial of its scope wrote it. */
  ghost predicate Leaks(s: Schedule, scope: nat -> nat) {
    exists k | 0 <= k < |s| :: StepAt(s, k) == 1 && HasWritten(s[..k], scope, scope(s[k]))
  }

  lemma {:induction false} StoreHolds(s: Schedule, scope: nat -> nat, c: nat)
    ensures Store(WorldAfter(s, scope), c)
         == if HasWritten(s, scope, c) then map[SEEDED := SEED][NOTE := WRITTEN] else map[SEEDED := SEED]
  {
    if s == [] {
    } else {
      var rest := s[..|s| - 1];
      StoreHolds(rest, scope, c);
      WrittenGrows(s, scope, c);
    }
  }

  lemma WrittenGrows(s: Schedule, scope: nat -> nat, c: nat)
    requires s != []
    ensures HasWritten(s, scope, c)
       <==> HasWritten(s[..|s| - 1], scope, c) || (StepAt(s, |s| - 1) == 2 && scope(s[|s| - 1]) == c)
  {
    var rest := s[..|s| - 1];
    StepsStay(s);
    if HasWritten(rest, scope, c) {
      var w :| 0 <= w < |rest| && StepAt(rest, w) == 2 && scope(rest[w]) == c;
      assert StepAt(s, w) == 2 && s[w] == rest[w];
    }
    if HasWritten(s, scope, c) {
      var w :| 0 <= w < |s| && StepAt(s, w) == 2 && scope(s[w]) == c;
      if w < |rest| { assert StepAt(rest, w) == 2 && rest[w] == s[w]; }
    }
  }

  /** A trial past its third step has taken it. */
  lemma {:induction false} TookStep(s: Schedule, t: nat) returns (w: nat)
    requires Occurs(s, t) > 2
    ensures w < |s| && s[w] == t && StepAt(s, w) == 2
  {
    var last := |s| - 1;
    if s[last] == t && StepAt(s, last) == 2 { return last; }
    w := TookStep(s[..last], t);
    PrefixStep(s, last, w);
  }

  lemma StoreContents(s: Schedule, scope: nat -> nat, k: nat)
    requires k < |s|
    ensures var content := FieldOf(StoreOutcomes(s, scope)(k), "content");
            && (StepAt(s, k) == 0 ==> content == Some(Str(SEED)))
            && (StepAt(s, k) == 1 ==>
                  content == Some(if HasWritten(s[..k], scope, scope(s[k])) then Str(WRITTEN) else Null))
            && (StepAt(s, k) == 3 ==> content == Some(Str(WRITTEN)))
  {
    StoreHolds(s[..k], scope, scope(s[k]));
    ReadingHolds(Str(SEED));
    ReadingHolds(Str(WRITTEN));
    ReadingHolds(Null);
    if StepAt(s, k) == 3 {
      var w := TookStep(s[..k], s[k]);
      assert scope(s[..k][w]) == scope(s[k]);
    }
  }

  /**
    Whatever memory the trials share, and in every interleaving, the run is judged, its seeds
    are found good, and it is found isolated exactly when no trial's first read of the note
    came after a write in its scope.
   */
  lemma StoresAreJudgedExactly(s: Schedule, n: nat, scope: nat -> nat)
    requires Complete(s, n)
    ensures JudgeTrialMemoryIsolated(RunCalls(s, StoreOutcomes(s, scope)), n) == Judged(true, !Leaks(s, scope))
  {
    var out := StoreOutcomes(s, scope);
    forall k | 0 <= k < |s|
      ensures StepAt(s, k) == 0 ==> FieldOf(out(k), "content") == Some(Str(SEED))
      ensures StepAt(s, k) == 1 ==>
                (FieldOf(out(k), "content") == Some(Null) <==> !HasWritten(s[..k], scope, scope(s[k])))
      ensures StepAt(s, k) == 3 ==> FieldOf(out(k), "content") == Some(Str(WRITTEN))
    { StoreContents(s, scope, k); }
    ReadYourWritesIsExact(s, n, out);
  }

  /** Trials with stores of their own never leak, in any interleaving. */
  lemma IsolatedTrialsAreJudgedIsolated(s: Schedule, n: nat, scope: nat -> nat)
    requires Complete(s, n)
    requires forall t: nat, u: nat | t < n && u < n && scope(t) == scope(u) :: t == u
    ensures JudgeTrialMemoryIsolated(RunCalls(s, StoreOutcomes(s, scope)), n) == Judged(true, true)
  {
    forall k | 0 <= k < |s| && StepAt(s, k) == 1
      ensures !HasWritten(s[..k], scope, scope(s[k]))
    {
      forall w | 0 <= w < k && StepAt(s[..k], w) == 2
        ensures scope(s[..k][w]) != scope(s[k])
      {
        assert s[w] in s && s[k] in s;
        if s[w] == s[k] {
          assert s[..k][..w] == s[..w];
          OccursGrows(s[..k], s[k], w);
        }
      }
    }
    StoresAreJudgedExactly(s, n, scope);
  }

  // ---------------------------------------------------------------- from the event log to the verdict

  function CalledEvent(s: Schedule, k: nat, ids: nat -> string, agentId: string): Event
    requires k < |s|
  {
    var c := Scripted(StepAt(s, k), None);
    Event(CALLED, Some(TOOL), Some(agentId), Some(ids(k)),
          Some(Obj([Member("op", c.op.value), Member("id", c.id.value)])), None)
  }

  function ReturnedEvent(k: nat, out: Outcomes, ids: nat -> string): Event {
    Event(RETURNED, Some(TOOL), None, Some(ids(k)), None, out(k))
  }

  function RunEvents(s: Schedule, out: Outcomes, ids: nat -> string, agentId: string): seq<Event> {
    if s == [] then []
    else
      var last := |s| - 1;
      RunEvents(s[..last], out, ids, agentId) + [CalledEvent(s, last, ids, agentId), ReturnedEvent(last, out, ids)]
  }

  ghost predicate DistinctIds(ids: nat -> string) {
    forall i, k | ids(i) == ids(k) :: i == k
  }

  lemma {:induction false} ReturnsOfRun(s: Schedule, out: Outcomes, ids: nat -> string, agentId: string)
    ensures forall e, id | e in RunEvents(s, out, ids, agentId) && ReturnsFor(e, id) ::
              exists k | 0 <= k < |s| :: id == ids(k) && e == ReturnedEvent(k, out, ids)
    ensures forall k | 0 <= k < |s| :: ReturnedEvent(k, out, ids) in RunEvents(s, out, ids, agentId)
  {
    if s == [] {
    } else {
      ReturnsOfRun(s[..|s| - 1], out, ids, agentId);
    }
  }

  /** An event of the log that is none of the run's: no call of the agent's memory tool, and no return for one. */
  ghost predicate Foreign(e: Event, s: Schedule, ids: nat -> string, agentId: string) {
    !IsCall(e, agentId) && forall k | 0 <= k < |s| :: !ReturnsFor(e, ids(k))
  }

  /** The log holds the events of the run, in any order, and any others besides. */
  ghost predicate Holds(
      events: seq<Event>, s: Schedule, out: Outcomes, ids: nat -> string, agentId: string, others: seq<Event>)
  {
    && DistinctIds(ids) && (forall e | e in others :: Foreign(e, s, ids, agentId))
    && multiset(events) == multiset(RunEvents(s, out, ids, agentId)) + multiset(others)
  }

  lemma ReturnInLog(
      events: seq<Event>, s: Schedule, out: Outcomes, ids: nat -> string, agentId: string, others: seq<Event>, k: nat)
    requires Holds(events, s, out, ids, agentId, others) && k < |s|
    ensures ReturnOf(events, ids(k)) == Some(ReturnedEvent(k, out, ids))
  {
    var run := RunEvents(s, out, ids, agentId);
    ReturnsOfRun(s, out, ids, agentId);
    ReturnIsLogged(events, ids(k));
    HeldEvents(events, run, others);
    assert ReturnsFor(ReturnedEvent(k, out, ids), ids(k));
  }

  lemma HeldEvents(events: seq<Event>, run: seq<Event>, others: seq<Event>)
    requires multiset(events) == multiset(run) + multiset(others)
    ensures forall e :: e in events <==> e in run || e in others
  {
    assert forall e :: e in events <==> e in multiset(events);
    assert forall e :: e in run <==> e in multiset(run);
    assert forall e :: e in others <==> e in multiset(others);
  }

  lemma CallInLog(log: seq<Event>, s: Schedule, k: nat, out: Outcomes, ids: nat -> string, agentId: string)
    requires k < |s| && ReturnOf(log, ids(k)) == Some(ReturnedEvent(k, out, ids))
    ensures CallOf(log, CalledEvent(s, k, ids, agentId)) == Scripted(StepAt(s, k), out(k))
  {
    var ms := CalledEvent(s, k, ids, agentId).inputs.value.members;
    FindIsUnique(ms, 0);
    FindIsUnique(ms, 1);
  }

  lemma {:induction false} CallsOfLog(log: seq<Event>, s: Schedule, out: Outcomes, ids: nat -> string, agentId: string)
    requires forall k | 0 <= k < |s| :: ReturnOf(log, ids(k)) == Some(ReturnedEvent(k, out, ids))
    ensures CallsOf(log, RunEvents(s, out, ids, agentId), agentId) == RunCalls(s, out)
  {
    if s == [] {
    } else {
      var last := |s| - 1;
      var before := RunEvents(s[..last], out, ids, agentId);
      var called, returned := CalledEvent(s, last, ids, agentId), ReturnedEvent(last, out, ids);
      CallsOfLog(log, s[..last], out, ids, agentId);
      CallInLog(log, s, last, out, ids, agentId);
      RunAppends(s, out);
      CallsOfPair(log, before, called, returned, agentId);
    }
  }

  lemma CallsOfPair(log: seq<Event>, before: seq<Event>, called: Event, returned: Event, agentId: string)
    requires IsCall(called, agentId) && !IsCall(returned, agentId)
    ensures CallsOf(log, before + [called, returned], agentId) == CallsOf(log, before, agentId) + [CallOf(log, called)]
  {
    var events := before + [called, returned];
    assert events[..|events| - 1] == before + [called] && (before + [called])[..|before|] == before;
  }

  lemma {:induction false} OthersCallNothing(log: seq<Event>, events: seq<Event>, others: seq<Event>, agentId: string)
    requires forall e | e in others :: !IsCall(e, agentId)
    ensures CallsOf(log, events + others, agentId) == CallsOf(log, events, agentId)
  {
    if others == [] {
      assert events + others == events;
    } else {
      var rest := others[..|others| - 1];
      var all := events + others;
      assert all[..|all| - 1] == events + rest && all[|all| - 1] == others[|others| - 1];
      OthersCallNothing(log, events, rest, agentId);
    }
  }

  /**
    Under every interleaving of the trials, every order in which their events are logged and
    whatever else is logged, the verdict is the one on the run itself.
   */
  lemma LogIsJudgedAsRun(
      events: seq<Event>, s: Schedule, n: nat, out: Outcomes, ids: nat -> string, agentId: string, others: seq<Event>)
    requires Holds(events, s, out, ids, agentId, others)
    ensures JudgeTrialMemoryIsolated(CallsOf(events, events, agentId), n)
         == JudgeTrialMemoryIsolated(RunCalls(s, out), n)
  {
    var run := RunEvents(s, out, ids, agentId);
    forall k | 0 <= k < |s|
      ensures ReturnOf(events, ids(k)) == Some(ReturnedEvent(k, out, ids))
    { ReturnInLog(events, s, out, ids, agentId, others, k); }
    CallsOfLog(events, s, out, ids, agentId);
    OthersCallNothing(events, run, others, agentId);
    assert multiset(run + others) == multiset(events);
    BagIgnoresOrder(events, run + others, events, agentId);
    JudgeIgnoresOrder(CallsOf(events, events, agentId), RunCalls(s, out), n);
  }
}
