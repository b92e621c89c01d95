/**
  The trial-isolation oracle (conformance/src/lib/eval-memory-witness.ts): pairing the
  memory tool's calls with their returns, and judging a run of interleaved trials.
 */
module Memory {
  import opened Json
  import opened Wrappers
  import Seqs

  /** A log event with the payload members the witness reads; the string ones are None unless they hold a string. */
  datatype Event = Event(
    kind: string, toolName: Option<string>, agentId: Option<string>, callId: Option<string>, inputs: Option<Json>,
    outcome: Option<Json>)
  datatype Call = Call(op: Option<Json>, id: Option<Json>, outcome: Option<Json>, returned: bool)
  datatype Verdict = Blocked | Judged(seeded: bool, isolated: bool)

  const TOOL := "conformance.eval:memory"
  const CALLED := "agent.tool-called"
  const RETURNED := "agent.tool-returned"
  const SEEDED := "seeded"
  const SEED := "seed"
  const NOTE := "trial-note"
  const WRITTEN := "written"

  // ---------------------------------------------------------------- pairing

  predicate ReturnsFor(e: Event, callId: string) {
    e.kind == RETURNED && e.toolName == Some(TOOL) && e.callId == Some(callId)
  }

  /** The last return logged for a call. */
  function ReturnOf(log: seq<Event>, callId: string): Option<Event> {
    if log == [] then None
    else if ReturnsFor(log[|log| - 1], callId) then Some(log[|log| - 1])
    else ReturnOf(log[..|log| - 1], callId)
  }

  predicate IsCall(e: Event, agentId: string) {
    e.kind == CALLED && e.toolName == Some(TOOL) && e.agentId == Some(agentId)
  }

  function CallOf(log: seq<Event>, e: Event): Call {
    var r := if e.callId.Some? then ReturnOf(log, e.callId.value) else None;
    Call(FieldOf(e.inputs, "op"), FieldOf(e.inputs, "id"), if r.Some? then r.value.outcome else None, r.Some?)
  }

  /** The calls among `events`, paired with the returns in `log`. */
  function CallsOf(log: seq<Event>, events: seq<Event>, agentId: string): seq<Call> {
    if events == [] then []
    else
      var e := events[|events| - 1];
      CallsOf(log, events[..|events| - 1], agentId) + if IsCall(e, agentId) then [CallOf(log, e)] else []
  }

  method MemoryCalls(events: seq<Event>, agentId: string) returns (out: seq<Call>)
    ensures out == CallsOf(events, events, agentId)
  {
    var found: map<string, Event> := map[];
    for k := 0 to |events|
      invariant forall id :: (if id in found then Some(found[id]) else None) == ReturnOf(events[..k], id)
    {
      var e := events[k];
      assert events[..k + 1][..k] == events[..k];
      if e.kind == RETURNED && e.toolName == Some(TOOL) && e.callId.Some? { found := found[e.callId.value := e]; }
    }
    assert events[..|events|] == events;
    out := [];
    for k := 0 to |events|
      invariant out == CallsOf(events, events[..k], agentId)
    {
      var e := events[k];
      assert events[..k + 1][..k] == events[..k];
      if e.kind != CALLED || e.toolName != Some(TOOL) || e.agentId != Some(agentId) { continue; }
      var r: Option<Event> := None;
      if e.callId.Some? && e.callId.value in found { r := Some(found[e.callId.value]); }
      var outcome := if r.Some? then r.value.outcome else None;
      out := out + [Call(FieldOf(e.inputs, "op"), FieldOf(e.inputs, "id"), outcome, r.Some?)];
    }
  }

  /** No call has two different returns. */
  ghost predicate OneReturnEach(log: seq<Event>) {
    forall e, f, id | e in log && f in log && ReturnsFor(e, id) && ReturnsFor(f, id) :: e == f
  }

  lemma {:induction false} ReturnIsLogged(log: seq<Event>, id: string)
    ensures ReturnOf(log, id).Some? ==> ReturnOf(log, id).value in log && ReturnsFor(ReturnOf(log, id).value, id)
    ensures ReturnOf(log, id).None? ==> forall e | e in log :: !ReturnsFor(e, id)
  {
    if log == [] {
    } else {
      assert log == log[..|log| - 1] + [log[|log| - 1]];
      if !ReturnsFor(log[|log| - 1], id) { ReturnIsLogged(log[..|log| - 1], id); }
    }
  }

  lemma SameReturns(log: seq<Event>, other: seq<Event>, id: string)
    requires OneReturnEach(log) && multiset(log) == multiset(other)
    ensures ReturnOf(log, id) == ReturnOf(other, id)
  {
    ReturnIsLogged(log, id);
    ReturnIsLogged(other, id);
    assert forall e :: e in log <==> e in multiset(log);
    assert forall e :: e in other <==> e in multiset(other);
  }

  ghost function Bag(log: seq<Event>, events: seq<Event>, agentId: string): multiset<Call> {
    multiset(CallsOf(log, events, agentId))
  }

  ghost function BagOf(log: seq<Event>, e: Event, agentId: string): multiset<Call> {
    if IsCall(e, agentId) then multiset{CallOf(log, e)} else multiset{}
  }

  lemma BagStep(log: seq<Event>, events: seq<Event>, agentId: string)
    requires events != []
    ensures Bag(log, events, agentId)
         == Bag(log, events[..|events| - 1], agentId) + BagOf(log, events[|events| - 1], agentId)
  {}

  lemma {:induction false} BagWithout(log: seq<Event>, events: seq<Event>, k: nat, agentId: string)
    requires k < |events|
    ensures Bag(log, events, agentId) == Bag(log, Seqs.Without(events, k), agentId) + BagOf(log, events[k], agentId)
  {
    var last := |events| - 1;
    var rest, w := events[..last], Seqs.Without(events, k);
    BagStep(log, events, agentId);
    if k == last {
      assert w == rest;
    } else {
      BagWithout(log, rest, k, agentId);
      assert w[..|w| - 1] == Seqs.Without(rest, k) && w[|w| - 1] == events[last];
      BagStep(log, w, agentId);
    }
  }

  lemma {:induction false} BagIgnoresOrder(log: seq<Event>, a: seq<Event>, b: seq<Event>, agentId: string)
    requires multiset(a) == multiset(b)
    ensures Bag(log, a, agentId) == Bag(log, b, agentId)
    decreases |a|
  {
    if a == [] {
      assert |multiset(b)| == 0;
    } else {
      var e, rest := a[|a| - 1], a[..|a| - 1];
      assert a == rest + [e];
      var k := Place(b, e);
      BagIgnoresOrder(log, rest, Seqs.Without(b, k), agentId);
      BagStep(log, a, agentId);
      BagWithout(log, b, k, agentId);
    }
  }

  ghost function Place(b: seq<Event>, e: Event): (k: nat)
    requires e in multiset(b)
    ensures k < |b| && b[k] == e
  {
    var k :| 0 <= k < |b| && b[k] == e;
    k
  }

  lemma {:induction false} SameReturnsSameCalls(log: seq<Event>, other: seq<Event>, events: seq<Event>, agentId: string)
    requires forall id :: ReturnOf(log, id) == ReturnOf(other, id)
    ensures CallsOf(log, events, agentId) == CallsOf(other, events, agentId)
  {
    if events == [] {
    } else {
      SameReturnsSameCalls(log, other, events[..|events| - 1], agentId);
    }
  }

  /** When no call has two different returns, the paired calls do not depend on the order of the log. */
  lemma PairingIgnoresOrder(log: seq<Event>, other: seq<Event>, agentId: string)
    requires OneReturnEach(log) && multiset(log) == multiset(other)
    ensures multiset(CallsOf(log, log, agentId)) == multiset(CallsOf(other, other, agentId))
  {
    forall id
      ensures ReturnOf(log, id) == ReturnOf(other, id)
    { SameReturns(log, other, id); }
    SameReturnsSameCalls(log, other, other, agentId);
    BagIgnoresOrder(log, log, other, agentId);
  }

  // ---------------------------------------------------------------- judging

  function Content(c: Call): Option<Json> {
    FieldOf(c.outcome, "content")
  }

  predicate IsSeedRead(c: Call) {
    c.op == Some(Str("read")) && c.id == Some(Str(SEEDED))
  }

  predicate IsNoteRead(c: Call) {
    c.op == Some(Str("read")) && c.id == Some(Str(NOTE))
  }

  predicate FindsNote(c: Call) {
    IsNoteRead(c) && Content(c) == Some(Str(WRITTEN))
  }

  predicate FindsNothing(c: Call) {
    IsNoteRead(c) && Content(c) == Some(Null)
  }

  function Select(calls: seq<Call>, p: Call -> bool): seq<Call> {
    if calls == [] then []
    else Select(calls[..|calls| - 1], p) + if p(calls[|calls| - 1]) then [calls[|calls| - 1]] else []
  }

  function JudgeTrialMemoryIsolated(calls: seq<Call>, trials: nat): Verdict {
    if |calls| != 4 * trials || exists c | c in calls :: !c.returned then Blocked
    else if |Select(calls, FindsNote)| < trials then Blocked
    else
      var seeded := Select(calls, IsSeedRead);
      Judged(
        |seeded| == trials && forall c | c in seeded :: Content(c) == Some(Str(SEED)),
        |Select(calls, FindsNothing)| == trials && |Select(calls, IsNoteRead)| == 2 * trials)
  }

  lemma {:induction false} SelectCounts(a: seq<Call>, p: Call -> bool)
    ensures forall c :: multiset(Select(a, p))[c] == if p(c) then multiset(a)[c] else 0
  {
    if a == [] {
    } else {
      assert a == a[..|a| - 1] + [a[|a| - 1]];
      SelectCounts(a[..|a| - 1], p);
    }
  }

  lemma SelectIgnoresOrder(a: seq<Call>, b: seq<Call>, p: Call -> bool)
    requires multiset(a) == multiset(b)
    ensures multiset(Select(a, p)) == multiset(Select(b, p))
    ensures |Select(a, p)| == |Select(b, p)|
  {
    SelectCounts(a, p);
    SelectCounts(b, p);
    assert multiset(Select(a, p)) == multiset(Select(b, p));
    assert |Select(a, p)| == |multiset(Select(a, p))|;
  }

  /** The judge never depends on the order of the calls, so it need not know which trial made one. */
  lemma JudgeIgnoresOrder(a: seq<Call>, b: seq<Call>, trials: nat)
    requires multiset(a) == multiset(b)
    ensures JudgeTrialMemoryIsolated(a, trials) == JudgeTrialMemoryIsolated(b, trials)
  {
    assert |a| == |multiset(a)| == |b|;
    SameElements(a, b);
    SelectIgnoresOrder(a, b, FindsNote);
    SelectIgnoresOrder(a, b, FindsNothing);
    SelectIgnoresOrder(a, b, IsNoteRead);
    SelectIgnoresOrder(a, b, IsSeedRead);
    SameElements(Select(a, IsSeedRead), Select(b, IsSeedRead));
  }

  lemma SameElements(a: seq<Call>, b: seq<Call>)
    requires multiset(a) == multiset(b)
    ensures forall c :: c in a <==> c in b
  {
    assert forall c :: c in a <==> c in multiset(a);
    assert forall c :: c in b <==> c in multiset(b);
  }
}
