/**
  The positional attribution of usage events to an agent
  (conformance/src/lib/eval-efficiency-witness.ts, `agentUsage`).
 */
module AgentUsage {
  import opened Json
  import opened Wrappers

  datatype Event = Event(kind: string, payload: Json)

  const STARTED := "agent.invocation.started"
  const COMPLETED := "agent.invocation.completed"
  const USAGE := "provider.usage"

  /** The invocation an event opens. */
  function Starts(e: Event): Option<string> {
    if e.kind == STARTED then Text(e.payload, "invocationId") else None
  }

  /** The invocation an event closes. */
  function Completes(e: Event): Option<string> {
    if e.kind == COMPLETED then Text(e.payload, "invocationId") else None
  }

  predicate Own(e: Event, agentId: string) {
    Text(e.payload, "agentId") == Some(agentId)
  }

  // ---------------------------------------------------------------- which invocations are open

  /** The event at `s` started an invocation that no later event restarts or completes. */
  predicate StillOpen(log: seq<Event>, s: nat)
    requires s < |log|
  {
    && Starts(log[s]).Some?
    && forall j | s < j < |log| :: Starts(log[j]) != Starts(log[s]) && Completes(log[j]) != Starts(log[s])
  }

  /** The invocations open at the end of the log, the agent's own or those of all others. */
  function Open(log: seq<Event>, agentId: string, own: bool): set<string> {
    set s | 0 <= s < |log| && StillOpen(log, s) && Own(log[s], agentId) == own :: Starts(log[s]).value
  }

  /** The event at `t` starts an invocation that is open. */
  predicate Restarts(log: seq<Event>, agentId: string, t: nat, own: bool)
    requires t < |log|
  {
    Starts(log[t]).Some? && Starts(log[t]).value in Open(log[..t], agentId, own)
  }

  /** How often an open invocation of the given owner was started again. */
  function Leaks(log: seq<Event>, agentId: string, own: bool): nat {
    if log == [] then 0
    else Leaks(log[..|log| - 1], agentId, own) + if Restarts(log, agentId, |log| - 1, own) then 1 else 0
  }

  predicate NeverRestarted(log: seq<Event>, agentId: string) {
    forall t, own | 0 <= t < |log| :: !Restarts(log, agentId, t, own)
  }

  /** Usage recorded while an own invocation is open and no other agent's is. */
  predicate Attributed(log: seq<Event>, agentId: string, i: nat)
    requires i < |log|
  {
    log[i].kind == USAGE && Open(log[..i], agentId, true) != {} && Open(log[..i], agentId, false) == {}
  }

  function AttributedUsage(log: seq<Event>, agentId: string): seq<Json> {
    if log == [] then []
    else
      var last := |log| - 1;
      AttributedUsage(log[..last], agentId) + if Attributed(log, agentId, last) then [log[last].payload] else []
  }

  function AllUsage(log: seq<Event>): seq<Json> {
    if log == [] then []
    else AllUsage(log[..|log| - 1]) + if log[|log| - 1].kind == USAGE then [log[|log| - 1].payload] else []
  }

  predicate Bracketed(log: seq<Event>) {
    exists e | e in log :: Starts(e).Some?
  }

  // ---------------------------------------------------------------- the tracker

  /** The loop's map and two counters. */
  datatype Tracker = Tracker(open: map<string, bool>, mine: int, other: int)

  function Track(t: Tracker, e: Event, agentId: string): Tracker {
    if Starts(e).Some? then
      var own := Own(e, agentId);
      Tracker(t.open[Starts(e).value := own], if own then t.mine + 1 else t.mine, if own then t.other else t.other + 1)
    else if Completes(e).Some? && Completes(e).value in t.open then
      var own := t.open[Completes(e).value];
      Tracker(t.open - {Completes(e).value}, if own then t.mine - 1 else t.mine, if own then t.other else t.other - 1)
    else t
  }

  function Tracked(log: seq<Event>, agentId: string): Tracker {
    if log == [] then Tracker(map[], 0, 0)
    else Track(Tracked(log[..|log| - 1], agentId), log[|log| - 1], agentId)
  }

  /** Usage recorded while the counters say so. */
  predicate Counted(log: seq<Event>, agentId: string, i: nat)
    requires i < |log|
  {
    log[i].kind == USAGE && Tracked(log[..i], agentId).mine > 0 && Tracked(log[..i], agentId).other == 0
  }

  function CountedUsage(log: seq<Event>, agentId: string): seq<Json> {
    if log == [] then []
    else
      var last := |log| - 1;
      CountedUsage(log[..last], agentId) + if Counted(log, agentId, last) then [log[last].payload] else []
  }

  /** Where the loop is after the events `done`. */
  ghost predicate Followed(
      done: seq<Event>, agentId: string, t: Tracker, inside: seq<Json>, all: seq<Json>, bracketed: bool)
  {
    t == Tracked(done, agentId) && inside == CountedUsage(done, agentId) && all == AllUsage(done)
    && (bracketed <==> Bracketed(done))
  }

  lemma FollowNext(
      events: seq<Event>, k: nat, agentId: string, t: Tracker, inside: seq<Json>, all: seq<Json>, bracketed: bool)
    requires k < |events| && Followed(events[..k], agentId, t, inside, all, bracketed)
    ensures var e := events[k];
            var taken := if e.kind == USAGE && t.mine > 0 && t.other == 0 then [e.payload] else [];
            Followed(events[..k + 1], agentId, Track(t, e, agentId), inside + taken,
                     all + (if e.kind == USAGE then [e.payload] else []), bracketed || Starts(e).Some?)
  {
    assert events[..k + 1][..k] == events[..k];
    assert events[..k + 1] == events[..k] + [events[k]];
  }

  /** Whatever the log, the result is what the counters select; without a bracket, it is all usage. */
  method AgentUsage(events: seq<Event>, agentId: string) returns (bracketed: bool, usage: seq<Json>)
    ensures bracketed <==> Bracketed(events)
    ensures usage == if bracketed then CountedUsage(events, agentId) else AllUsage(events)
    ensures NeverRestarted(events, agentId) && bracketed ==> usage == AttributedUsage(events, agentId)
  {
    var open: map<string, bool> := map[];
    var mine, other := 0, 0;
    var inside: seq<Json>, all: seq<Json> := [], [];
    bracketed := false;
    for k := 0 to |events|
      invariant Followed(events[..k], agentId, Tracker(open, mine, other), inside, all, bracketed)
    {
      var e := events[k];
      FollowNext(events, k, agentId, Tracker(open, mine, other), inside, all, bracketed);
      var id := Text(e.payload, "invocationId");
      if e.kind == STARTED && id.Some? {
        bracketed := true;
        var isMine := Own(e, agentId);
        open := open[id.value := isMine];
        if isMine { mine := mine + 1; } else { other := other + 1; }
      } else if e.kind == COMPLETED && id.Some? && id.value in open {
        if open[id.value] { mine := mine - 1; } else { other := other - 1; }
        open := open - {id.value};
      } else if e.kind == USAGE {
        all := all + [e.payload];
        if mine > 0 && other == 0 { inside := inside + [e.payload]; }
      }
    }
    assert events[..|events|] == events;
    usage := if bracketed then inside else all;
    if NeverRestarted(events, agentId) { CountedIsAttributed(events, agentId); }
  }

  // ---------------------------------------------------------------- what the counters count

  function Owners(open: map<string, bool>, own: bool): set<string> {
    set id | id in open && open[id] == own
  }

  /** Opening `id` adds it to its owner's invocations and takes it from the other's. */
  lemma OpenOnStart(log: seq<Event>, agentId: string, own: bool)
    requires log != [] && Starts(log[|log| - 1]).Some?
    ensures var last := |log| - 1; var id := Starts(log[last]).value;
            Open(log, agentId, own)
             == Open(log[..last], agentId, own) - {id} + if Own(log[last], agentId) == own then {id} else {}
  {
    var last := |log| - 1;
    var id := Starts(log[last]).value;
    var rest := log[..last];
    assert StillOpen(log, last);
    forall s | 0 <= s < last
      ensures StillOpen(log, s) <==> StillOpen(rest, s) && Starts(log[s]) != Some(id)
    { OpenStays(log, s); }
  }

  lemma OpenStays(log: seq<Event>, s: nat)
    requires s < |log| - 1
    ensures StillOpen(log, s) <==> (
              StillOpen(log[..|log| - 1], s)
              && Starts(log[|log| - 1]) != Starts(log[s]) && Completes(log[|log| - 1]) != Starts(log[s]))
  {}

  /** Any other event only takes away what it completes. */
  lemma OpenOnOther(log: seq<Event>, agentId: string, own: bool)
    requires log != [] && Starts(log[|log| - 1]).None?
    ensures var last := |log| - 1; var done := Completes(log[last]);
            Open(log, agentId, own) == Open(log[..last], agentId, own) - if done.Some? then {done.value} else {}
  {
    var last := |log| - 1;
    var done := Completes(log[last]);
    var gone := if done.Some? then {done.value} else {};
    var before := Open(log[..last], agentId, own);
    forall x | x in Open(log, agentId, own)
      ensures x in before - gone
    {
      var s :| 0 <= s < |log| && StillOpen(log, s) && Own(log[s], agentId) == own && x == Starts(log[s]).value;
      OpenStays(log, s);
    }
    forall x | x in before - gone
      ensures x in Open(log, agentId, own)
    {
      var s :| 0 <= s < last && StillOpen(log[..last], s) && Own(log[s], agentId) == own && x == Starts(log[s]).value;
      OpenStays(log, s);
    }
  }

  /** The map holds the open invocations with their owners. */
  lemma {:induction false} MapHoldsOpen(log: seq<Event>, agentId: string, own: bool)
    ensures Owners(Tracked(log, agentId).open, own) == Open(log, agentId, own)
  {
    if log == [] {
    } else {
      var last := |log| - 1;
      MapHoldsOpen(log[..last], agentId, own);
      if Starts(log[last]).Some? { OpenOnStart(log, agentId, own); } else { OpenOnOther(log, agentId, own); }
    }
  }

  function Count(t: Tracker, own: bool): int {
    if own then t.mine else t.other
  }

  /**
    On every log each counter is the number of open invocations of its owner, plus one for
    every time an open invocation of that owner was started again: such a start is never
    given back.
   */
  lemma {:induction false} CountersLeak(log: seq<Event>, agentId: string, own: bool)
    ensures Count(Tracked(log, agentId), own) == |Open(log, agentId, own)| + Leaks(log, agentId, own)
  {
    if log == [] {
      assert Open(log, agentId, own) == {};
    } else {
      var last := |log| - 1;
      CountersLeak(log[..last], agentId, own);
      if Starts(log[last]).Some? { CountOnStart(log, agentId, own); } else { CountOnOther(log, agentId, own); }
    }
  }

  lemma CountOnStart(log: seq<Event>, agentId: string, own: bool)
    requires log != [] && Starts(log[|log| - 1]).Some?
    requires var rest := log[..|log| - 1];
             Count(Tracked(rest, agentId), own) == |Open(rest, agentId, own)| + Leaks(rest, agentId, own)
    ensures Count(Tracked(log, agentId), own) == |Open(log, agentId, own)| + Leaks(log, agentId, own)
  {
    var e := log[|log| - 1];
    OpenOnStart(log, agentId, own);
  }

  lemma CountOnOther(log: seq<Event>, agentId: string, own: bool)
    requires log != [] && Starts(log[|log| - 1]).None?
    requires var rest := log[..|log| - 1];
             Count(Tracked(rest, agentId), own) == |Open(rest, agentId, own)| + Leaks(rest, agentId, own)
    ensures Count(Tracked(log, agentId), own) == |Open(log, agentId, own)| + Leaks(log, agentId, own)
  {
    var rest, done := log[..|log| - 1], Completes(log[|log| - 1]);
    OpenOnOther(log, agentId, own);
    if done.Some? {
      MapHoldsOpen(rest, agentId, own);
      assert done.value in Owners(Tracked(rest, agentId).open, own) <==> done.value in Open(rest, agentId, own);
    }
  }

  lemma {:induction false} LeaksGrow(log: seq<Event>, agentId: string, own: bool, k: nat)
    requires k <= |log|
    ensures Leaks(log[..k], agentId, own) <= Leaks(log, agentId, own)
    decreases |log|
  {
    if k == |log| {
      assert log[..k] == log;
    } else {
      assert log[..|log| - 1][..k] == log[..k];
      LeaksGrow(log[..|log| - 1], agentId, own, k);
    }
  }

  lemma {:induction false} LeaksAreRestarts(log: seq<Event>, agentId: string, own: bool)
    ensures Leaks(log, agentId, own) == 0 <==> forall t | 0 <= t < |log| :: !Restarts(log, agentId, t, own)
  {
    if log == [] {
    } else {
      var rest := log[..|log| - 1];
      LeaksAreRestarts(rest, agentId, own);
      forall t | 0 <= t < |rest|
        ensures Restarts(log, agentId, t, own) == Restarts(rest, agentId, t, own)
      { assert log[..t] == rest[..t]; }
    }
  }

  /** The counters are the numbers of open invocations everywhere exactly when no open invocation is started again. */
  lemma CountersExact(log: seq<Event>, agentId: string)
    ensures NeverRestarted(log, agentId)
       <==> forall k, own | 0 <= k <= |log| :: Count(Tracked(log[..k], agentId), own) == |Open(log[..k], agentId, own)|
  {
    forall k, own | 0 <= k <= |log|
      ensures Count(Tracked(log[..k], agentId), own) == |Open(log[..k], agentId, own)| + Leaks(log[..k], agentId, own)
      ensures Leaks(log[..k], agentId, own) <= Leaks(log, agentId, own)
    {
      CountersLeak(log[..k], agentId, own);
      LeaksGrow(log, agentId, own, k);
    }
    LeaksAreRestarts(log, agentId, true);
    LeaksAreRestarts(log, agentId, false);
    assert log[..|log|] == log;
    if forall k, own | 0 <= k <= |log| :: Count(Tracked(log[..k], agentId), own) == |Open(log[..k], agentId, own)| {
      assert Leaks(log, agentId, true) == 0 && Leaks(log, agentId, false) == 0 by {
        assert Count(Tracked(log[..|log|], agentId), true) == |Open(log[..|log|], agentId, true)|;
        assert Count(Tracked(log[..|log|], agentId), false) == |Open(log[..|log|], agentId, false)|;
      }
      NoLeaks(log, agentId);
    } else if NeverRestarted(log, agentId) {
      NoLeaks(log, agentId);
    }
  }

  lemma NoLeaks(log: seq<Event>, agentId: string)
    ensures NeverRestarted(log, agentId) <==> Leaks(log, agentId, true) == 0 && Leaks(log, agentId, false) == 0
  {
    LeaksAreRestarts(log, agentId, true);
    LeaksAreRestarts(log, agentId, false);
    if Leaks(log, agentId, true) == 0 && Leaks(log, agentId, false) == 0 {
      forall t, own | 0 <= t < |log|
        ensures !Restarts(log, agentId, t, own)
      { if own { } }
    }
  }

  /**
    Which usage is counted, on every log: a restart of an own invocation stands for an open
    bracket for ever after, a restart of another's blocks for ever after.
   */
  lemma CountedExactly(log: seq<Event>, agentId: string, i: nat)
    requires i < |log|
    ensures Counted(log, agentId, i) <==> (
              log[i].kind == USAGE
              && (Open(log[..i], agentId, true) != {} || Leaks(log[..i], agentId, true) > 0)
              && Open(log[..i], agentId, false) == {} && Leaks(log[..i], agentId, false) == 0)
  {
    CountersLeak(log[..i], agentId, true);
    CountersLeak(log[..i], agentId, false);
  }

  /** Without restarts the counters select what the brackets attribute. */
  lemma {:induction false} CountedIsAttributed(log: seq<Event>, agentId: string)
    requires NeverRestarted(log, agentId)
    ensures CountedUsage(log, agentId) == AttributedUsage(log, agentId)
  {
    if log == [] {
    } else {
      var rest := log[..|log| - 1];
      assert NeverRestarted(rest, agentId) by {
        forall t, own | 0 <= t < |rest|
          ensures !Restarts(rest, agentId, t, own)
        { assert log[..t] == rest[..t] && !Restarts(log, agentId, t, own); }
      }
      CountedIsAttributed(rest, agentId);
      CountedExactly(log, agentId, |rest|);
      NoLeaks(rest, agentId);
    }
  }

  function Bracket(kind: string, id: string, agentId: string): Event {
    Event(kind, Obj([Member("invocationId", Str(id)), Member("agentId", Str(agentId))]))
  }

  lemma BracketReads(kind: string, id: string, agentId: string)
    ensures Text(Bracket(kind, id, agentId).payload, "invocationId") == Some(id)
    ensures Text(Bracket(kind, id, agentId).payload, "agentId") == Some(agentId)
  {
    var ms := Bracket(kind, id, agentId).payload.members;
    FindIsUnique(ms, 0);
    FindIsUnique(ms, 1);
  }

  /** Another agent's invocation that was started twice and completed once hides all later usage of the agent. */
  lemma RestartHidesUsage(payload: Json)
    ensures var start, end := Bracket(STARTED, "j", "judge"), Bracket(COMPLETED, "j", "judge");
            var log := [start, start, end, Bracket(STARTED, "m", "agent"), Event(USAGE, payload)];
            !Counted(log, "agent", 4) && Attributed(log, "agent", 4)
  {
    var start, end := Bracket(STARTED, "j", "judge"), Bracket(COMPLETED, "j", "judge");
    var mine := Bracket(STARTED, "m", "agent");
    BracketReads(STARTED, "j", "judge");
    BracketReads(COMPLETED, "j", "judge");
    BracketReads(STARTED, "m", "agent");
    var one, two, three, four := [start], [start, start], [start, start, end], [start, start, end, mine];
    assert one[..0] == [] && two[..1] == one && three[..2] == two && four[..3] == three;
    assert Tracked(one, "agent") == Tracker(map["j" := false], 0, 1);
    assert Tracked(two, "agent") == Tracker(map["j" := false], 0, 2);
    assert Tracked(three, "agent") == Tracker(map[], 0, 1);
    assert Tracked(four, "agent") == Tracker(map["m" := true], 1, 1);
    MapHoldsOpen(four, "agent", true);
    MapHoldsOpen(four, "agent", false);
    assert [start, start, end, mine, Event(USAGE, payload)][..4] == four;
    assert "m" in Owners(Tracked(four, "agent").open, true);
  }
}
