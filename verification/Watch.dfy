/**
  Watching a run across a process death (conformance/src/lib/durability-watch.ts).

  The watcher and the host interleave: the host moves through `history` while the
  watcher's two reads, its clock reads and its sleeps each let any number of host
  steps pass. A run's log is append-only; its status may change in any way.
 */
module Watch {
  import opened Wrappers

  datatype Event = RunStarted | NodeStarted | Restored | Other
  datatype HostState = HostState(status: string, log: seq<Event>)
  type History = nat -> HostState

  datatype Observation = Observation(readable: bool, runStarted: nat, nodeStarted: nat, restored: nat)
  datatype Verdict = Verdict(
    resumedAfterMs: Option<int>, last: Observation, completedUnresumed: bool, waitedMs: int, transportErrors: nat)

  /** A read either throws (transport failure) or delivers. */
  datatype Read<+T> = Failed | Got(value: T)

  const UNREADABLE := Observation(false, 0, 0, 0)

  function CountOf(log: seq<Event>, e: Event): (n: nat) {
    if log == [] then 0 else (if log[|log| - 1] == e then 1 else 0) + CountOf(log[..|log| - 1], e)
  }

  function Observe(log: seq<Event>): Observation {
    Observation(true, CountOf(log, RunStarted), CountOf(log, NodeStarted), CountOf(log, Restored))
  }

  // ---------------------------------------------------------------- what is assumed of host and caller

  ghost predicate AppendOnly(h: History) {
    forall s, t | s <= t :: h(s).log <= h(t).log
  }

  ghost predicate Below(a: Observation, b: Observation) {
    && a.readable == b.readable
    && a.runStarted <= b.runStarted && a.nodeStarted <= b.nodeStarted && a.restored <= b.restored
  }

  /** More events never undo a resumption. */
  ghost predicate UpwardClosed(resumed: Observation -> bool) {
    forall a, b | Below(a, b) && resumed(a) :: resumed(b)
  }

  /** The host is completed and was not executed again. */
  ghost predicate CompletedUnresumed(h: History, resumed: Observation -> bool, t: nat) {
    h(t).status == "completed" && !resumed(Observe(h(t).log))
  }

  // ---------------------------------------------------------------- the watcher's view of the world

  class Io {
    const history: History
    var moment: nat
    var clock: int

    constructor (history: History)
      ensures this.history == history
    {
      this.history := history;
      moment, clock := 0, 0;
    }

    /** The status at some moment during the call, or null, or a transport failure. */
    method ReadStatus() returns (r: Read<Option<string>>, ghost at: nat)
      modifies this
      ensures old(moment) <= at <= moment && clock >= old(clock)
      ensures r.Got? && r.value.Some? ==> r.value.value == history(at).status
    {
      Pass();
      at := moment;
      var choice: nat := *;
      r := if choice == 0 then Failed else if choice == 1 then Got(None) else Got(Some(history(moment).status));
      Pass();
    }

    /** The log at some moment during the call, or an unreadable observation, or a transport failure. */
    method ReadLog() returns (r: Read<Observation>, ghost at: nat)
      modifies this
      ensures old(moment) <= at <= moment && clock >= old(clock)
      ensures r.Got? && r.value.readable ==> r.value == Observe(history(at).log)
    {
      Pass();
      at := moment;
      var choice: nat := *;
      r := if choice == 0 then Failed else if choice == 1 then Got(UNREADABLE) else Got(Observe(history(moment).log));
      Pass();
    }

    method Now() returns (t: int)
      modifies this
      ensures t == clock >= old(clock) && moment >= old(moment)
    {
      Pass();
      t := clock;
    }

    /** A sleep advances the clock, by at least one tick. */
    method Sleep(ms: nat)
      modifies this
      ensures clock > old(clock) && moment >= old(moment)
    {
      Pass();
      clock := clock + if ms == 0 then 1 else ms;
    }

    method Pass()
      modifies this
      ensures moment >= old(moment) && clock >= old(clock)
    {
      var steps: nat, ms: nat := *, *;
      moment, clock := moment + steps, clock + ms;
    }
  }

  // ---------------------------------------------------------------- one poll

  /** One iteration of the loop: what was read, and when. */
  datatype Poll = Poll(statusAt: nat, status: Read<Option<string>>, logAt: nat, log: Read<Observation>)

  function LogOf(p: Poll): Observation {
    if p.log.Got? then p.log.value else UNREADABLE
  }

  predicate SeesResumption(p: Poll, resumed: Observation -> bool) {
    LogOf(p).readable && resumed(LogOf(p))
  }

  predicate SeesCompletedUnresumed(p: Poll, resumed: Observation -> bool) {
    p.status == Got(Some("completed")) && LogOf(p).readable && !resumed(LogOf(p))
  }

  predicate HasFailedRead(p: Poll) {
    p.status.Failed? || p.log.Failed?
  }

  /** The reads of `p` are of `h`, status first. */
  ghost predicate TakenFrom(p: Poll, h: History) {
    && p.statusAt <= p.logAt
    && (p.status.Got? && p.status.value.Some? ==> p.status.value.value == h(p.statusAt).status)
    && (LogOf(p).readable ==> LogOf(p) == Observe(h(p.logAt).log))
  }

  ghost function FailedPolls(polls: seq<Poll>): nat {
    if polls == [] then 0 else (if HasFailedRead(polls[|polls| - 1]) then 1 else 0) + FailedPolls(polls[..|polls| - 1])
  }

  lemma {:induction false} CountGrows(log: seq<Event>, log': seq<Event>, e: Event)
    requires log <= log'
    ensures CountOf(log, e) <= CountOf(log', e)
    decreases |log'|
  {
    if log == log' {
    } else {
      CountGrows(log, log'[..|log'| - 1], e);
    }
  }

  lemma ObservationsGrow(h: History, s: nat, t: nat)
    requires AppendOnly(h) && s <= t
    ensures Below(Observe(h(s).log), Observe(h(t).log))
  {
    CountGrows(h(s).log, h(t).log, RunStarted);
    CountGrows(h(s).log, h(t).log, NodeStarted);
    CountGrows(h(s).log, h(t).log, Restored);
  }

  lemma PollIsSound(p: Poll, h: History, resumed: Observation -> bool)
    requires AppendOnly(h) && UpwardClosed(resumed) && TakenFrom(p, h)
    ensures SeesCompletedUnresumed(p, resumed) ==> CompletedUnresumed(h, resumed, p.statusAt)
    ensures SeesResumption(p, resumed) ==> forall t | t >= p.logAt :: resumed(Observe(h(t).log))
  {
    ObservationsGrow(h, p.statusAt, p.logAt);
    forall t | t >= p.logAt
      ensures Below(Observe(h(p.logAt).log), Observe(h(t).log))
    { ObservationsGrow(h, p.logAt, t); }
  }

  // ---------------------------------------------------------------- the loop

  /** The polls made of `h` between two moments, and what the loop has counted from them. */
  ghost predicate Recorded(
      polls: seq<Poll>, h: History, resumed: Observation -> bool, start: nat, end: nat, latched: bool, errors: nat)
  {
    && (forall k | 0 <= k < |polls| :: TakenFrom(polls[k], h) && start <= polls[k].statusAt && polls[k].logAt <= end)
    && errors == FailedPolls(polls)
    && (latched <==> exists k :: 0 <= k < |polls| && SeesCompletedUnresumed(polls[k], resumed))
  }

  lemma RecordPoll(
      polls: seq<Poll>, p: Poll, h: History, resumed: Observation -> bool,
      start: nat, end: nat, end': nat, latched: bool, errors: nat)
    requires Recorded(polls, h, resumed, start, end, latched, errors)
    requires TakenFrom(p, h) && start <= p.statusAt && end <= end' && p.logAt <= end'
    ensures Recorded(polls + [p], h, resumed, start, end',
                     latched || SeesCompletedUnresumed(p, resumed), errors + if HasFailedRead(p) then 1 else 0)
  {}

  /** A set latch names a moment at which the host really was completed and not executed again. */
  lemma LatchIsTrue(polls: seq<Poll>, h: History, resumed: Observation -> bool, start: nat, end: nat, errors: nat)
    requires AppendOnly(h) && UpwardClosed(resumed) && Recorded(polls, h, resumed, start, end, true, errors)
    ensures exists t :: start <= t <= end && CompletedUnresumed(h, resumed, t)
  {
    var k :| 0 <= k < |polls| && SeesCompletedUnresumed(polls[k], resumed);
    PollIsSound(polls[k], h, resumed);
  }

  /**
    `polls` records the run: the latch is set exactly by a poll that saw a completed
    status and, read later, a log without resumption; the loop ends at the first poll
    that sees a resumption, or once the budget has elapsed.
   */
  method WatchForResumption(io: Io, budgetMs: int, resumed: Observation -> bool, pollMs: nat)
    returns (w: Verdict, ghost polls: seq<Poll>)
    modifies io
    ensures Recorded(polls, io.history, resumed, old(io.moment), io.moment, w.completedUnresumed, w.transportErrors)
    ensures polls != [] && w.last == LogOf(polls[|polls| - 1])
    ensures forall k | 0 <= k < |polls| - 1 :: !SeesResumption(polls[k], resumed)
    ensures w.resumedAfterMs == if SeesResumption(polls[|polls| - 1], resumed) then Some(w.waitedMs) else None
    ensures w.resumedAfterMs.None? ==> w.waitedMs >= budgetMs
    ensures AppendOnly(io.history) && UpwardClosed(resumed) && w.completedUnresumed ==>
              exists t :: old(io.moment) <= t <= io.moment && CompletedUnresumed(io.history, resumed, t)
    ensures AppendOnly(io.history) && UpwardClosed(resumed) && w.resumedAfterMs.Some? ==>
              resumed(Observe(io.history(io.moment).log))
  {
    ghost var start := io.moment;
    var t0 := io.Now();
    var completedUnresumed, transportErrors := false, 0;
    polls := [];
    while true
      invariant start <= io.moment && t0 <= io.clock
      invariant Recorded(polls, io.history, resumed, start, io.moment, completedUnresumed, transportErrors)
      invariant forall k | 0 <= k < |polls| :: !SeesResumption(polls[k], resumed)
      decreases t0 + budgetMs - io.clock
    {
      ghost var before := io.moment;
      var st, statusAt := io.ReadStatus();
      var lg, logAt := io.ReadLog();
      ghost var p := Poll(statusAt, st, logAt, lg);
      var failed := st.Failed? || lg.Failed?;
      var status := if st.Got? then st.value else None;
      var last := if lg.Got? then lg.value else UNREADABLE;
      var now := io.Now();
      var waitedMs := now - t0;
      var isResumed := last.readable && resumed(last);
      RecordPoll(polls, p, io.history, resumed, start, before, io.moment, completedUnresumed, transportErrors);
      polls := polls + [p];
      if failed { transportErrors := transportErrors + 1; }
      if status == Some("completed") && last.readable && !isResumed { completedUnresumed := true; }
      if isResumed || waitedMs >= budgetMs {
        w := Verdict(if isResumed then Some(waitedMs) else None, last, completedUnresumed, waitedMs, transportErrors);
        if AppendOnly(io.history) && UpwardClosed(resumed) {
          PollIsSound(p, io.history, resumed);
          if completedUnresumed { LatchIsTrue(polls, io.history, resumed, start, io.moment, transportErrors); }
        }
        return;
      }
      io.Sleep(pollMs);
    }
  }

  // ---------------------------------------------------------------- the order of the reads

  /** What a poll concludes from a status read at `s` and a log read at `l`. */
  ghost predicate Concludes(h: History, resumed: Observation -> bool, s: nat, l: nat) {
    h(s).status == "completed" && !resumed(Observe(h(l).log))
  }

  /** Whatever the host does, the conclusion is true of some moment. */
  ghost predicate OrderIsSound(s: nat, l: nat) {
    forall h: History, resumed: Observation -> bool
      | AppendOnly(h) && UpwardClosed(resumed) && Concludes(h, resumed, s, l)
      :: exists t :: CompletedUnresumed(h, resumed, t)
  }

  /** A host that re-executes and completes at moment `s`. */
  function RecoversAt(s: nat): History {
    (t: nat) => if t < s then HostState("running", [RunStarted]) else HostState("completed", [RunStarted, RunStarted])
  }

  /** The conclusion is safe against every host if and only if the log is not read before the status. */
  lemma StatusFirst(s: nat, l: nat)
    ensures OrderIsSound(s, l) <==> s <= l
  {
    if s <= l {
      forall h: History, resumed: Observation -> bool
        | AppendOnly(h) && UpwardClosed(resumed) && Concludes(h, resumed, s, l)
        ensures exists t :: CompletedUnresumed(h, resumed, t)
      {
        ObservationsGrow(h, s, l);
        assert CompletedUnresumed(h, resumed, s);
      }
    } else {
      var h := RecoversAt(s);
      var resumed := (o: Observation) => o.runStarted >= 2;
      assert CountOf([RunStarted], RunStarted) == 1;
      assert CountOf([RunStarted, RunStarted], RunStarted) == 2 by {
        assert [RunStarted, RunStarted][..1] == [RunStarted];
      }
      assert AppendOnly(h) && UpwardClosed(resumed) && Concludes(h, resumed, s, l);
      assert forall t :: !CompletedUnresumed(h, resumed, t);
    }
  }
}
