/**
  The transcript-window checker (conformance/src/lib/context-budget.ts,
  `checkTranscriptWindow`).
 */
module Window {
  import opened Wrappers
  import Utf

  datatype Entry = Entry(eventId: string, rendered: seq<Utf.Unit>)
  datatype Range = Range(summaryRef: string, replacedTurns: seq<string>)
  datatype TranscriptWindow = TranscriptWindow(
    tokenCounter: string, tokenCount: int, eventIds: seq<string>, summarizedRanges: seq<Range>,
    entries: Option<seq<Entry>>)

  /** A log event with the two payload members the checker reads, when they have the right type. */
  datatype LogEvent = LogEvent(
    eventId: string, kind: string, sequence: int, nodeId: Option<string>, summaryRef: Option<string>,
    iteration: Option<int>)
  datatype Cap = Cap(transcriptTokenBudget: int, tokenCounter: string)

  datatype Violation =
    | WrongCounter | OverBudget | RepeatedId | NoEntries | WrongSum
    | UnknownId(id: string) | UnknownSummary(ref: string) | UnknownEntry(id: string) | UnlistedSummary(id: string)
    | EntriesDiffer | OutOfOrder | AfterDecision(id: string) | DroppedRecent(id: string)

  datatype Verdict = Verdict(violations: seq<Violation>, pressure: bool, unmeasured: bool)

  const SUMMARIZED := "context.summarized"
  const DECIDED := "runOrchestrator.decided"
  const NUL: char := '\0'

  // ---------------------------------------------------------------- what the checker reads

  /** Unicode code points. */
  function CharCount(s: seq<Utf.Unit>): nat {
    |Utf.ToScalars(s)|
  }

  function Chars(entries: seq<Entry>): nat {
    if entries == [] then 0 else Chars(entries[..|entries| - 1]) + CharCount(entries[|entries| - 1].rendered)
  }

  /** The event a map built from the log holds under `id`: the last one. */
  function EventOf(log: seq<LogEvent>, id: string): Option<LogEvent> {
    if log == [] then None
    else if log[|log| - 1].eventId == id then Some(log[|log| - 1])
    else EventOf(log[..|log| - 1], id)
  }

  function EligibilityKey(e: LogEvent): string {
    e.kind + [NUL] + if e.nodeId.Some? then e.nodeId.value else ""
  }

  /** The window's event ids that name an event, in order. */
  function Fed(log: seq<LogEvent>, ids: seq<string>): seq<LogEvent> {
    if ids == [] then []
    else
      var e := EventOf(log, ids[|ids| - 1]);
      Fed(log, ids[..|ids| - 1]) + if e.Some? then [e.value] else []
  }

  function Join(ids: seq<string>): string {
    if ids == [] then "" else if |ids| == 1 then ids[0] else ids[0] + [NUL] + Join(ids[1..])
  }

  /** The ids of the entries that are events of the run but not summaries. */
  function Verbatim(log: seq<LogEvent>, entries: seq<Entry>): seq<string> {
    if entries == [] then []
    else
      var id := entries[|entries| - 1].eventId;
      var e := EventOf(log, id);
      Verbatim(log, entries[..|entries| - 1]) + if e.Some? && e.value.kind != SUMMARIZED then [id] else []
  }

  predicate HasSummary(log: seq<LogEvent>, ref: string) {
    exists e | e in log :: e.kind == SUMMARIZED && e.summaryRef == Some(ref)
  }

  predicate Lists(ranges: seq<Range>, ref: Option<string>) {
    exists r | r in ranges :: Some(r.summaryRef) == ref
  }

  predicate Replaced(ranges: seq<Range>, id: string) {
    exists r | r in ranges :: id in r.replacedTurns
  }

  /** The iteration's own decision: the first one logged. */
  function Decision(log: seq<LogEvent>, iteration: int): Option<LogEvent> {
    if log == [] then None
    else if log[0].kind == DECIDED && log[0].iteration == Some(iteration) then Some(log[0])
    else Decision(log[1..], iteration)
  }

  function MinSequence(es: seq<LogEvent>): int
    requires es != []
  {
    if |es| == 1 then es[0].sequence
    else
      var m := MinSequence(es[..|es| - 1]);
      if es[|es| - 1].sequence < m then es[|es| - 1].sequence else m
  }

  function MaxSequence(es: seq<LogEvent>): int
    requires es != []
  {
    if |es| == 1 then es[0].sequence
    else
      var m := MaxSequence(es[..|es| - 1]);
      if es[|es| - 1].sequence > m then es[|es| - 1].sequence else m
  }

  /** The first sequence number that is out of the window's reach. */
  function Bound(log: seq<LogEvent>, iteration: int, fed: seq<LogEvent>): int
    requires fed != []
  {
    var d := Decision(log, iteration);
    if d.Some? then d.value.sequence else MaxSequence(fed) + 1
  }

  predicate Eligible(fed: seq<LogEvent>, e: LogEvent) {
    exists f | f in fed :: EligibilityKey(f) == EligibilityKey(e)
  }

  predicate IsFed(fed: seq<LogEvent>, id: string) {
    exists f | f in fed :: f.eventId == id
  }

  /** Eligible and left out. */
  predicate LeftOut(fed: seq<LogEvent>, e: LogEvent) {
    Eligible(fed, e) && !IsFed(fed, e.eventId)
  }

  predicate Dropped(log: seq<LogEvent>, iteration: int, fed: seq<LogEvent>, ranges: seq<Range>, e: LogEvent)
    requires fed != []
  {
    LeftOut(fed, e) && MinSequence(fed) < e.sequence < Bound(log, iteration, fed) && !Replaced(ranges, e.eventId)
  }

  predicate Repeats(ids: seq<string>) {
    exists i, k :: 0 <= i < k < |ids| && ids[i] == ids[k]
  }

  predicate Descends(es: seq<LogEvent>) {
    exists k :: 1 <= k < |es| && es[k].sequence <= es[k - 1].sequence
  }

  // ---------------------------------------------------------------- when a rule is broken

  ghost predicate Broken(v: Violation, iteration: int, w: TranscriptWindow, cap: Cap, log: Option<seq<LogEvent>>) {
    match v
    case WrongCounter => w.tokenCounter != cap.tokenCounter
    case OverBudget => w.tokenCount > cap.transcriptTokenBudget
    case RepeatedId => Repeats(w.eventIds)
    case NoEntries => cap.tokenCounter == "chars" && w.entries.None?
    case WrongSum => cap.tokenCounter == "chars" && w.entries.Some? && Chars(w.entries.value) != w.tokenCount
    case UnknownId(id) => log.Some? && id in w.eventIds && EventOf(log.value, id).None?
    case UnknownSummary(ref) => log.Some? && Lists(w.summarizedRanges, Some(ref)) && !HasSummary(log.value, ref)
    case UnknownEntry(id) =>
      log.Some? && w.entries.Some? && HasEntry(w.entries.value, id) && EventOf(log.value, id).None?
    case UnlistedSummary(id) =>
      log.Some? && w.entries.Some? && HasEntry(w.entries.value, id)
      && var e := EventOf(log.value, id);
         e.Some? && e.value.kind == SUMMARIZED && !Lists(w.summarizedRanges, e.value.summaryRef)
    case EntriesDiffer => log.Some? && w.entries.Some? && Join(Verbatim(log.value, w.entries.value)) != Join(w.eventIds)
    case OutOfOrder => log.Some? && Descends(Fed(log.value, w.eventIds))
    case AfterDecision(id) =>
      log.Some? && Decision(log.value, iteration).Some?
      && exists f | f in Fed(log.value, w.eventIds) ::
           f.eventId == id && f.sequence >= Decision(log.value, iteration).value.sequence
    case DroppedRecent(id) =>
      log.Some? && Fed(log.value, w.eventIds) != []
      && exists e | e in log.value ::
           e.eventId == id && Dropped(log.value, iteration, Fed(log.value, w.eventIds), w.summarizedRanges, e)
  }

  predicate HasEntry(entries: seq<Entry>, id: string) {
    exists e | e in entries :: e.eventId == id
  }

  /** The budget acted: something was summarized, or an eligible event older than all that was fed was left out. */
  ghost predicate UnderPressure(w: TranscriptWindow, log: seq<LogEvent>) {
    var fed := Fed(log, w.eventIds);
    w.summarizedRanges != []
    || (fed != [] && LeavesOlderOut(log, fed))
  }

  // ---------------------------------------------------------------- the checker

  /** Rules that need no log. */
  method CheckShape(w: TranscriptWindow, cap: Cap) returns (vs: seq<Violation>)
    ensures forall v :: v in vs <==>
              v in {WrongCounter, OverBudget, RepeatedId, NoEntries, WrongSum} && Broken(v, 0, w, cap, None)
  {
    vs := [];
    if w.tokenCounter != cap.tokenCounter { vs := vs + [WrongCounter]; }
    if w.tokenCount > cap.transcriptTokenBudget { vs := vs + [OverBudget]; }
    if Repeats(w.eventIds) { vs := vs + [RepeatedId]; }
    if cap.tokenCounter == "chars" {
      if w.entries.None? {
        vs := vs + [NoEntries];
      } else {
        var sum := 0;
        for k := 0 to |w.entries.value|
          invariant sum == Chars(w.entries.value[..k])
        {
          assert w.entries.value[..k + 1][..k] == w.entries.value[..k];
          sum := sum + CharCount(w.entries.value[k].rendered);
        }
        assert w.entries.value[..|w.entries.value|] == w.entries.value;
        if sum != w.tokenCount { vs := vs + [WrongSum]; }
      }
    }
  }

  method CheckNames(w: TranscriptWindow, log: seq<LogEvent>) returns (vs: seq<Violation>)
    ensures forall v :: v in vs <==> (v.UnknownId? || v.UnknownSummary?) && Broken(v, 0, w, Cap(0, ""), Some(log))
  {
    vs := [];
    for k := 0 to |w.eventIds|
      invariant forall v :: v in vs <==> v.UnknownId? && v.id in w.eventIds[..k] && EventOf(log, v.id).None?
    {
      if EventOf(log, w.eventIds[k]).None? { vs := vs + [UnknownId(w.eventIds[k])]; }
      assert w.eventIds[..k + 1] == w.eventIds[..k] + [w.eventIds[k]];
    }
    assert w.eventIds[..|w.eventIds|] == w.eventIds;
    ghost var ids := vs;
    var ranges := w.summarizedRanges;
    for k := 0 to |ranges|
      invariant forall v :: v in vs <==>
                  v in ids || (v.UnknownSummary? && Lists(ranges[..k], Some(v.ref)) && !HasSummary(log, v.ref))
    {
      assert ranges[..k + 1] == ranges[..k] + [ranges[k]];
      if !HasSummary(log, ranges[k].summaryRef) { vs := vs + [UnknownSummary(ranges[k].summaryRef)]; }
    }
    assert ranges[..|ranges|] == ranges;
  }

  /** What one entry breaks. */
  function EntryIssue(log: seq<LogEvent>, ranges: seq<Range>, id: string): seq<Violation> {
    var e := EventOf(log, id);
    if e.None? then [UnknownEntry(id)]
    else if e.value.kind == SUMMARIZED && !Lists(ranges, e.value.summaryRef) then [UnlistedSummary(id)]
    else []
  }

  ghost predicate HoldsIssues(vs: seq<Violation>, log: seq<LogEvent>, ranges: seq<Range>, entries: seq<Entry>) {
    forall v :: v in vs <==> exists e | e in entries :: v in EntryIssue(log, ranges, e.eventId)
  }

  lemma IssuesAreTheBroken(vs: seq<Violation>, w: TranscriptWindow, log: seq<LogEvent>, entries: seq<Entry>)
    requires w.entries == Some(entries) && HoldsIssues(vs, log, w.summarizedRanges, entries)
    ensures forall v :: v in vs <==> (v.UnknownEntry? || v.UnlistedSummary?) && Broken(v, 0, w, Cap(0, ""), Some(log))
  {}

  method CheckEntries(entries: seq<Entry>, w: TranscriptWindow, log: seq<LogEvent>) returns (vs: seq<Violation>)
    requires w.entries == Some(entries)
    ensures forall v :: v in vs <==>
              (v.UnknownEntry? || v.UnlistedSummary? || v.EntriesDiffer?) && Broken(v, 0, w, Cap(0, ""), Some(log))
  {
    vs := [];
    var verbatim: seq<string> := [];
    for k := 0 to |entries|
      invariant verbatim == Verbatim(log, entries[..k])
      invariant HoldsIssues(vs, log, w.summarizedRanges, entries[..k])
    {
      assert entries[..k + 1][..k] == entries[..k];
      var id := entries[k].eventId;
      var e := EventOf(log, id);
      vs := vs + EntryIssue(log, w.summarizedRanges, id);
      if e.Some? && e.value.kind != SUMMARIZED { verbatim := verbatim + [id]; }
    }
    assert entries[..|entries|] == entries;
    IssuesAreTheBroken(vs, w, log, entries);
    if Join(verbatim) != Join(w.eventIds) { vs := vs + [EntriesDiffer]; }
  }

  /** The recent-tail rules, on what was fed. */
  method CheckTail(iteration: int, w: TranscriptWindow, log: seq<LogEvent>, fed: seq<LogEvent>)
    returns (vs: seq<Violation>, pressure: bool)
    requires fed == Fed(log, w.eventIds) && fed != []
    ensures forall v :: v in vs <==>
              (v.OutOfOrder? || v.AfterDecision? || v.DroppedRecent?) && Broken(v, iteration, w, Cap(0, ""), Some(log))
    ensures pressure <==> UnderPressure(w, log)
  {
    vs := if Descends(fed) then [OutOfOrder] else [];
    var decided := Decision(log, iteration);
    if decided.Some? {
      for k := 0 to |fed|
        invariant forall v :: v in vs <==>
                    (v.OutOfOrder? && Descends(fed))
                    || (v.AfterDecision?
                        && exists f | f in fed[..k] :: f.eventId == v.id && f.sequence >= decided.value.sequence)
      {
        assert fed[..k + 1] == fed[..k] + [fed[k]];
        if fed[k].sequence >= decided.value.sequence { vs := vs + [AfterDecision(fed[k].eventId)]; }
      }
      assert fed[..|fed|] == fed;
    }
    var dropped;
    dropped, pressure := CheckDropped(iteration, w, log, fed);
    vs := vs + dropped;
  }

  ghost predicate HoldsDropped(
      vs: seq<Violation>, log: seq<LogEvent>, iteration: int, fed: seq<LogEvent>, ranges: seq<Range>,
      seen: seq<LogEvent>)
    requires fed != []
  {
    forall v :: v in vs <==>
      v.DroppedRecent? && exists e | e in seen :: e.eventId == v.id && Dropped(log, iteration, fed, ranges, e)
  }

  lemma DroppedStep(
      vs: seq<Violation>, log: seq<LogEvent>, iteration: int, fed: seq<LogEvent>, ranges: seq<Range>,
      seen: seq<LogEvent>, e: LogEvent)
    requires fed != [] && HoldsDropped(vs, log, iteration, fed, ranges, seen)
    ensures HoldsDropped(if Dropped(log, iteration, fed, ranges, e) then vs + [DroppedRecent(e.eventId)] else vs,
                         log, iteration, fed, ranges, seen + [e])
  {}

  method CheckDropped(iteration: int, w: TranscriptWindow, log: seq<LogEvent>, fed: seq<LogEvent>)
    returns (vs: seq<Violation>, pressure: bool)
    requires fed == Fed(log, w.eventIds) && fed != []
    ensures forall v :: v in vs <==> v.DroppedRecent? && Broken(v, iteration, w, Cap(0, ""), Some(log))
    ensures pressure <==> UnderPressure(w, log)
  {
    var minFed, bound := MinSequence(fed), Bound(log, iteration, fed);
    vs := [];
    pressure := w.summarizedRanges != [];
    for k := 0 to |log|
      invariant HoldsDropped(vs, log, iteration, fed, w.summarizedRanges, log[..k])
      invariant pressure <==> w.summarizedRanges != [] || LeavesOlderOut(log[..k], fed)
    {
      assert log[..k + 1] == log[..k] + [log[k]];
      var e := log[k];
      DroppedStep(vs, log, iteration, fed, w.summarizedRanges, log[..k], e);
      if !LeftOut(fed, e) { continue; }
      if minFed < e.sequence < bound && !Replaced(w.summarizedRanges, e.eventId) {
        vs := vs + [DroppedRecent(e.eventId)];
      }
      if e.sequence < minFed { pressure := true; }
    }
    assert log[..|log|] == log;
  }

  /** The verdict reports exactly the broken rules; without a log it says what it could not measure. */
  method CheckTranscriptWindow(iteration: int, w: TranscriptWindow, cap: Cap, log: Option<seq<LogEvent>>)
    returns (r: Verdict)
    ensures forall v :: v in r.violations <==> Broken(v, iteration, w, cap, log)
    ensures r.unmeasured <==> log.None?
    ensures r.pressure <==> log.Some? && UnderPressure(w, log.value)
  {
    var vs := CheckShape(w, cap);
    if log.None? { return Verdict(vs, false, true); }
    var names := CheckNames(w, log.value);
    var entryIssues: seq<Violation> := [];
    if w.entries.Some? { entryIssues := CheckEntries(w.entries.value, w, log.value); }
    var fed := Fed(log.value, w.eventIds);
    if fed == [] { return Verdict(vs + names + entryIssues, w.summarizedRanges != [], false); }
    var tail, pressure := CheckTail(iteration, w, log.value, fed);
    r := Verdict(vs + names + entryIssues + tail, pressure, false);
  }

  // ---------------------------------------------------------------- what a clean verdict means

  ghost predicate Clean(iteration: int, w: TranscriptWindow, cap: Cap, log: seq<LogEvent>) {
    forall v :: !Broken(v, iteration, w, cap, Some(log))
  }

  /** What the RFC promises of a log: unique ids in strictly increasing sequence. */
  ghost predicate ProperLog(log: seq<LogEvent>) {
    forall i, k | 0 <= i < k < |log| :: log[i].eventId != log[k].eventId && log[i].sequence < log[k].sequence
  }

  /** The eligible events before a sequence number, in log order. */
  ghost function EligibleBefore(log: seq<LogEvent>, fed: seq<LogEvent>, bound: int): seq<LogEvent> {
    if log == [] then []
    else
      var e := log[|log| - 1];
      EligibleBefore(log[..|log| - 1], fed, bound) + if Eligible(fed, e) && e.sequence < bound then [e] else []
  }

  ghost predicate Ascends(es: seq<LogEvent>) {
    forall i, k | 0 <= i < k < |es| :: es[i].sequence < es[k].sequence
  }

  lemma {:induction false} EventOfIsLogged(log: seq<LogEvent>, id: string)
    ensures EventOf(log, id).Some? ==> EventOf(log, id).value in log && EventOf(log, id).value.eventId == id
  {
    if log == [] || log[|log| - 1].eventId == id {
    } else {
      EventOfIsLogged(log[..|log| - 1], id);
    }
  }

  lemma {:induction false} FedIsLogged(log: seq<LogEvent>, ids: seq<string>)
    ensures forall f | f in Fed(log, ids) :: f in log
    ensures (forall id | id in ids :: EventOf(log, id).Some?) ==>
              |Fed(log, ids)| == |ids| && forall k | 0 <= k < |ids| :: Fed(log, ids)[k].eventId == ids[k]
  {
    if ids == [] {
    } else {
      FedIsLogged(log, ids[..|ids| - 1]);
      EventOfIsLogged(log, ids[|ids| - 1]);
    }
  }

  lemma {:induction false} EligibleBeforeIs(log: seq<LogEvent>, fed: seq<LogEvent>, bound: int)
    requires ProperLog(log)
    ensures Ascends(EligibleBefore(log, fed, bound))
    ensures forall e :: e in EligibleBefore(log, fed, bound) <==> e in log && Eligible(fed, e) && e.sequence < bound
  {
    if log == [] {
    } else {
      var rest := log[..|log| - 1];
      EligibleBeforeIs(rest, fed, bound);
      assert log == rest + [log[|log| - 1]];
    }
  }

  lemma {:induction false} MinSequenceIs(es: seq<LogEvent>)
    requires es != [] && Ascends(es)
    ensures MinSequence(es) == es[0].sequence
  {
    if |es| == 1 {
    } else {
      MinSequenceIs(es[..|es| - 1]);
    }
  }

  lemma AdjacentAscends(es: seq<LogEvent>)
    requires !Descends(es)
    ensures Ascends(es)
  {
    forall i, k | 0 <= i < k < |es|
      ensures es[i].sequence < es[k].sequence
    { AdjacentReaches(es, i, k); }
  }

  lemma {:induction false} AdjacentReaches(es: seq<LogEvent>, i: nat, k: nat)
    requires !Descends(es) && i < k < |es|
    ensures es[i].sequence < es[k].sequence
    decreases k
  {
    assert es[k - 1].sequence < es[k].sequence;
    if i == k - 1 {
    } else {
      AdjacentReaches(es, i, k - 1);
    }
  }

  /** `part` ascends within `all`, and nothing of `all` from its first element on is missing. */
  ghost predicate EndsWith(all: seq<LogEvent>, part: seq<LogEvent>) {
    && Ascends(all) && Ascends(part)
    && (forall e | e in part :: e in all)
    && (part != [] ==> forall e | e in all && e.sequence >= part[0].sequence :: e in part)
  }

  lemma SameLast(all: seq<LogEvent>, part: seq<LogEvent>)
    requires EndsWith(all, part) && part != []
    ensures all != [] && all[|all| - 1] == part[|part| - 1]
  {}

  lemma DropLast(all: seq<LogEvent>, part: seq<LogEvent>)
    requires EndsWith(all, part) && part != [] && all != [] && all[|all| - 1] == part[|part| - 1]
    ensures EndsWith(all[..|all| - 1], part[..|part| - 1])
  {}

  lemma {:induction false} IsSuffix(all: seq<LogEvent>, part: seq<LogEvent>)
    requires EndsWith(all, part)
    ensures |part| <= |all| && all[|all| - |part|..] == part
    decreases |part|
  {
    if part == [] {
    } else {
      SameLast(all, part);
      DropLast(all, part);
      IsSuffix(all[..|all| - 1], part[..|part| - 1]);
      AppendLast(all, part);
    }
  }

  lemma AppendLast<T>(all: seq<T>, part: seq<T>)
    requires 0 < |part| <= |all| && all[|all| - 1] == part[|part| - 1]
    requires all[..|all| - 1][|all| - |part|..] == part[..|part| - 1]
    ensures all[|all| - |part|..] == part
  {}

  lemma {:induction false} DecisionIsLogged(log: seq<LogEvent>, iteration: int)
    ensures Decision(log, iteration).Some? ==>
              Decision(log, iteration).value in log && Decision(log, iteration).value.kind == DECIDED
  {
    if log == [] {
    } else {
      DecisionIsLogged(log[1..], iteration);
    }
  }

  /**
    RFC 0111 (c), the recent tail. On a proper log with the iteration's decision in it, a
    clean window that summarized nothing was fed exactly the last eligible events before
    that decision, in order.
   */
  lemma RecentTail(iteration: int, w: TranscriptWindow, cap: Cap, log: seq<LogEvent>)
    requires ProperLog(log) && Clean(iteration, w, cap, log)
    requires Decision(log, iteration).Some? && w.summarizedRanges == [] && w.eventIds != []
    ensures var fed := Fed(log, w.eventIds);
            var eligible := EligibleBefore(log, fed, Decision(log, iteration).value.sequence);
            && |fed| == |w.eventIds| && (forall k | 0 <= k < |fed| :: fed[k].eventId == w.eventIds[k])
            && |fed| <= |eligible| && fed == eligible[|eligible| - |fed|..]
  {
    FedInOrder(iteration, w, cap, log);
    FedEndsEligible(iteration, w, cap, log);
    IsSuffix(EligibleBefore(log, Fed(log, w.eventIds), Decision(log, iteration).value.sequence), Fed(log, w.eventIds));
  }

  lemma FedEndsEligible(iteration: int, w: TranscriptWindow, cap: Cap, log: seq<LogEvent>)
    requires ProperLog(log) && Clean(iteration, w, cap, log)
    requires Decision(log, iteration).Some? && w.summarizedRanges == [] && w.eventIds != []
    ensures var fed := Fed(log, w.eventIds);
            EndsWith(EligibleBefore(log, fed, Decision(log, iteration).value.sequence), fed)
  {
    var cutoff := Decision(log, iteration).value.sequence;
    FedInOrder(iteration, w, cap, log);
    FedAreEligible(iteration, w, cap, log, cutoff);
    RecentAreFed(iteration, w, cap, log, cutoff);
    EligibleBeforeIs(log, Fed(log, w.eventIds), cutoff);
  }

  lemma FedAreEligible(iteration: int, w: TranscriptWindow, cap: Cap, log: seq<LogEvent>, cutoff: int)
    requires ProperLog(log) && Clean(iteration, w, cap, log)
    requires Decision(log, iteration).Some? && Decision(log, iteration).value.sequence == cutoff
    ensures forall f | f in Fed(log, w.eventIds) :: f in EligibleBefore(log, Fed(log, w.eventIds), cutoff)
  {
    forall f | f in Fed(log, w.eventIds)
      ensures f in EligibleBefore(log, Fed(log, w.eventIds), cutoff)
    { FedIsEligible(iteration, w, cap, log, f); }
  }

  lemma RecentAreFed(iteration: int, w: TranscriptWindow, cap: Cap, log: seq<LogEvent>, cutoff: int)
    requires ProperLog(log) && Clean(iteration, w, cap, log) && w.summarizedRanges == []
    requires Decision(log, iteration).Some? && Decision(log, iteration).value.sequence == cutoff
    requires Ascends(Fed(log, w.eventIds)) && Fed(log, w.eventIds) != []
    ensures var fed := Fed(log, w.eventIds);
            forall e | e in EligibleBefore(log, fed, cutoff) && e.sequence >= fed[0].sequence :: e in fed
  {
    var fed := Fed(log, w.eventIds);
    EligibleBeforeIs(log, fed, cutoff);
    forall e | e in EligibleBefore(log, fed, cutoff) && e.sequence >= fed[0].sequence
      ensures e in fed
    { AllRecentAreFed(iteration, w, cap, log, e); }
  }

  lemma FedInOrder(iteration: int, w: TranscriptWindow, cap: Cap, log: seq<LogEvent>)
    requires Clean(iteration, w, cap, log)
    ensures var fed := Fed(log, w.eventIds);
            Ascends(fed) && |fed| == |w.eventIds| && forall k | 0 <= k < |fed| :: fed[k].eventId == w.eventIds[k]
  {
    forall id | id in w.eventIds
      ensures EventOf(log, id).Some?
    { assert !Broken(UnknownId(id), iteration, w, cap, Some(log)); }
    FedIsLogged(log, w.eventIds);
    assert !Broken(OutOfOrder, iteration, w, cap, Some(log));
    AdjacentAscends(Fed(log, w.eventIds));
  }

  lemma FedIsEligible(iteration: int, w: TranscriptWindow, cap: Cap, log: seq<LogEvent>, f: LogEvent)
    requires ProperLog(log) && Clean(iteration, w, cap, log) && Decision(log, iteration).Some?
    requires f in Fed(log, w.eventIds)
    ensures f in EligibleBefore(log, Fed(log, w.eventIds), Decision(log, iteration).value.sequence)
  {
    FedBeforeDecision(iteration, w, cap, log, f);
    FedIsLogged(log, w.eventIds);
    EligibleBeforeIs(log, Fed(log, w.eventIds), Decision(log, iteration).value.sequence);
    assert Eligible(Fed(log, w.eventIds), f);
  }

  lemma FedBeforeDecision(iteration: int, w: TranscriptWindow, cap: Cap, log: seq<LogEvent>, f: LogEvent)
    requires Clean(iteration, w, cap, log) && Decision(log, iteration).Some? && f in Fed(log, w.eventIds)
    ensures f.sequence < Decision(log, iteration).value.sequence
  {
    assert !Broken(AfterDecision(f.eventId), iteration, w, cap, Some(log));
  }

  /** Nothing eligible is missing between the first event fed and the decision, except what a summary replaced. */
  lemma RecentIsFedOrReplaced(iteration: int, w: TranscriptWindow, cap: Cap, log: seq<LogEvent>, e: LogEvent)
    requires ProperLog(log) && Clean(iteration, w, cap, log) && Decision(log, iteration).Some?
    requires Fed(log, w.eventIds) != [] && e in log && Eligible(Fed(log, w.eventIds), e)
    requires Fed(log, w.eventIds)[0].sequence <= e.sequence < Decision(log, iteration).value.sequence
    ensures e in Fed(log, w.eventIds) || Replaced(w.summarizedRanges, e.eventId)
  {
    FedInOrder(iteration, w, cap, log);
    AllRecentAreFed(iteration, w, cap, log, e);
  }

  lemma AllRecentAreFed(iteration: int, w: TranscriptWindow, cap: Cap, log: seq<LogEvent>, e: LogEvent)
    requires ProperLog(log) && Clean(iteration, w, cap, log) && Decision(log, iteration).Some?
    requires Fed(log, w.eventIds) != [] && e in log && Eligible(Fed(log, w.eventIds), e)
    requires e.sequence < Decision(log, iteration).value.sequence
    requires Ascends(Fed(log, w.eventIds)) && e.sequence >= Fed(log, w.eventIds)[0].sequence
    ensures e in Fed(log, w.eventIds) || Replaced(w.summarizedRanges, e.eventId)
  {
    var fed := Fed(log, w.eventIds);
    assert !Broken(DroppedRecent(e.eventId), iteration, w, cap, Some(log));
    assert e.sequence > MinSequence(fed) ==> IsFed(fed, e.eventId) || Replaced(w.summarizedRanges, e.eventId);
    FedIsLogged(log, w.eventIds);
    MinSequenceIs(fed);
    if !Replaced(w.summarizedRanges, e.eventId) { OneEventPerPlace(log, fed, e); }
  }

  /** On a proper log an event shares neither its id nor its sequence number. */
  lemma OneEventPerPlace(log: seq<LogEvent>, fed: seq<LogEvent>, e: LogEvent)
    requires ProperLog(log) && fed != [] && e in log && forall f | f in fed :: f in log
    requires e.sequence == fed[0].sequence || IsFed(fed, e.eventId)
    ensures e in fed
  {
    assert fed[0] in log;
    assert forall f | f in log && (f.eventId == e.eventId || f.sequence == e.sequence) :: f == e;
  }

  /** RFC 0111 (b): for `chars`, the count is the sum of the rendered code points, and within the budget. */
  lemma CharsCounted(iteration: int, w: TranscriptWindow, cap: Cap, log: seq<LogEvent>)
    requires Clean(iteration, w, cap, log) && cap.tokenCounter == "chars"
    ensures w.entries.Some? && w.tokenCounter == "chars"
    ensures w.tokenCount == Chars(w.entries.value) <= cap.transcriptTokenBudget
  {
    assert !Broken(NoEntries, iteration, w, cap, Some(log)) && !Broken(WrongSum, iteration, w, cap, Some(log));
    assert !Broken(OverBudget, iteration, w, cap, Some(log)) && !Broken(WrongCounter, iteration, w, cap, Some(log));
  }

  /** On a proper log, pressure means that the fed tail is shorter than the eligible history. */
  lemma PressureIsATail(iteration: int, w: TranscriptWindow, cap: Cap, log: seq<LogEvent>)
    requires ProperLog(log) && Clean(iteration, w, cap, log)
    requires Decision(log, iteration).Some? && w.summarizedRanges == [] && w.eventIds != []
    ensures var fed := Fed(log, w.eventIds);
            UnderPressure(w, log) <==> |fed| < |EligibleBefore(log, fed, Decision(log, iteration).value.sequence)|
  {
    var fed := Fed(log, w.eventIds);
    assert EndsWith(EligibleBefore(log, fed, Decision(log, iteration).value.sequence), fed) by {
      FedEndsEligible(iteration, w, cap, log);
    }
    assert fed != [] by { FedInOrder(iteration, w, cap, log); }
    FedIsLogged(log, w.eventIds);
    TailIsShort(log, fed, Decision(log, iteration).value.sequence);
  }

  ghost predicate LeavesOlderOut(log: seq<LogEvent>, fed: seq<LogEvent>)
    requires fed != []
  {
    exists e | e in log :: LeftOut(fed, e) && e.sequence < MinSequence(fed)
  }

  lemma ShorterLeavesOut(log: seq<LogEvent>, fed: seq<LogEvent>, all: seq<LogEvent>)
    requires ProperLog(log) && fed != [] && forall f | f in fed :: f in log
    requires forall e | e in all :: e in log && Eligible(fed, e)
    requires Ascends(all) && Ascends(fed) && |fed| < |all| && all[|all| - |fed|..] == fed
    ensures LeavesOlderOut(log, fed)
  {
    MinSequenceIs(fed);
    assert fed[0] == all[|all| - |fed|];
    assert all[0] in all && all[0].sequence < fed[0].sequence;
    NotFed(log, fed, all[0]);
    assert LeftOut(fed, all[0]);
  }

  lemma OnlyLateLeftOut(log: seq<LogEvent>, fed: seq<LogEvent>, bound: int, e: LogEvent)
    requires forall x | x in log && Eligible(fed, x) && x.sequence < bound :: x in fed
    requires e in log && LeftOut(fed, e)
    ensures e.sequence >= bound
  {}

  lemma WholeLeavesNone(log: seq<LogEvent>, fed: seq<LogEvent>, bound: int)
    requires fed != [] && Ascends(fed) && fed[0].sequence < bound
    requires forall e | e in log && Eligible(fed, e) && e.sequence < bound :: e in fed
    ensures !LeavesOlderOut(log, fed)
  {
    MinSequenceIs(fed);
    forall e | e in log && LeftOut(fed, e)
      ensures e.sequence >= MinSequence(fed)
    { OnlyLateLeftOut(log, fed, bound, e); }
  }

  /** A tail of the eligible events leaves one out exactly when it is shorter than all of them. */
  lemma TailIsShort(log: seq<LogEvent>, fed: seq<LogEvent>, bound: int)
    requires ProperLog(log) && fed != [] && (forall f | f in fed :: f in log)
    requires EndsWith(EligibleBefore(log, fed, bound), fed)
    ensures LeavesOlderOut(log, fed) <==> |fed| < |EligibleBefore(log, fed, bound)|
  {
    var all := EligibleBefore(log, fed, bound);
    IsSuffix(all, fed);
    if |fed| < |all| {
      EligibleBeforeIs(log, fed, bound);
      ShorterLeavesOut(log, fed, all);
    } else {
      assert all == fed;
      AllFed(log, fed, bound);
    }
  }

  lemma AllFed(log: seq<LogEvent>, fed: seq<LogEvent>, bound: int)
    requires ProperLog(log) && fed != [] && EligibleBefore(log, fed, bound) == fed
    ensures !LeavesOlderOut(log, fed)
  {
    EligibleBeforeIs(log, fed, bound);
    assert fed[0] in fed;
    WholeLeavesNone(log, fed, bound);
  }

  lemma NotFed(log: seq<LogEvent>, fed: seq<LogEvent>, e: LogEvent)
    requires ProperLog(log) && e in log && Ascends(fed) && fed != [] && e.sequence < fed[0].sequence
    requires forall f | f in fed :: f in log
    ensures !IsFed(fed, e.eventId)
  {}

  // ---------------------------------------------------------------- what the joined comparison decides

  ghost predicate NulFree(ids: seq<string>) {
    forall id | id in ids :: NUL !in id
  }

  lemma SplitAtNul(a: string, x: string, b: string, y: string)
    requires NUL !in a && NUL !in b && a + [NUL] + x == b + [NUL] + y
    ensures a == b && x == y
  {
    var s := a + [NUL] + x;
    assert s[|a|] == NUL && s[|b|] == NUL;
    assert forall i | 0 <= i < |a| :: s[i] == a[i] && a[i] in a;
    assert forall i | 0 <= i < |b| :: s[i] == b[i] && b[i] in b;
    assert a == s[..|a|] && b == s[..|b|];
    assert x == s[|a| + 1..] && y == s[|b| + 1..];
  }

  /** Comparing joined lists compares the lists, for ids without NUL, save that [] and [""] join alike. */
  lemma {:induction false} JoinDecides(a: seq<string>, b: seq<string>)
    requires NulFree(a) && NulFree(b)
    ensures Join(a) == Join(b) <==> a == b || (Join(a) == "" && Join(b) == "")
    decreases |a|
  {
    if |a| > 1 && |b| > 1 && Join(a) == Join(b) {
      SplitAtNul(a[0], Join(a[1..]), b[0], Join(b[1..]));
      JoinDecides(a[1..], b[1..]);
      TailsAgree(a, b);
    } else if |a| > 1 && |b| <= 1 {
      JoinHoldsNul(a, b);
    } else if |a| <= 1 && |b| > 1 {
      JoinHoldsNul(b, a);
    }
  }

  lemma JoinHoldsNul(a: seq<string>, b: seq<string>)
    requires |a| > 1 && |b| <= 1 && NulFree(b)
    ensures Join(a) != Join(b)
  {
    assert Join(a)[|a[0]|] == NUL;
    assert NUL in Join(a);
    assert b != [] ==> b[0] in b;
  }

  lemma TailsAgree(a: seq<string>, b: seq<string>)
    requires |a| > 1 && |b| > 1 && a[0] == b[0]
    requires a[1..] == b[1..] || (Join(a[1..]) == "" && Join(b[1..]) == "")
    ensures a == b
  {}

  /** An id cut at its NULs. */
  function Split(s: string): (parts: seq<string>)
    ensures parts != []
  {
    if s == "" then [""]
    else
      var rest := Split(s[1..]);
      if s[0] == NUL then [""] + rest else [[s[0]] + rest[0]] + rest[1..]
  }

  /** The ids cut at their NULs; no id at all counts as one that is empty. */
  function Parts(ids: seq<string>): (parts: seq<string>)
    ensures parts != []
  {
    if ids == [] then [""] else if |ids| == 1 then Split(ids[0]) else Split(ids[0]) + Parts(ids[1..])
  }

  lemma {:induction false} SplitJoins(s: string)
    ensures Join(Split(s)) == s && NulFree(Split(s))
  {
    if s == "" {
    } else {
      SplitJoins(s[1..]);
      assert s == [s[0]] + s[1..];
      if s[0] == NUL {
        JoinPrepended("", Split(s[1..]));
      } else {
        JoinExtended(s[0], Split(s[1..]));
      }
    }
  }

  lemma JoinPrepended(x: string, xs: seq<string>)
    requires xs != []
    ensures Join([x] + xs) == x + [NUL] + Join(xs)
  {
    assert ([x] + xs)[1..] == xs;
  }

  lemma JoinExtended(c: char, xs: seq<string>)
    requires xs != []
    ensures Join([[c] + xs[0]] + xs[1..]) == [c] + Join(xs)
  {
    var r := [[c] + xs[0]] + xs[1..];
    assert r[1..] == xs[1..];
    if |xs| > 1 { assert [c] + xs[0] + [NUL] + Join(xs[1..]) == [c] + (xs[0] + [NUL] + Join(xs[1..])); }
  }

  lemma {:induction false} JoinAppends(a: seq<string>, b: seq<string>)
    requires a != [] && b != []
    ensures Join(a + b) == Join(a) + [NUL] + Join(b)
  {
    if |a| == 1 {
      assert a == [a[0]];
      JoinPrepended(a[0], b);
    } else {
      JoinAppends(a[1..], b);
      assert a + b == [a[0]] + (a[1..] + b);
      JoinPrepended(a[0], a[1..] + b);
      assert a[0] + [NUL] + (Join(a[1..]) + [NUL] + Join(b)) == (a[0] + [NUL] + Join(a[1..])) + [NUL] + Join(b);
    }
  }

  lemma {:induction false} PartsJoin(ids: seq<string>)
    ensures Join(Parts(ids)) == Join(ids) && NulFree(Parts(ids))
  {
    if ids == [] {
    } else if |ids| == 1 {
      SplitJoins(ids[0]);
    } else {
      SplitJoins(ids[0]);
      PartsJoin(ids[1..]);
      JoinAppends(Split(ids[0]), Parts(ids[1..]));
    }
  }

  lemma EmptyJoin(ids: seq<string>)
    requires ids != [] && Join(ids) == ""
    ensures ids == [""]
  {}

  /** Any two lists join alike if and only if they are cut into the same parts. */
  lemma JoinComparesParts(a: seq<string>, b: seq<string>)
    ensures Join(a) == Join(b) <==> Parts(a) == Parts(b)
  {
    PartsJoin(a);
    PartsJoin(b);
    JoinDecides(Parts(a), Parts(b));
    if Join(a) == Join(b) == "" {
      EmptyJoin(Parts(a));
      EmptyJoin(Parts(b));
    }
  }

  /** So the comparison tells a list from every other if and only if it is one id, not empty and without NUL. */
  lemma JoinTellsExactly(ids: seq<string>)
    ensures (forall other :: Join(other) == Join(ids) ==> other == ids) <==>
              |ids| == 1 && ids[0] != "" && NUL !in ids[0]
  {
    if |ids| == 1 && ids[0] != "" && NUL !in ids[0] {
      forall other | Join(other) == Join(ids)
        ensures other == ids
      { OnlyId(other, ids[0]); }
    } else {
      var other := JoinsAlike(ids);
    }
  }

  lemma OnlyId(ids: seq<string>, id: string)
    requires Join(ids) == id && id != "" && NUL !in id
    ensures ids == [id]
  {
    if |ids| > 1 {
      JoinHoldsNul(ids, [id]);
    }
  }

  lemma JoinsAlike(ids: seq<string>) returns (other: seq<string>)
    requires |ids| != 1 || ids[0] == "" || NUL in ids[0]
    ensures other != ids && Join(other) == Join(ids)
  {
    if |ids| != 1 {
      other := [Join(ids)];
    } else if ids[0] == "" {
      other := [];
    } else {
      other := Split(ids[0]);
      SplitJoins(ids[0]);
      assert ids[0] in ids;
      assert other != ids;
    }
  }

  const LAX := Cap(0, "tokens")

  lemma LaxWindowIsClean(iteration: int, w: TranscriptWindow, log: seq<LogEvent>)
    requires w.tokenCounter == "tokens" && w.tokenCount <= 0 && w.summarizedRanges == [] && w.entries.Some?
    requires !Repeats(w.eventIds) && Decision(log, iteration).None? && !Descends(Fed(log, w.eventIds))
    requires forall id | id in w.eventIds :: EventOf(log, id).Some?
    requires forall x | x in w.entries.value ::
               EventOf(log, x.eventId).Some? && EventOf(log, x.eventId).value.kind != SUMMARIZED
    requires Join(Verbatim(log, w.entries.value)) == Join(w.eventIds)
    requires var fed := Fed(log, w.eventIds); forall e | e in log :: Eligible(fed, e) ==> IsFed(fed, e.eventId)
    ensures Clean(iteration, w, LAX, log)
  {}

  /** A window can pass though its entries differ from its event ids: an entry no id names, when its own id is empty. */
  lemma EmptyIdPasses(iteration: int, kind: string, turn: seq<Utf.Unit>)
    requires kind != SUMMARIZED && kind != DECIDED
    ensures var log := [LogEvent("", kind, 0, None, None, None)];
            var w := TranscriptWindow("tokens", 0, [], [], Some([Entry("", turn)]));
            Clean(iteration, w, LAX, log) && Verbatim(log, w.entries.value) == [""] != w.eventIds
  {
    var log := [LogEvent("", kind, 0, None, None, None)];
    var entries := [Entry("", turn)];
    var w := TranscriptWindow("tokens", 0, [], [], Some(entries));
    assert entries[..0] == [] && log[1..] == [];
    assert Verbatim(log, entries) == Verbatim(log, []) + [""];
    LaxWindowIsClean(iteration, w, log);
  }

  function Event(id: string, kind: string, at: int): LogEvent {
    LogEvent(id, kind, at, None, None, None)
  }

  function Three(a: string, b: string, c: string): seq<LogEvent> {
    [Event(a, "turn", 0), Event(b, "turn", 1), Event(c, "note", 2)]
  }

  /** And so can one whose single entry joins two event ids. */
  lemma NulIdPasses(iteration: int, a: string, b: string, turn: seq<Utf.Unit>)
    requires a != b
    ensures var ab := a + [NUL] + b;
            var log := Three(a, b, ab);
            var w := TranscriptWindow("tokens", 0, [a, b], [], Some([Entry(ab, turn)]));
            Clean(iteration, w, LAX, log) && Verbatim(log, w.entries.value) == [ab] != w.eventIds
  {
    var ab := a + [NUL] + b;
    var log, w := Three(a, b, ab), TranscriptWindow("tokens", 0, [a, b], [], Some([Entry(ab, turn)]));
    LookUp(a, b, ab);
    FedTwo(log, a, b);
    VerbatimOne(log, Entry(ab, turn));
    DecisionIsLogged(log, iteration);
    assert [a, b][1..] == [b];
    KeysDiffer();
    LaxWindowIsClean(iteration, w, log);
  }

  lemma VerbatimOne(log: seq<LogEvent>, x: Entry)
    requires EventOf(log, x.eventId).Some? && EventOf(log, x.eventId).value.kind != SUMMARIZED
    ensures Verbatim(log, [x]) == [x.eventId]
  {
    assert [x][..0] == [];
  }

  lemma FedTwo(log: seq<LogEvent>, a: string, b: string)
    requires EventOf(log, a).Some? && EventOf(log, b).Some?
    ensures Fed(log, [a, b]) == [EventOf(log, a).value, EventOf(log, b).value]
  {
    FedOneMore(log, [], a);
    FedOneMore(log, [a], b);
    assert [] + [a] == [a] && [a] + [b] == [a, b];
  }

  lemma KeysDiffer()
    ensures forall x, y, m, n :: EligibilityKey(Event(x, "turn", m)) != EligibilityKey(Event(y, "note", n))
  {
    forall x, y, m, n
      ensures EligibilityKey(Event(x, "turn", m)) != EligibilityKey(Event(y, "note", n))
    { assert EligibilityKey(Event(x, "turn", m))[0] != EligibilityKey(Event(y, "note", n))[0]; }
  }

  lemma FedOneMore(log: seq<LogEvent>, ids: seq<string>, id: string)
    requires EventOf(log, id).Some?
    ensures Fed(log, ids + [id]) == Fed(log, ids) + [EventOf(log, id).value]
  {
    assert (ids + [id])[..|ids|] == ids;
  }

  lemma LookUp(a: string, b: string, c: string)
    requires a != b && a != c && b != c
    ensures var log := Three(a, b, c);
            EventOf(log, a) == Some(log[0]) && EventOf(log, b) == Some(log[1]) && EventOf(log, c) == Some(log[2])
  {
    var x, y, z := Event(a, "turn", 0), Event(b, "turn", 1), Event(c, "note", 2);
    assert [x, y, z] == [x, y] + [z] && [x, y] == [x] + [y];
    EventOfLater([x, y], z, a);
    EventOfLater([x, y], z, b);
    EventOfLater([x], y, a);
  }

  lemma EventOfLater(log: seq<LogEvent>, e: LogEvent, id: string)
    requires e.eventId != id
    ensures EventOf(log + [e], id) == EventOf(log, id)
  {
    assert (log + [e])[..|log|] == log;
  }

  // ---------------------------------------------------------------- what was fed is what was rendered

  /** No event id of the log holds NUL. */
  ghost predicate NulFreeLog(log: seq<LogEvent>) {
    forall e | e in log :: NUL !in e.eventId
  }

  /** The entries that are events of the run but not summaries. */
  function Turns(log: seq<LogEvent>, entries: seq<Entry>): seq<Entry> {
    if entries == [] then []
    else
      var x := entries[|entries| - 1];
      var e := EventOf(log, x.eventId);
      Turns(log, entries[..|entries| - 1]) + if e.Some? && e.value.kind != SUMMARIZED then [x] else []
  }

  function Summaries(log: seq<LogEvent>, entries: seq<Entry>): seq<Entry> {
    if entries == [] then []
    else
      var x := entries[|entries| - 1];
      var e := EventOf(log, x.eventId);
      Summaries(log, entries[..|entries| - 1]) + if e.Some? && e.value.kind == SUMMARIZED then [x] else []
  }

  lemma {:induction false} VerbatimIsTurns(log: seq<LogEvent>, entries: seq<Entry>)
    ensures var ids, turns := Verbatim(log, entries), Turns(log, entries);
            |ids| == |turns| && forall k | 0 <= k < |turns| :: turns[k].eventId == ids[k]
    ensures forall id | id in Verbatim(log, entries) :: EventOf(log, id).Some?
  {
    if entries == [] {
    } else {
      VerbatimIsTurns(log, entries[..|entries| - 1]);
    }
  }

  lemma {:induction false} CharsInTwo(log: seq<LogEvent>, entries: seq<Entry>)
    requires forall x | x in entries :: EventOf(log, x.eventId).Some?
    ensures Chars(entries) == Chars(Turns(log, entries)) + Chars(Summaries(log, entries))
  {
    if entries == [] {
    } else {
      var rest, x := entries[..|entries| - 1], entries[|entries| - 1];
      assert forall y | y in rest :: y in entries;
      CharsInTwo(log, rest);
      assert x in entries;
      if EventOf(log, x.eventId).value.kind == SUMMARIZED {
        CharsOneMore(Summaries(log, rest), x);
        assert Turns(log, entries) == Turns(log, rest);
      } else {
        CharsOneMore(Turns(log, rest), x);
        assert Summaries(log, entries) == Summaries(log, rest);
      }
    }
  }

  lemma {:induction false} SummariesAreEntries(log: seq<LogEvent>, entries: seq<Entry>)
    ensures forall s | s in Summaries(log, entries) ::
              s in entries && EventOf(log, s.eventId).Some? && EventOf(log, s.eventId).value.kind == SUMMARIZED
  {
    if entries == [] {
    } else {
      SummariesAreEntries(log, entries[..|entries| - 1]);
    }
  }

  lemma CharsOneMore(entries: seq<Entry>, x: Entry)
    ensures Chars(entries + [x]) == Chars(entries) + CharCount(x.rendered)
  {
    assert (entries + [x])[..|entries|] == entries;
  }

  lemma KnownIdsAreNulFree(log: seq<LogEvent>, ids: seq<string>)
    requires NulFreeLog(log) && forall id | id in ids :: EventOf(log, id).Some?
    ensures NulFree(ids)
  {
    forall id | id in ids
      ensures NUL !in id
    { EventOfIsLogged(log, id); }
  }

  /**
    RFC 0111 (b): in a clean window the entries other than summaries are exactly its event
    ids, in order, on a log whose ids hold no NUL; the one exception is an empty id against none.
   */
  lemma EntriesAreTheIds(iteration: int, w: TranscriptWindow, cap: Cap, log: seq<LogEvent>)
    requires Clean(iteration, w, cap, log) && w.entries.Some? && NulFreeLog(log)
    ensures var ids := Verbatim(log, w.entries.value);
            ids == w.eventIds || (ids == [] && w.eventIds == [""]) || (ids == [""] && w.eventIds == [])
  {
    var ids := Verbatim(log, w.entries.value);
    VerbatimIsTurns(log, w.entries.value);
    KnownIdsAreNulFree(log, ids);
    forall id | id in w.eventIds
      ensures EventOf(log, id).Some?
    { assert !Broken(UnknownId(id), iteration, w, cap, Some(log)); }
    KnownIdsAreNulFree(log, w.eventIds);
    assert !Broken(EntriesDiffer, iteration, w, cap, Some(log));
    JoinDecides(ids, w.eventIds);
    if ids != w.eventIds {
      assert ids != [] ==> ids == [""] by { if ids != [] { EmptyJoin(ids); } }
      assert w.eventIds != [] ==> w.eventIds == [""] by { if w.eventIds != [] { EmptyJoin(w.eventIds); } }
    }
  }

  /** One rendering for each event fed, in order. */
  ghost predicate Renders(turns: seq<Entry>, fed: seq<LogEvent>) {
    |turns| == |fed| && forall k | 0 <= k < |fed| :: turns[k].eventId == fed[k].eventId
  }

  /** A summary of the log that the window lists. */
  ghost predicate ListedSummary(w: TranscriptWindow, log: seq<LogEvent>, s: Entry) {
    var e := EventOf(log, s.eventId);
    e.Some? && e.value.kind == SUMMARIZED && Lists(w.summarizedRanges, e.value.summaryRef)
  }

  /** So for `chars` the count is that of one rendering for each event fed, in order, and of listed summaries. */
  lemma CountIsOfTheFed(iteration: int, w: TranscriptWindow, cap: Cap, log: seq<LogEvent>)
    requires Clean(iteration, w, cap, log) && cap.tokenCounter == "chars" && NulFreeLog(log)
    requires w.eventIds != [] && w.eventIds != [""]
    ensures w.entries.Some?
    ensures Renders(Turns(log, w.entries.value), Fed(log, w.eventIds))
    ensures forall s | s in Summaries(log, w.entries.value) :: ListedSummary(w, log, s)
    ensures w.tokenCount == Chars(Turns(log, w.entries.value)) + Chars(Summaries(log, w.entries.value))
  {
    CharsCounted(iteration, w, cap, log);
    TurnsRenderTheFed(iteration, w, cap, log);
    SummariesAreListed(iteration, w, cap, log);
    EntriesAreKnown(iteration, w, cap, log);
    CharsInTwo(log, w.entries.value);
  }

  lemma TurnsRenderTheFed(iteration: int, w: TranscriptWindow, cap: Cap, log: seq<LogEvent>)
    requires Clean(iteration, w, cap, log) && w.entries.Some? && NulFreeLog(log)
    requires w.eventIds != [] && w.eventIds != [""]
    ensures Renders(Turns(log, w.entries.value), Fed(log, w.eventIds))
  {
    EntriesAreTheIds(iteration, w, cap, log);
    VerbatimIsTurns(log, w.entries.value);
    FedInOrder(iteration, w, cap, log);
  }

  lemma EntriesAreKnown(iteration: int, w: TranscriptWindow, cap: Cap, log: seq<LogEvent>)
    requires Clean(iteration, w, cap, log) && w.entries.Some?
    ensures forall x | x in w.entries.value :: EventOf(log, x.eventId).Some?
  {
    forall x | x in w.entries.value
      ensures EventOf(log, x.eventId).Some?
    {
      assert HasEntry(w.entries.value, x.eventId);
      assert !Broken(UnknownEntry(x.eventId), iteration, w, cap, Some(log));
    }
  }

  lemma SummariesAreListed(iteration: int, w: TranscriptWindow, cap: Cap, log: seq<LogEvent>)
    requires Clean(iteration, w, cap, log) && w.entries.Some?
    ensures forall s | s in Summaries(log, w.entries.value) :: ListedSummary(w, log, s)
  {
    SummariesAreEntries(log, w.entries.value);
    forall s | s in Summaries(log, w.entries.value)
      ensures ListedSummary(w, log, s)
    {
      assert HasEntry(w.entries.value, s.eventId);
      assert !Broken(UnlistedSummary(s.eventId), iteration, w, cap, Some(log));
    }
  }
}
