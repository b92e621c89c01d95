/**
  Recovery bounds and the durability rung (conformance/src/lib/durability-evidence.ts).
  Evidence arrives as JSON that nothing has checked.
 */
module Durability {
  import opened Wrappers
  import opened Json

  const MAX_CLASSES: nat := 16
  const MAX_TERMS: nat := 16

  datatype Term = Term(name: string, ms: nat)
  datatype Bound = Bound(class_: string, bound: nat, terms: seq<Term>)
  datatype Observation = Observation(class_: string, boundMs: nat, observedMs: nat)

  datatype Row = Row(
    id: string, scenario: string, result: string, assertions: Option<int>, detail: Option<string>,
    evidence: Option<Json>)

  // ---------------------------------------------------------------- reading raw JSON

  predicate IsNameChar(c: char) {
    'A' <= c <= 'Z' || 'a' <= c <= 'z' || '0' <= c <= '9' || c == '.' || c == '_' || c == '-'
  }

  predicate IsName(s: string) {
    1 <= |s| <= 64 && 'a' <= s[0] <= 'z' && forall i | 0 <= i < |s| :: IsNameChar(s[i])
  }

  /** A non-negative integer. */
  function Count(j: Option<Json>): Option<nat> {
    if j.Some? && j.value.Num? && j.value.number >= 0.0 && j.value.number == j.value.number.Floor as real
    then Some(j.value.number.Floor) else None
  }

  function NameOf(j: Option<Json>): Option<string> {
    if j.Some? && j.value.Str? && IsName(j.value.text) then Some(j.value.text) else None
  }

  // ---------------------------------------------------------------- what a declaration says

  function Sum(terms: seq<Term>): nat {
    if terms == [] then 0 else Sum(terms[..|terms| - 1]) + terms[|terms| - 1].ms
  }

  function TermOf(j: Json): Option<Term> {
    var name, ms := NameOf(Field(j, "name")), Count(Field(j, "ms"));
    if name.Some? && ms.Some? then Some(Term(name.value, ms.value)) else None
  }

  /** The entry names its class, and its terms produce the bound it declares. */
  ghost predicate StatesBound(j: Json, b: Bound) {
    && NameOf(Field(j, "class")) == Some(b.class_)
    && Count(Field(j, "bound")) == Some(b.bound)
    && b.bound == Sum(b.terms)
    && var terms := Field(j, "terms");
       && terms.Some? && terms.value.Arr? && |terms.value.items| == |b.terms| && 1 <= |b.terms| <= MAX_TERMS
       && forall k | 0 <= k < |b.terms| :: TermOf(terms.value.items[k]) == Some(b.terms[k])
  }

  /** One to sixteen classes, each named once. */
  ghost predicate Declares(raw: Option<Json>, bounds: seq<Bound>) {
    && raw.Some? && raw.value.Arr? && |raw.value.items| == |bounds| && 1 <= |bounds| <= MAX_CLASSES
    && (forall k | 0 <= k < |bounds| :: StatesBound(raw.value.items[k], bounds[k]))
    && (forall k, l | 0 <= k < l < |bounds| :: bounds[k].class_ != bounds[l].class_)
  }

  // ---------------------------------------------------------------- the parser

  method ParseTerms(items: seq<Json>) returns (r: Option<seq<Term>>)
    ensures r.Some? <==> forall k | 0 <= k < |items| :: TermOf(items[k]).Some?
    ensures r.Some? ==> |r.value| == |items| && forall k | 0 <= k < |items| :: TermOf(items[k]) == Some(r.value[k])
  {
    var clean: seq<Term> := [];
    for k := 0 to |items|
      invariant |clean| == k && forall l | 0 <= l < k :: TermOf(items[l]) == Some(clean[l])
    {
      var term := TermOf(items[k]);
      if term.None? { return None; }
      clean := clean + [term.value];
    }
    r := Some(clean);
  }

  lemma SameTerms(items: seq<Json>, ts: seq<Term>, ts': seq<Term>)
    requires |ts| == |ts'| == |items|
    requires forall k | 0 <= k < |items| :: TermOf(items[k]) == Some(ts[k]) && TermOf(items[k]) == Some(ts'[k])
    ensures ts == ts'
  {}

  method ParseBound(j: Json) returns (r: Option<Bound>)
    ensures r.None? ==> forall b :: !StatesBound(j, b)
    ensures r.Some? ==> StatesBound(j, r.value)
  {
    var cls, terms, bound := NameOf(Field(j, "class")), Field(j, "terms"), Count(Field(j, "bound"));
    if cls.None? { return None; }
    if terms.None? || !terms.value.Arr? || |terms.value.items| == 0 || |terms.value.items| > MAX_TERMS { return None; }
    var items := terms.value.items;
    var clean := ParseTerms(items);
    if clean.None? || bound.None? {
      forall b
        ensures !StatesBound(j, b)
      {}
      return None;
    }
    if Sum(clean.value) != bound.value {
      forall b
        ensures !StatesBound(j, b)
      { if StatesBound(j, b) { SameTerms(items, b.terms, clean.value); } }
      return None;
    }
    r := Some(Bound(cls.value, bound.value, clean.value));
  }

  /** What the loop has read so far. */
  ghost predicate Read(items: seq<Json>, bounds: seq<Bound>) {
    && |bounds| <= |items|
    && (forall k | 0 <= k < |bounds| :: StatesBound(items[k], bounds[k]))
    && (forall k, l | 0 <= k < l < |bounds| :: bounds[k].class_ != bounds[l].class_)
  }

  ghost function Classes(bounds: seq<Bound>): set<string> {
    set l | 0 <= l < |bounds| :: bounds[l].class_
  }

  lemma ClassesOfOneMore(bounds: seq<Bound>, b: Bound)
    ensures Classes(bounds + [b]) == Classes(bounds) + {b.class_}
  {
    var more := bounds + [b];
    forall l | 0 <= l < |bounds|
      ensures bounds[l].class_ in Classes(more)
    { assert more[l] == bounds[l]; }
    assert more[|bounds|] == b;
  }

  lemma OneMoreBound(items: seq<Json>, bounds: seq<Bound>, b: Bound)
    requires Read(items, bounds) && |bounds| < |items| && StatesBound(items[|bounds|], b)
    requires b.class_ !in Classes(bounds)
    ensures Read(items, bounds + [b])
  {
    var more := bounds + [b];
    forall k | 0 <= k < |more|
      ensures StatesBound(items[k], more[k])
    { if k < |bounds| { assert more[k] == bounds[k]; } }
    forall k, l | 0 <= k < l < |more|
      ensures more[k].class_ != more[l].class_
    { if l == |bounds| { assert bounds[k].class_ in Classes(bounds); } }
  }

  lemma DeclaredStates(raw: Option<Json>, bounds: seq<Bound>, k: nat)
    requires raw.Some? && raw.value.Arr? && k < |raw.value.items|
    ensures Declares(raw, bounds) ==> k < |bounds| && StatesBound(raw.value.items[k], bounds[k])
  {}

  lemma NothingStated(raw: Option<Json>, k: nat)
    requires raw.Some? && raw.value.Arr? && k < |raw.value.items| && forall b :: !StatesBound(raw.value.items[k], b)
    ensures forall bounds :: !Declares(raw, bounds)
  {
    forall bounds { DeclaredStates(raw, bounds, k); }
  }

  lemma ClassRepeats(raw: Option<Json>, bounds: seq<Bound>, b: Bound)
    requires raw.Some? && raw.value.Arr? && Read(raw.value.items, bounds) && |bounds| < |raw.value.items|
    requires StatesBound(raw.value.items[|bounds|], b) && b.class_ in Classes(bounds)
    ensures forall other :: !Declares(raw, other)
  {
    var l :| 0 <= l < |bounds| && bounds[l].class_ == b.class_;
    assert StatesBound(raw.value.items[l], bounds[l]);
    forall other
      ensures !Declares(raw, other)
    {
      DeclaredStates(raw, other, l);
      DeclaredStates(raw, other, |bounds|);
    }
  }

  /** The normaliser accepts exactly the declarations, and returns what they say. */
  method ParseRecoveryBounds(raw: Option<Json>) returns (r: Option<seq<Bound>>)
    ensures r.None? ==> forall bounds :: !Declares(raw, bounds)
    ensures r.Some? ==> Declares(raw, r.value)
  {
    if raw.None? || !raw.value.Arr? || |raw.value.items| == 0 || |raw.value.items| > MAX_CLASSES { return None; }
    var items := raw.value.items;
    var bounds: seq<Bound>, seen: set<string> := [], {};
    for k := 0 to |items|
      invariant |bounds| == k && Read(items, bounds)
      invariant seen == Classes(bounds)
    {
      var entry := ParseBound(items[k]);
      if entry.None? {
        NothingStated(raw, k);
        return None;
      }
      if entry.value.class_ in seen {
        ClassRepeats(raw, bounds, entry.value);
        return None;
      }
      OneMoreBound(items, bounds, entry.value);
      ClassesOfOneMore(bounds, entry.value);
      seen := seen + {entry.value.class_};
      bounds := bounds + [entry.value];
    }
    r := Some(bounds);
  }

  lemma DeclaresOnce(raw: Option<Json>, bs: seq<Bound>, bs': seq<Bound>)
    requires Declares(raw, bs) && Declares(raw, bs')
    ensures bs == bs'
  {
    forall k | 0 <= k < |bs|
      ensures bs[k] == bs'[k]
    {}
  }

  // ---------------------------------------------------------------- the rung

  const PREFIX := "openwop.requirement.0158."
  const ACCEPT_ROW := PREFIX + "kill-after-accept"
  const EXECUTION_ROW := PREFIX + "kill-during-execution"
  const BOUND_ROW := PREFIX + "bound-is-derived"
  const SINGLE_INSTANCE_ROWS: seq<string> :=
    [ACCEPT_ROW, EXECUTION_ROW, PREFIX + "duplicate-delivery", PREFIX + "poison-exhaustion", BOUND_ROW]
  const KILL_ROWS: seq<string> := [ACCEPT_ROW, EXECUTION_ROW]
  const SINGLE_INSTANCE := "durable-single-instance"

  /** The row a map built from the list holds under `id`: the last one. */
  function RowOf(rows: seq<Row>, id: string): Option<Row> {
    if rows == [] then None
    else if rows[|rows| - 1].id == id then Some(rows[|rows| - 1])
    else RowOf(rows[..|rows| - 1], id)
  }

  function EvidenceOf(rows: seq<Row>, id: string, kind: string): Option<Json> {
    var row := RowOf(rows, id);
    if row.Some? then FieldOf(row.value.evidence, kind) else None
  }

  function ObservationOf(j: Json): Option<Observation> {
    var cls, bound, seen := NameOf(Field(j, "class")), Count(Field(j, "boundMs")), Count(Field(j, "observedMs"));
    if cls.Some? && bound.Some? && seen.Some? then Some(Observation(cls.value, bound.value, seen.value)) else None
  }

  ghost predicate Passed(rows: seq<Row>, id: string) {
    RowOf(rows, id).Some? && RowOf(rows, id).value.result == "executed-pass"
  }

  /** The kill row resumed within the bound its own class declares. */
  ghost predicate WithinBound(rows: seq<Row>, id: string, bounds: seq<Bound>) {
    var j := EvidenceOf(rows, id, "recovery");
    && j.Some? && ObservationOf(j.value).Some?
    && var obs := ObservationOf(j.value).value;
       exists k | 0 <= k < |bounds| ::
         bounds[k].class_ == obs.class_ && bounds[k].bound == obs.boundMs && obs.observedMs <= bounds[k].bound
  }

  /** The evidence named for the lowest rung. */
  ghost predicate SupportsSingleInstance(rows: seq<Row>) {
    && (forall k | 0 <= k < |SINGLE_INSTANCE_ROWS| :: Passed(rows, SINGLE_INSTANCE_ROWS[k]))
    && exists bounds ::
         && Declares(EvidenceOf(rows, BOUND_ROW, "recoveryBounds"), bounds)
         && forall k | 0 <= k < |KILL_ROWS| :: WithinBound(rows, KILL_ROWS[k], bounds)
  }

  method DeriveRung(rows: seq<Row>) returns (r: Option<string>)
    ensures r == if SupportsSingleInstance(rows) then Some(SINGLE_INSTANCE) else None
  {
    for k := 0 to |SINGLE_INSTANCE_ROWS|
      invariant forall l | 0 <= l < k :: Passed(rows, SINGLE_INSTANCE_ROWS[l])
    {
      var row := RowOf(rows, SINGLE_INSTANCE_ROWS[k]);
      if row.None? || row.value.result != "executed-pass" { return None; }
    }
    var declared := ParseRecoveryBounds(EvidenceOf(rows, BOUND_ROW, "recoveryBounds"));
    if declared.None? { return None; }
    var bounds := declared.value;
    for k := 0 to |KILL_ROWS|
      invariant forall l | 0 <= l < k :: WithinBound(rows, KILL_ROWS[l], bounds)
    {
      var ok := CheckKillRow(rows, KILL_ROWS[k], bounds);
      if !ok {
        forall bs | Declares(EvidenceOf(rows, BOUND_ROW, "recoveryBounds"), bs)
          ensures bs == bounds
        { DeclaresOnce(EvidenceOf(rows, BOUND_ROW, "recoveryBounds"), bs, bounds); }
        return None;
      }
    }
    r := Some(SINGLE_INSTANCE);
  }

  method CheckKillRow(rows: seq<Row>, id: string, bounds: seq<Bound>) returns (ok: bool)
    requires forall k, l | 0 <= k < l < |bounds| :: bounds[k].class_ != bounds[l].class_
    ensures ok <==> WithinBound(rows, id, bounds)
  {
    var j := EvidenceOf(rows, id, "recovery");
    if j.None? { return false; }
    var obs := ObservationOf(j.value);
    if obs.None? { return false; }
    for k := 0 to |bounds|
      invariant forall l | 0 <= l < k :: bounds[l].class_ != obs.value.class_
    {
      if bounds[k].class_ == obs.value.class_ {
        return obs.value.boundMs == bounds[k].bound && obs.value.observedMs <= bounds[k].bound;
      }
    }
    ok := false;
  }

  const RUNGS: seq<string> := [SINGLE_INSTANCE, "durable-multi-instance", "multi-region-qualified"]

  /** No claim passes; a claim passes only for the one derivable rung, and only on its evidence. */
  method CheckRungClaim(claimed: Option<Json>, rows: seq<Row>) returns (ok: bool)
    ensures ok <==> claimed == None || (claimed == Some(Str(SINGLE_INSTANCE)) && SupportsSingleInstance(rows))
  {
    if claimed.None? { return true; }
    if !claimed.value.Str? || claimed.value.text !in RUNGS { return false; }
    var derived := DeriveRung(rows);
    ok := derived.Some? && claimed.value.text == derived.value;
  }

  // ---------------------------------------------------------------- round trip

  function TermJson(t: Term): Json {
    Obj([Member("name", Str(t.name)), Member("ms", Num(t.ms as real))])
  }

  function BoundJson(b: Bound): Json {
    Obj([Member("class", Str(b.class_)), Member("bound", Num(b.bound as real)),
         Member("terms", Arr(seq(|b.terms|, i requires 0 <= i < |b.terms| => TermJson(b.terms[i]))))])
  }

  function BoundsJson(bounds: seq<Bound>): Json {
    Arr(seq(|bounds|, i requires 0 <= i < |bounds| => BoundJson(bounds[i])))
  }

  ghost predicate Valid(bounds: seq<Bound>) {
    && 1 <= |bounds| <= MAX_CLASSES
    && (forall k | 0 <= k < |bounds| ::
          && IsName(bounds[k].class_) && bounds[k].bound == Sum(bounds[k].terms)
          && 1 <= |bounds[k].terms| <= MAX_TERMS
          && forall l | 0 <= l < |bounds[k].terms| :: IsName(bounds[k].terms[l].name))
    && (forall k, l | 0 <= k < l < |bounds| :: bounds[k].class_ != bounds[l].class_)
  }

  lemma FieldAt(ms: seq<Member>, i: nat)
    requires i < |ms| && DistinctKeys(ms)
    ensures Field(Obj(ms), ms[i].key) == Some(ms[i].value)
  {
    FindIsUnique(ms, i);
  }

  lemma TermRoundTrip(t: Term)
    requires IsName(t.name)
    ensures TermOf(TermJson(t)) == Some(t)
  {
    FieldAt(TermJson(t).members, 0);
    FieldAt(TermJson(t).members, 1);
  }

  lemma BoundRoundTrip(b: Bound)
    requires IsName(b.class_) && b.bound == Sum(b.terms) && 1 <= |b.terms| <= MAX_TERMS
    requires forall l | 0 <= l < |b.terms| :: IsName(b.terms[l].name)
    ensures StatesBound(BoundJson(b), b)
  {
    var ms := BoundJson(b).members;
    FieldAt(ms, 0);
    FieldAt(ms, 1);
    FieldAt(ms, 2);
    forall l | 0 <= l < |b.terms|
      ensures TermOf(TermJson(b.terms[l])) == Some(b.terms[l])
    { TermRoundTrip(b.terms[l]); }
  }

  /** Bounds written as evidence are read back unchanged. */
  lemma BoundsRoundTrip(bounds: seq<Bound>)
    requires Valid(bounds)
    ensures Declares(Some(BoundsJson(bounds)), bounds)
  {
    forall k | 0 <= k < |bounds|
      ensures StatesBound(BoundJson(bounds[k]), bounds[k])
    { BoundRoundTrip(bounds[k]); }
  }
}
