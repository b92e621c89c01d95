/**
  The witness digest (conformance/src/lib/certification-bundle-v3.ts, `witnessDigest`,
  `attestationPayload`).

  Canonical JSON and SHA-256 are parameters. Of the first it is assumed that it is
  defined on values, not on spellings; of the second nothing, and binding is stated as
  "the same, or two different texts with one digest".
 */
module Digest {
  import opened Wrappers
  import opened Json
  import opened Durability
  import CodeUnits

  /** None is a refusal: the value is not I-JSON. */
  type Canon = Json -> Option<string>
  type Sha = string -> string

  /** Two values have one canonical text exactly when they are the same JSON. */
  ghost predicate IsCanonical(canon: Canon) {
    forall a, b | WellFormed(a) && WellFormed(b) && canon(a).Some? :: canon(a) == canon(b) <==> Meaning(a) == Meaning(b)
  }

  /** Two texts in hand with one digest. */
  ghost predicate Collides(sha: Sha, x: Option<string>, y: Option<string>) {
    x.Some? && y.Some? && x != y && sha(x.value) == sha(y.value)
  }

  function RowId(r: Row): string {
    r.id
  }

  function SortRows(rows: seq<Row>): seq<Row> {
    CodeUnits.Sort(rows, RowId)
  }

  ghost predicate OneRowPerId(rows: seq<Row>) {
    CodeUnits.OnePerKey(rows, RowId)
  }

  // ---------------------------------------------------------------- records as JSON

  type Fields = seq<(string, Option<Json>)>

  /** The object with the members that are present. */
  function Record(fs: Fields): seq<Member> {
    if fs == [] then []
    else
      var (k, v) := fs[|fs| - 1];
      Record(fs[..|fs| - 1]) + if v.Some? then [Member(k, v.value)] else []
  }

  ghost predicate DistinctNames(fs: Fields) {
    forall i, k | 0 <= i < k < |fs| :: fs[i].0 != fs[k].0
  }

  ghost predicate WellFormedFields(fs: Fields) {
    DistinctNames(fs) && forall i | 0 <= i < |fs| && fs[i].1.Some? :: WellFormed(fs[i].1.value)
  }

  /** A record's members are its present fields, under their names. */
  lemma {:induction false} RecordMembers(fs: Fields)
    requires WellFormedFields(fs)
    ensures WellFormed(Obj(Record(fs)))
    ensures forall m | m in Record(fs) :: exists i | 0 <= i < |fs| :: fs[i] == (m.key, Some(m.value))
    ensures forall i | 0 <= i < |fs| && fs[i].1.Some? :: Member(fs[i].0, fs[i].1.value) in Record(fs)
  {
    if fs == [] {
    } else {
      var rest := fs[..|fs| - 1];
      RecordMembers(rest);
      assert forall i | 0 <= i < |rest| :: rest[i] == fs[i];
      forall m | m in Record(rest)
        ensures m.key != fs[|rest|].0
      {
        var i :| 0 <= i < |rest| && rest[i] == (m.key, Some(m.value));
      }
    }
  }

  ghost function FieldMeaning(f: Option<Json>): Option<Value> {
    if f.Some? then Some(Meaning(f.value)) else None
  }

  /** Looking a name up in a record's meaning finds the field's meaning, or nothing when it is absent. */
  lemma RecordLookup(fs: Fields, i: nat)
    requires WellFormedFields(fs) && i < |fs|
    ensures var m := Meaning(Obj(Record(fs))).members;
            FieldMeaning(fs[i].1) == if fs[i].0 in m then Some(m[fs[i].0]) else None
  {
    RecordMembers(fs);
    var ms := Record(fs);
    if fs[i].1.Some? {
      var k :| 0 <= k < |ms| && ms[k] == Member(fs[i].0, fs[i].1.value);
      MeaningOfMember(ms, k);
    }
  }

  /** Records of one shape with one meaning agree field by field. */
  lemma RecordsAgree(fs: Fields, gs: Fields, i: nat)
    requires WellFormedFields(fs) && WellFormedFields(gs) && i < |fs| && i < |gs| && fs[i].0 == gs[i].0
    requires Meaning(Obj(Record(fs))) == Meaning(Obj(Record(gs)))
    ensures FieldMeaning(fs[i].1) == FieldMeaning(gs[i].1)
  {
    RecordLookup(fs, i);
    RecordLookup(gs, i);
  }

  // ---------------------------------------------------------------- the digest

  datatype Relaxation = Relaxation(obligation: string, durability: string, reason: string)

  function Text(s: string): Option<Json> { Some(Str(s)) }
  function OptText(s: Option<string>): Option<Json> { if s.Some? then Some(Str(s.value)) else None }
  function OptInt(n: Option<int>): Option<Json> { if n.Some? then Some(Num(n.value as real)) else None }

  function RowFields(r: Row): Fields {
    [("id", Text(r.id)), ("scenario", Text(r.scenario)), ("result", Text(r.result)),
     ("assertions", OptInt(r.assertions)), ("detail", OptText(r.detail)), ("evidence", r.evidence)]
  }

  function RelaxationFields(x: Relaxation): Fields {
    [("obligation", Text(x.obligation)), ("durability", Text(x.durability)), ("reason", Text(x.reason))]
  }

  function RowsJson(rows: seq<Row>): Json {
    Arr(seq(|rows|, i requires 0 <= i < |rows| => Obj(Record(RowFields(rows[i])))))
  }

  function RelaxationsJson(xs: seq<Relaxation>): Json {
    Arr(seq(|xs|, i requires 0 <= i < |xs| => Obj(Record(RelaxationFields(xs[i])))))
  }

  /** An absent list and an empty one are one declaration. */
  function Declared(relaxations: Option<seq<Relaxation>>): seq<Relaxation> {
    if relaxations.Some? then relaxations.value else []
  }

  function PreimageFields(rows: seq<Row>, xs: seq<Relaxation>, deployment: Option<string>): Fields {
    [("rows", Some(RowsJson(rows))), ("relaxations", if xs == [] then None else Some(RelaxationsJson(xs))),
     ("deployment", OptText(deployment))]
  }

  /** The bare rows, unless there is a relaxation or a deployment marker to bind. */
  function Preimage(rows: seq<Row>, relaxations: Option<seq<Relaxation>>, deployment: Option<string>): Json {
    var sorted, xs := SortRows(rows), Declared(relaxations);
    if xs != [] || deployment.Some? then Obj(Record(PreimageFields(sorted, xs, deployment))) else RowsJson(sorted)
  }

  function WitnessDigest(
      canon: Canon, sha: Sha, rows: seq<Row>, relaxations: Option<seq<Relaxation>>, deployment: Option<string>)
    : Option<string>
  {
    var text := canon(Preimage(rows, relaxations, deployment));
    if text.Some? then Some(sha(text.value)) else None
  }

  /** The digest is a function of the set of rows, whenever no id has two different rows. */
  lemma DigestIgnoresOrder(
      canon: Canon, sha: Sha, rows: seq<Row>, other: seq<Row>,
      relaxations: Option<seq<Relaxation>>, deployment: Option<string>)
    requires OneRowPerId(rows) && multiset(other) == multiset(rows)
    ensures WitnessDigest(canon, sha, other, relaxations, deployment)
         == WitnessDigest(canon, sha, rows, relaxations, deployment)
  {
    CodeUnits.OrderForgotten(rows, other, RowId);
  }

  // ---------------------------------------------------------------- what the digest binds

  /** The same row, evidence compared as JSON. */
  ghost predicate SameRow(r: Row, s: Row) {
    && r.id == s.id && r.scenario == s.scenario && r.result == s.result
    && r.assertions == s.assertions && r.detail == s.detail
    && FieldMeaning(r.evidence) == FieldMeaning(s.evidence)
  }

  ghost predicate SameRows(rows: seq<Row>, other: seq<Row>) {
    |rows| == |other| && forall i | 0 <= i < |rows| :: SameRow(rows[i], other[i])
  }

  ghost predicate WellFormedRows(rows: seq<Row>) {
    forall r | r in rows && r.evidence.Some? :: WellFormed(r.evidence.value)
  }

  lemma SameRowJson(r: Row, s: Row)
    requires r.evidence.Some? ==> WellFormed(r.evidence.value)
    requires s.evidence.Some? ==> WellFormed(s.evidence.value)
    requires Meaning(Obj(Record(RowFields(r)))) == Meaning(Obj(Record(RowFields(s))))
    ensures SameRow(r, s)
  {
    var fs, gs := RowFields(r), RowFields(s);
    forall i: nat | i < 6
      ensures FieldMeaning(fs[i].1) == FieldMeaning(gs[i].1)
    { RecordsAgree(fs, gs, i); }
    assert FieldMeaning(fs[0].1) == FieldMeaning(gs[0].1);
    assert FieldMeaning(fs[1].1) == FieldMeaning(gs[1].1);
    assert FieldMeaning(fs[2].1) == FieldMeaning(gs[2].1);
    assert FieldMeaning(fs[3].1) == FieldMeaning(gs[3].1);
    assert FieldMeaning(fs[4].1) == FieldMeaning(gs[4].1);
    assert FieldMeaning(fs[5].1) == FieldMeaning(gs[5].1);
  }

  lemma SameRowsJson(rows: seq<Row>, other: seq<Row>)
    requires WellFormedRows(rows) && WellFormedRows(other)
    requires Meaning(RowsJson(rows)) == Meaning(RowsJson(other))
    ensures SameRows(rows, other)
  {
    assert |rows| == |Meaning(RowsJson(rows)).items| == |other|;
    forall i | 0 <= i < |rows|
      ensures SameRow(rows[i], other[i])
    {
      assert Meaning(RowsJson(rows)).items[i] == Meaning(RowsJson(other)).items[i];
      SameRowJson(rows[i], other[i]);
    }
  }

  lemma RowsJsonOk(rows: seq<Row>)
    requires WellFormedRows(rows)
    ensures WellFormed(RowsJson(rows))
  {
    forall i | 0 <= i < |rows|
      ensures WellFormed(Obj(Record(RowFields(rows[i]))))
    {
      RecordMembers(RowFields(rows[i]));
    }
  }

  lemma RelaxationsJsonOk(xs: seq<Relaxation>)
    ensures WellFormed(RelaxationsJson(xs))
  {
    forall i | 0 <= i < |xs|
      ensures WellFormed(Obj(Record(RelaxationFields(xs[i]))))
    {
      RecordMembers(RelaxationFields(xs[i]));
    }
  }

  lemma SameRelaxationsJson(xs: seq<Relaxation>, ys: seq<Relaxation>)
    requires Meaning(RelaxationsJson(xs)) == Meaning(RelaxationsJson(ys))
    ensures xs == ys
  {
    assert |xs| == |Meaning(RelaxationsJson(xs)).items| == |ys|;
    forall i | 0 <= i < |xs|
      ensures xs[i] == ys[i]
    {
      assert Meaning(RelaxationsJson(xs)).items[i] == Meaning(RelaxationsJson(ys)).items[i];
      var fs, gs := RelaxationFields(xs[i]), RelaxationFields(ys[i]);
      RecordsAgree(fs, gs, 0);
      RecordsAgree(fs, gs, 1);
      RecordsAgree(fs, gs, 2);
    }
  }

  lemma PreimageFieldsOk(rows: seq<Row>, xs: seq<Relaxation>, deployment: Option<string>)
    requires WellFormedRows(rows)
    ensures WellFormedFields(PreimageFields(rows, xs, deployment))
  {
    RowsJsonOk(rows);
    RelaxationsJsonOk(xs);
  }

  lemma SamePreimage(
      rows: seq<Row>, xs: seq<Relaxation>, d: Option<string>, rows': seq<Row>, xs': seq<Relaxation>, d': Option<string>)
    requires WellFormedRows(rows) && WellFormedRows(rows')
    requires Meaning(Obj(Record(PreimageFields(rows, xs, d)))) == Meaning(Obj(Record(PreimageFields(rows', xs', d'))))
    ensures SameRows(rows, rows') && xs == xs' && d == d'
  {
    var fs, gs := PreimageFields(rows, xs, d), PreimageFields(rows', xs', d');
    PreimageFieldsOk(rows, xs, d);
    PreimageFieldsOk(rows', xs', d');
    RecordsAgree(fs, gs, 0);
    RecordsAgree(fs, gs, 1);
    RecordsAgree(fs, gs, 2);
    SameRowsJson(rows, rows');
    if xs != [] && xs' != [] { SameRelaxationsJson(xs, xs'); }
  }

  lemma SortedRowsOk(rows: seq<Row>)
    requires WellFormedRows(rows)
    ensures WellFormedRows(SortRows(rows))
  {
    CodeUnits.SortSorts(rows, RowId);
    forall r | r in SortRows(rows)
      ensures r in rows
    { assert r in multiset(SortRows(rows)) && r in multiset(rows); }
  }

  /**
    Equal digests bind the rows, the relaxations and the deployment marker, unless two
    different texts with that digest are in hand. So neither a relaxation nor a marker can
    be stripped or added under a digest that still matches.
   */
  lemma DigestBinds(
      canon: Canon, sha: Sha,
      rows: seq<Row>, relaxations: Option<seq<Relaxation>>, deployment: Option<string>,
      rows': seq<Row>, relaxations': Option<seq<Relaxation>>, deployment': Option<string>)
    requires IsCanonical(canon) && WellFormedRows(rows) && WellFormedRows(rows')
    requires WitnessDigest(canon, sha, rows, relaxations, deployment).Some?
    requires WitnessDigest(canon, sha, rows, relaxations, deployment)
          == WitnessDigest(canon, sha, rows', relaxations', deployment')
    ensures || Collides(sha, canon(Preimage(rows, relaxations, deployment)),
                        canon(Preimage(rows', relaxations', deployment')))
            || (SameRows(SortRows(rows), SortRows(rows'))
                && Declared(relaxations) == Declared(relaxations') && deployment == deployment')
  {
    var p, p' := Preimage(rows, relaxations, deployment), Preimage(rows', relaxations', deployment');
    var xs, xs' := Declared(relaxations), Declared(relaxations');
    SortedRowsOk(rows);
    SortedRowsOk(rows');
    PreimageOk(rows, relaxations, deployment);
    PreimageOk(rows', relaxations', deployment');
    if canon(p) == canon(p') {
      assert Meaning(p) == Meaning(p');
      if p.Arr? && p'.Arr? {
        SameRowsJson(SortRows(rows), SortRows(rows'));
      } else if p.Obj? && p'.Obj? {
        SamePreimage(SortRows(rows), xs, deployment, SortRows(rows'), xs', deployment');
      }
    }
  }

  lemma PreimageOk(rows: seq<Row>, relaxations: Option<seq<Relaxation>>, deployment: Option<string>)
    requires WellFormedRows(rows)
    ensures WellFormed(Preimage(rows, relaxations, deployment))
  {
    SortedRowsOk(rows);
    RowsJsonOk(SortRows(rows));
    PreimageFieldsOk(SortRows(rows), Declared(relaxations), deployment);
    RecordMembers(PreimageFields(SortRows(rows), Declared(relaxations), deployment));
  }

  // ---------------------------------------------------------------- the attestation

  datatype Build = Build(kind: string, id: string)

  function AttestationFields(digest: string, build: Build, version: string, discovery: string): Fields {
    [("witnessSha256", Text(digest)),
     ("host.build", Some(Obj(Record([("kind", Text(build.kind)), ("id", Text(build.id))])))),
     ("suite.version", Text(version)), ("discovery.sha256", Text(discovery))]
  }

  /** The text a signature covers. */
  function AttestationPayload(canon: Canon, digest: string, build: Build, version: string, discovery: string)
    : Option<string>
  {
    canon(Obj(Record(AttestationFields(digest, build, version, discovery))))
  }

  lemma AttestationOk(digest: string, build: Build, version: string, discovery: string)
    ensures WellFormedFields(AttestationFields(digest, build, version, discovery))
  {
    var bs: Fields := [("kind", Text(build.kind)), ("id", Text(build.id))];
    RecordMembers(bs);
    assert "witnessSha256"[0] != "suite.version"[0];
  }

  lemma SameBuildJson(b: Build, c: Build)
    requires Meaning(Obj(Record([("kind", Text(b.kind)), ("id", Text(b.id))])))
          == Meaning(Obj(Record([("kind", Text(c.kind)), ("id", Text(c.id))])))
    ensures b == c
  {
    var fs: Fields := [("kind", Text(b.kind)), ("id", Text(b.id))];
    var gs: Fields := [("kind", Text(c.kind)), ("id", Text(c.id))];
    RecordsAgree(fs, gs, 0);
    RecordsAgree(fs, gs, 1);
  }

  /** One signed text, one digest, build, version and discovery digest. */
  lemma PayloadBinds(
      canon: Canon, w: string, b: Build, v: string, d: string, w': string, b': Build, v': string, d': string)
    requires IsCanonical(canon) && AttestationPayload(canon, w, b, v, d).Some?
    requires AttestationPayload(canon, w, b, v, d) == AttestationPayload(canon, w', b', v', d')
    ensures w == w' && b == b' && v == v' && d == d'
  {
    AttestationOk(w, b, v, d);
    AttestationOk(w', b', v', d');
    RecordMembers(AttestationFields(w, b, v, d));
    RecordMembers(AttestationFields(w', b', v', d'));
    SameAttestation(w, b, v, d, w', b', v', d');
  }

  lemma SameAttestation(w: string, b: Build, v: string, d: string, w': string, b': Build, v': string, d': string)
    requires WellFormedFields(AttestationFields(w, b, v, d)) && WellFormedFields(AttestationFields(w', b', v', d'))
    requires Meaning(Obj(Record(AttestationFields(w, b, v, d))))
          == Meaning(Obj(Record(AttestationFields(w', b', v', d'))))
    ensures w == w' && b == b' && v == v' && d == d'
  {
    var fs, gs := AttestationFields(w, b, v, d), AttestationFields(w', b', v', d');
    RecordsAgree(fs, gs, 0);
    RecordsAgree(fs, gs, 1);
    RecordsAgree(fs, gs, 2);
    RecordsAgree(fs, gs, 3);
    SameBuildJson(b, b');
  }
}
