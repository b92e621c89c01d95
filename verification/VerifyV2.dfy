/**
  The verifier of version 2 bundles (conformance/src/lib/certification-bundle-verify.ts,
  `verifyBundleV2`). Evidence that is not acceptable is rejected; acceptable evidence of a
  requirement that was not met only fails to certify.
 */
module VerifyV2 {
  import opened Json
  import opened Wrappers
  import opened Scrub
  import opened Tally
  import Seqs

  /** A row, with whatever other members it has in the file. */
  datatype Row = Row(
    requirementId: string, scenarioId: string, disposition: string, assertionCount: Option<int>, detail: Option<string>,
    others: seq<Member>)

  /** What a profile's floor demands: a scenario file, any scenario of a prefix, any file of a group. */
  datatype Requirement = File(file: string) | Prefix(prefix: string) | AnyOf(files: seq<string>)
  datatype Floor = Floor(requirements: seq<Requirement>, discoveryOnly: bool)

  /** The profile registry: what a document derives, and a profile's floor on a document. */
  datatype Registry = Registry(derivable: (Json, string) -> bool, floor: (string, Json) -> Option<Floor>)

  /**
    What the verifier reads, with the rest of the file: its members other than `results`, and
    those of `results` other than the rows.
   */
  datatype BundleV2 = BundleV2(
    version: string, document: Json, claimedProfiles: seq<string>, totals: Option<Totals>, rows: seq<Row>,
    rest: seq<Member>, results: seq<Member>)

  datatype Rejection =
    | NotV2 | UnknownDisposition(id: string) | ReasonMissing(id: string) | Duplicate(id: string)
    | TotalsMismatch | SecretCanary | Unwitnessed(id: string) | Vacuous(id: string)

  datatype ProfileVerdict = ProfileVerdict(
    profile: string, derivable: bool, floorUnspecified: bool, required: seq<string>, rejections: seq<Rejection>,
    notCertifiable: seq<string>, evidenceValid: bool, certified: bool)
  datatype Verdict = Verdict(
    evidenceValid: bool, certified: bool, rejections: seq<Rejection>, profiles: seq<ProfileVerdict>)

  const DISPOSITIONS := ["executed-pass", "executed-fail", "skipped", "inapplicable", "blocked"]
  const CERTIFIABLE := ["executed-pass", "skipped", "inapplicable"]
  const CANARY := "openwop-conformance-canary-secret"
  const UNCLASSIFIED_RETURN_DETAIL :=
    "every test returned early with zero assertions and no recorded reason \U{2014} unclassified return; "
    + "RFC 0148 \U{A7}A resolves it to blocked (add softSkip(kind, reason) at the early return)"

  // ---------------------------------------------------------------- requirement ids

  /** `f.replace(/\.test\.ts$/, '')` */
  function Stem(f: string): string {
    if |f| >= 8 && f[|f| - 8..] == ".test.ts" then f[..|f| - 8] else f
  }

  /** What follows the last slash. */
  function Basename(id: string): string {
    if id == "" then "" else if id[|id| - 1] == '/' then "" else Basename(id[..|id| - 1]) + [id[|id| - 1]]
  }

  function JoinStems(files: seq<string>): string {
    if files == [] then "" else if |files| == 1 then Stem(files[0]) else Stem(files[0]) + "+" + JoinStems(files[1..])
  }

  function IdForFile(file: string): string {
    "openwop.floor." + Stem(Basename(file))
  }

  function IdOf(q: Requirement): string {
    match q
    case File(file) => IdForFile(file)
    case Prefix(prefix) => "openwop.floor.any." + prefix
    case AnyOf(files) => "openwop.floor.anyof." + JoinStems(files)
  }

  // ---------------------------------------------------------------- which rows count, and for what

  predicate Witnessed(r: Row) {
    r.disposition == "executed-pass" && r.assertionCount.Some? && r.assertionCount.value > 0
  }

  predicate IsVacuous(r: Row) {
    r.disposition == "executed-pass" && !Witnessed(r)
  }

  predicate IsUnclassified(r: Row) {
    r.disposition == "blocked" && r.detail == Some(UNCLASSIFIED_RETURN_DETAIL)
  }

  function RowsOf(rows: seq<Row>, id: string): seq<Row> {
    if rows == [] then []
    else RowsOf(rows[..|rows| - 1], id) + if rows[|rows| - 1].requirementId == id then [rows[|rows| - 1]] else []
  }

  /** The first row of an id, as a list. */
  function First(rows: seq<Row>, id: string): seq<Row> {
    if RowsOf(rows, id) == [] then [] else [RowsOf(rows, id)[0]]
  }

  predicate MatchesPrefix(r: Row, prefix: string) {
    prefix <= Basename(r.scenarioId) && r.requirementId != IdOf(Prefix(prefix))
  }

  function Matching(rows: seq<Row>, prefix: string): seq<Row> {
    if rows == [] then []
    else
      var last := rows[|rows| - 1];
      Matching(rows[..|rows| - 1], prefix) + if MatchesPrefix(last, prefix) then [last] else []
  }

  function Members(rows: seq<Row>, files: seq<string>): seq<Row> {
    if files == [] then [] else Members(rows, files[..|files| - 1]) + First(rows, IdForFile(files[|files| - 1]))
  }

  /** The rows a requirement is judged by: its own, or else those it stands for. */
  function Considered(rows: seq<Row>, q: Requirement): seq<Row> {
    match q
    case File(_) => First(rows, IdOf(q))
    case Prefix(prefix) => if Matching(rows, prefix) != [] then Matching(rows, prefix) else First(rows, IdOf(q))
    case AnyOf(files) => if First(rows, IdOf(q)) != [] then First(rows, IdOf(q)) else Members(rows, files)
  }

  /** Acceptable evidence: there is some, none of it empty, and none that says nothing. */
  predicate Evident(rows: seq<Row>, q: Requirement) {
    var considered := Considered(rows, q);
    considered != [] && forall r | r in considered :: !IsVacuous(r) && (q.AnyOf? || !IsUnclassified(r))
  }

  predicate Met(rows: seq<Row>, q: Requirement) {
    var considered := Considered(rows, q);
    && Evident(rows, q)
    && match q
       case File(_) => forall r | r in considered :: r.disposition in CERTIFIABLE
       case Prefix(_) => exists r | r in considered :: Witnessed(r)
       case AnyOf(_) =>
         (forall r | r in considered :: r.disposition != "executed-fail") && exists r | r in considered :: Witnessed(r)
  }

  // ---------------------------------------------------------------- one profile

  /** None when met; else a rejection, or, for honest evidence, that it does not certify. */
  datatype Finding = IsMet | NotCertifiable | Rejects(why: Rejection)

  /** The map holds the rows of each id, in order. */
  ghost predicate Grouped(byId: map<string, seq<Row>>, rows: seq<Row>) {
    forall id :: (if id in byId then byId[id] else []) == RowsOf(rows, id)
  }

  /** Why evidence that is not acceptable is not: there is none, it says nothing, or it is empty. */
  function Why(rows: seq<Row>, q: Requirement): Rejection {
    if Considered(rows, q) == [] || (q.File? && !IsVacuous(Considered(rows, q)[0])) then Unwitnessed(IdOf(q))
    else Vacuous(IdOf(q))
  }

  ghost predicate Judged(f: Finding, rows: seq<Row>, q: Requirement) {
    match f
    case IsMet => Met(rows, q)
    case NotCertifiable => Evident(rows, q) && !Met(rows, q)
    case Rejects(why) => !Evident(rows, q) && why == Why(rows, q)
  }

  method JudgeRequirement(rows: seq<Row>, byId: map<string, seq<Row>>, q: Requirement) returns (f: Finding)
    requires Grouped(byId, rows)
    ensures Judged(f, rows, q)
  {
    var id := IdOf(q);
    var own := ReadFirst(rows, byId, id);
    match q {
      case File(_) => f := JudgeFile(rows, own, q);
      case Prefix(prefix) => f := JudgePrefix(rows, own, q);
      case AnyOf(files) =>
        var members := ReadMembers(rows, byId, files);
        f := JudgeGroup(rows, own, members, q);
    }
  }

  method JudgeFile(rows: seq<Row>, own: seq<Row>, q: Requirement) returns (f: Finding)
    requires q.File? && own == First(rows, IdOf(q))
    ensures Judged(f, rows, q)
  {
    if own == [] { return Rejects(Unwitnessed(IdOf(q))); }
    var row := own[0];
    if IsVacuous(row) { return Rejects(Vacuous(IdOf(q))); }
    if IsUnclassified(row) { return Rejects(Unwitnessed(IdOf(q))); }
    f := if row.disposition in CERTIFIABLE then IsMet else NotCertifiable;
  }

  method JudgePrefix(rows: seq<Row>, own: seq<Row>, q: Requirement) returns (f: Finding)
    requires q.Prefix? && own == First(rows, IdOf(q))
    ensures Judged(f, rows, q)
  {
    var matching := Matching(rows, q.prefix);
    if matching == [] && own == [] { return Rejects(Unwitnessed(IdOf(q))); }
    var considered := if matching != [] then matching else own;
    if exists r | r in considered :: IsVacuous(r) || IsUnclassified(r) { return Rejects(Vacuous(IdOf(q))); }
    f := if exists r | r in considered :: Witnessed(r) then IsMet else NotCertifiable;
  }

  method JudgeGroup(rows: seq<Row>, own: seq<Row>, members: seq<Row>, q: Requirement) returns (f: Finding)
    requires q.AnyOf? && own == First(rows, IdOf(q)) && members == Members(rows, q.files)
    ensures Judged(f, rows, q)
  {
    if own == [] && members == [] { return Rejects(Unwitnessed(IdOf(q))); }
    var considered := if own != [] then own else members;
    if exists r | r in considered :: IsVacuous(r) { return Rejects(Vacuous(IdOf(q))); }
    var fails := exists r | r in considered :: r.disposition == "executed-fail";
    f := if fails || !exists r | r in considered :: Witnessed(r) then NotCertifiable else IsMet;
  }

  /** `byId.get(id)?.[0]` */
  method ReadFirst(rows: seq<Row>, byId: map<string, seq<Row>>, id: string) returns (own: seq<Row>)
    requires Grouped(byId, rows)
    ensures own == First(rows, id)
  {
    own := if id in byId && byId[id] != [] then [byId[id][0]] else [];
  }

  method ReadMembers(rows: seq<Row>, byId: map<string, seq<Row>>, files: seq<string>) returns (members: seq<Row>)
    requires Grouped(byId, rows)
    ensures members == Members(rows, files)
  {
    members := [];
    for k := 0 to |files|
      invariant members == Members(rows, files[..k])
    {
      assert files[..k + 1][..k] == files[..k];
      var row := ReadFirst(rows, byId, IdForFile(files[k]));
      members := members + row;
    }
    assert files[..|files|] == files;
  }

  predicate AllEvident(rows: seq<Row>, qs: seq<Requirement>) {
    qs == [] || (AllEvident(rows, qs[..|qs| - 1]) && Evident(rows, qs[|qs| - 1]))
  }

  predicate AllMet(rows: seq<Row>, qs: seq<Requirement>) {
    qs == [] || (AllMet(rows, qs[..|qs| - 1]) && Met(rows, qs[|qs| - 1]))
  }

  lemma {:induction false} EachIsMet(rows: seq<Row>, qs: seq<Requirement>, q: Requirement)
    requires AllMet(rows, qs) && q in qs
    ensures Met(rows, q)
  {
    if q == qs[|qs| - 1] {
    } else {
      EachIsMet(rows, qs[..|qs| - 1], q);
    }
  }

  function Ids(qs: seq<Requirement>): seq<string> {
    if qs == [] then [] else Ids(qs[..|qs| - 1]) + [IdOf(qs[|qs| - 1])]
  }

  /** Why each requirement without acceptable evidence is rejected. */
  function Whys(rows: seq<Row>, qs: seq<Requirement>): seq<Rejection> {
    if qs == [] then []
    else
      var q := qs[|qs| - 1];
      Whys(rows, qs[..|qs| - 1]) + if Evident(rows, q) then [] else [Why(rows, q)]
  }

  /** The requirements with acceptable evidence that were not met. */
  function Unmet(rows: seq<Row>, qs: seq<Requirement>): seq<string> {
    if qs == [] then []
    else
      var q := qs[|qs| - 1];
      Unmet(rows, qs[..|qs| - 1]) + if Evident(rows, q) && !Met(rows, q) then [IdOf(q)] else []
  }

  lemma {:induction false} NoReasons(rows: seq<Row>, qs: seq<Requirement>)
    ensures Whys(rows, qs) == [] <==> AllEvident(rows, qs)
    ensures Whys(rows, qs) == [] && Unmet(rows, qs) == [] <==> AllMet(rows, qs)
  {
    if qs == [] {
    } else {
      NoReasons(rows, qs[..|qs| - 1]);
    }
  }

  ghost predicate Tallied(
      rows: seq<Row>, qs: seq<Requirement>,
      required: seq<string>, rejections: seq<Rejection>, notCertifiable: seq<string>)
  {
    required == Ids(qs) && rejections == Whys(rows, qs) && notCertifiable == Unmet(rows, qs)
  }

  function WhyOf(f: Finding): seq<Rejection> {
    if f.Rejects? then [f.why] else []
  }

  lemma TalliedNext(
      rows: seq<Row>, qs: seq<Requirement>, k: nat, f: Finding,
      required: seq<string>, rejections: seq<Rejection>, notCertifiable: seq<string>)
    requires k < |qs| && Tallied(rows, qs[..k], required, rejections, notCertifiable) && Judged(f, rows, qs[k])
    ensures var id := IdOf(qs[k]);
            Tallied(rows, qs[..k + 1], required + [id], rejections + WhyOf(f),
                    notCertifiable + if f.NotCertifiable? then [id] else [])
  {
    assert qs[..k + 1][..k] == qs[..k];
  }

  method JudgeRequirements(rows: seq<Row>, byId: map<string, seq<Row>>, qs: seq<Requirement>)
    returns (required: seq<string>, rejections: seq<Rejection>, notCertifiable: seq<string>)
    requires Grouped(byId, rows)
    ensures Tallied(rows, qs, required, rejections, notCertifiable)
  {
    required, rejections, notCertifiable := [], [], [];
    for k := 0 to |qs|
      invariant Tallied(rows, qs[..k], required, rejections, notCertifiable)
    {
      var id := IdOf(qs[k]);
      var f := JudgeRequirement(rows, byId, qs[k]);
      TalliedNext(rows, qs, k, f, required, rejections, notCertifiable);
      required, rejections := required + [id], rejections + WhyOf(f);
      notCertifiable := notCertifiable + if f.NotCertifiable? then [id] else [];
    }
    assert qs[..|qs|] == qs;
  }

  /** A profile without a floor is not rejected, and never certified. */
  predicate ProfileEvident(reg: Registry, b: BundleV2, profile: string) {
    var f := reg.floor(profile, b.document);
    f.Some? ==> AllEvident(b.rows, f.value.requirements)
  }

  predicate ProfileCertified(reg: Registry, b: BundleV2, profile: string) {
    var f := reg.floor(profile, b.document);
    f.Some? && reg.derivable(b.document, profile) && AllMet(b.rows, f.value.requirements)
    && (f.value.discoveryOnly || f.value.requirements != [])
  }

  /** Every part of a profile's verdict. */
  ghost predicate ProfileJudged(reg: Registry, b: BundleV2, profile: string, v: ProfileVerdict) {
    var f := reg.floor(profile, b.document);
    var qs := if f.Some? then f.value.requirements else [];
    && v.profile == profile && v.derivable == reg.derivable(b.document, profile) && v.floorUnspecified == f.None?
    && Tallied(b.rows, qs, v.required, v.rejections, v.notCertifiable)
    && (v.evidenceValid <==> ProfileEvident(reg, b, profile))
    && (v.certified <==> ProfileCertified(reg, b, profile))
  }

  method JudgeProfile(reg: Registry, b: BundleV2, byId: map<string, seq<Row>>, profile: string)
    returns (v: ProfileVerdict)
    requires Grouped(byId, b.rows)
    ensures ProfileJudged(reg, b, profile, v)
  {
    var derivable := reg.derivable(b.document, profile);
    var floor := reg.floor(profile, b.document);
    if floor.None? { return ProfileVerdict(profile, derivable, true, [], [], [], true, false); }
    var required, rejections, notCertifiable := JudgeRequirements(b.rows, byId, floor.value.requirements);
    NoReasons(b.rows, floor.value.requirements);
    IdsCount(floor.value.requirements);
    var valid := rejections == [];
    var certified := derivable && valid && notCertifiable == [] && (floor.value.discoveryOnly || |required| > 0);
    v := ProfileVerdict(profile, derivable, false, required, rejections, notCertifiable, valid, certified);
  }

  lemma {:induction false} IdsCount(qs: seq<Requirement>)
    ensures |Ids(qs)| == |qs|
  {
    if qs == [] {
    } else {
      IdsCount(qs[..|qs| - 1]);
    }
  }

  // ---------------------------------------------------------------- the bundle

  function Disposition(r: Row): string { r.disposition }

  function Dispositions(rows: seq<Row>): seq<string> {
    Seqs.Map(Disposition, rows)
  }

  function RowFields(x: Row): seq<Member> {
    [Member("requirementId", Str(x.requirementId)), Member("scenarioId", Str(x.scenarioId)),
     Member("disposition", Str(x.disposition))]
    + (if x.assertionCount.Some? then [Member("assertionCount", Num(x.assertionCount.value as real))] else [])
    + (if x.detail.Some? then [Member("detail", Str(x.detail.value))] else [])
  }

  function RowJson(x: Row): Json {
    Obj(RowFields(x) + x.others)
  }

  function RowsJson(rows: seq<Row>): Json {
    Arr(seq(|rows|, i requires 0 <= i < |rows| => RowJson(rows[i])))
  }

  /** The bundle as it stands in the file, which is searched for the canary. */
  function Whole(b: BundleV2): Json {
    Obj(b.rest + [Member("results", Obj(b.results + [Member("requirements", RowsJson(b.rows))]))])
  }

  /** Where `literal` occurs in a string of the value, member names included. */
  function FindLiteral(v: Json, literal: string, path: Path): seq<Path>
    decreases v, 1
  {
    match v
    case Str(s) => if Contains(s, literal) then [path] else []
    case Arr(items) => FindInItems(items, literal, path)
    case Obj(ms) => FindInMembers(ms, literal, path)
    case _ => []
  }

  function FindInItems(items: seq<Json>, literal: string, path: Path): seq<Path>
    decreases items, 0
  {
    if items == [] then []
    else
      var last := |items| - 1;
      FindInItems(items[..last], literal, path) + FindLiteral(items[last], literal, path + [Index(last)])
  }

  function FindInMembers(ms: seq<Member>, literal: string, path: Path): seq<Path>
    decreases ms, 0
  {
    if ms == [] then []
    else
      var m := ms[|ms| - 1];
      var at := path + [Name(m.key)];
      FindInMembers(ms[..|ms| - 1], literal, path)
      + (if Contains(m.key, literal) then [at] else []) + FindLiteral(m.value, literal, at)
  }

  predicate LacksReason(x: Row) {
    x.disposition != "executed-pass" && (x.detail.None? || Blank(x.detail.value))
  }

  ghost predicate Due(r: Rejection, b: BundleV2) {
    match r
    case NotV2 => b.version != "2"
    case UnknownDisposition(id) => exists x | x in b.rows :: x.requirementId == id && x.disposition !in DISPOSITIONS
    case ReasonMissing(id) =>
      exists x | x in b.rows :: x.requirementId == id && LacksReason(x)
    case Duplicate(id) => |RowsOf(b.rows, id)| > 1
    case TotalsMismatch => b.totals.Some? && b.totals.value != TotalsOf(Dispositions(b.rows))
    case SecretCanary => FindLiteral(Whole(b), CANARY, []) != []
    case _ => false
  }

  ghost predicate Acceptable(b: BundleV2) {
    forall r :: !Due(r, b)
  }

  /** What one row breaks by itself. */
  function RowIssues(x: Row): seq<Rejection> {
    (if x.disposition !in DISPOSITIONS then [UnknownDisposition(x.requirementId)] else [])
    + if LacksReason(x) then [ReasonMissing(x.requirementId)] else []
  }

  ghost predicate HoldsIssues(rs: seq<Rejection>, rows: seq<Row>) {
    forall r :: r in rs <==> exists x | x in rows :: r in RowIssues(x)
  }

  method GroupRows(rows: seq<Row>) returns (rs: seq<Rejection>, byId: map<string, seq<Row>>)
    ensures Grouped(byId, rows) && HoldsIssues(rs, rows)
  {
    rs, byId := [], map[];
    for k := 0 to |rows|
      invariant Grouped(byId, rows[..k]) && HoldsIssues(rs, rows[..k])
    {
      var r := rows[k];
      assert rows[..k + 1] == rows[..k] + [r];
      rs := rs + RowIssues(r);
      var arr := if r.requirementId in byId then byId[r.requirementId] else [];
      byId := byId[r.requirementId := arr + [r]];
    }
    assert rows[..|rows|] == rows;
  }

  method FindDuplicates(byId: map<string, seq<Row>>) returns (rs: seq<Rejection>)
    ensures forall r :: r in rs <==> r.Duplicate? && r.id in byId && |byId[r.id]| > 1
  {
    rs := [];
    var ids := byId.Keys;
    while ids != {}
      invariant ids <= byId.Keys
      invariant forall r :: r in rs <==> r.Duplicate? && r.id in byId.Keys - ids && |byId[r.id]| > 1
    {
      var id :| id in ids;
      if |byId[id]| > 1 { rs := rs + [Duplicate(id)]; }
      ids := ids - {id};
    }
  }

  method CheckBundle(b: BundleV2) returns (rejections: seq<Rejection>, byId: map<string, seq<Row>>)
    ensures Grouped(byId, b.rows)
    ensures forall r :: r in rejections <==> Due(r, b)
  {
    var rowIssues, duplicates;
    rowIssues, byId := GroupRows(b.rows);
    duplicates := FindDuplicates(byId);
    var expected := CountTotals(Dispositions(b.rows));
    var totals := b.totals.Some? && b.totals.value != expected;
    var leaks := FindLiteral(Whole(b), CANARY, []) != [];
    rejections := (if b.version != "2" then [NotV2] else []) + rowIssues + duplicates
                + (if totals then [TotalsMismatch] else []) + (if leaks then [SecretCanary] else []);
    forall r
      ensures r in rejections <==> Due(r, b)
    {
      AllIssues(r, b, rowIssues, duplicates, rejections);
    }
  }

  lemma AllIssues(
      r: Rejection, b: BundleV2, rowIssues: seq<Rejection>, duplicates: seq<Rejection>, rejections: seq<Rejection>)
    requires r in rowIssues <==> (r.UnknownDisposition? || r.ReasonMissing?) && Due(r, b)
    requires r in duplicates <==> r.Duplicate? && |RowsOf(b.rows, r.id)| > 1
    requires rejections == (if b.version != "2" then [NotV2] else []) + rowIssues + duplicates
                         + (if b.totals.Some? && b.totals.value != TotalsOf(Dispositions(b.rows)) then [TotalsMismatch]
                            else [])
                         + (if FindLiteral(Whole(b), CANARY, []) != [] then [SecretCanary] else [])
    ensures r in rejections <==> Due(r, b)
  {}

  ghost predicate ProfilesJudged(reg: Registry, b: BundleV2, ps: seq<string>, profiles: seq<ProfileVerdict>) {
    |profiles| == |ps| && forall k | 0 <= k < |ps| :: ProfileJudged(reg, b, ps[k], profiles[k])
  }

  method JudgeProfiles(reg: Registry, b: BundleV2, byId: map<string, seq<Row>>) returns (profiles: seq<ProfileVerdict>)
    requires Grouped(byId, b.rows)
    ensures ProfilesJudged(reg, b, b.claimedProfiles, profiles)
  {
    profiles := [];
    for k := 0 to |b.claimedProfiles|
      invariant ProfilesJudged(reg, b, b.claimedProfiles[..k], profiles)
    {
      var v := JudgeProfile(reg, b, byId, b.claimedProfiles[k]);
      OneMoreJudged(reg, b, b.claimedProfiles, k, profiles, v);
      profiles := profiles + [v];
    }
    assert b.claimedProfiles[..|b.claimedProfiles|] == b.claimedProfiles;
  }

  lemma OneMoreJudged(
      reg: Registry, b: BundleV2, ps: seq<string>, k: nat, profiles: seq<ProfileVerdict>, v: ProfileVerdict)
    requires k < |ps| && ProfilesJudged(reg, b, ps[..k], profiles) && ProfileJudged(reg, b, ps[k], v)
    ensures ProfilesJudged(reg, b, ps[..k + 1], profiles + [v])
  {
    var all := profiles + [v];
    forall i | 0 <= i < k + 1
      ensures ProfileJudged(reg, b, ps[..k + 1][i], all[i])
    { if i < k { assert ps[..k + 1][i] == ps[..k][i] && all[i] == profiles[i]; } }
  }

  lemma EveryProfile(reg: Registry, b: BundleV2, ps: seq<string>, profiles: seq<ProfileVerdict>)
    requires ProfilesJudged(reg, b, ps, profiles)
    ensures (forall v | v in profiles :: v.evidenceValid) <==> forall p | p in ps :: ProfileEvident(reg, b, p)
    ensures (forall v | v in profiles :: v.certified) <==> forall p | p in ps :: ProfileCertified(reg, b, p)
  {
    forall k | 0 <= k < |ps|
      ensures profiles[k].evidenceValid == ProfileEvident(reg, b, ps[k])
      ensures profiles[k].certified == ProfileCertified(reg, b, ps[k])
    { assert ProfileJudged(reg, b, ps[k], profiles[k]); }
    assert forall k | 0 <= k < |ps| :: profiles[k] in profiles && ps[k] in ps;
  }

  /** The bundle is acceptable evidence, or not; and it certifies, or not. */
  method VerifyBundleV2(reg: Registry, b: BundleV2) returns (v: Verdict)
    ensures forall r :: r in v.rejections <==> Due(r, b)
    ensures v.evidenceValid <==> EvidenceValid(reg, b)
    ensures v.certified <==> Certified(reg, b)
    ensures ProfilesJudged(reg, b, b.claimedProfiles, v.profiles)
  {
    var rejections, byId := CheckBundle(b);
    AcceptableWhenEmpty(b, rejections);
    var profiles := JudgeProfiles(reg, b, byId);
    EveryProfile(reg, b, b.claimedProfiles, profiles);
    var valid := rejections == [] && forall p | p in profiles :: p.evidenceValid;
    v := Verdict(valid, valid && |profiles| > 0 && forall p | p in profiles :: p.certified, rejections, profiles);
  }

  lemma AcceptableWhenEmpty(b: BundleV2, rejections: seq<Rejection>)
    requires forall r :: r in rejections <==> Due(r, b)
    ensures rejections == [] <==> Acceptable(b)
  {
    if rejections != [] { assert rejections[0] in rejections; }
  }

  ghost predicate EvidenceValid(reg: Registry, b: BundleV2) {
    Acceptable(b) && forall p | p in b.claimedProfiles :: ProfileEvident(reg, b, p)
  }

  ghost predicate Certified(reg: Registry, b: BundleV2) {
    EvidenceValid(reg, b) && b.claimedProfiles != [] && forall p | p in b.claimedProfiles :: ProfileCertified(reg, b, p)
  }

  // ---------------------------------------------------------------- the order of the rows

  ghost predicate OneRowEach(rows: seq<Row>) {
    forall id :: |RowsOf(rows, id)| <= 1
  }

  lemma {:induction false} RowsOfHolds(rows: seq<Row>, id: string)
    ensures forall r :: r in RowsOf(rows, id) <==> r in rows && r.requirementId == id
    ensures forall r :: multiset(RowsOf(rows, id))[r] == if r.requirementId == id then multiset(rows)[r] else 0
  {
    if rows == [] {
    } else {
      assert rows == rows[..|rows| - 1] + [rows[|rows| - 1]];
      RowsOfHolds(rows[..|rows| - 1], id);
    }
  }

  lemma SameRowsOf(rows: seq<Row>, other: seq<Row>, id: string)
    requires multiset(rows) == multiset(other)
    ensures multiset(RowsOf(rows, id)) == multiset(RowsOf(other, id)) && |RowsOf(rows, id)| == |RowsOf(other, id)|
  {
    RowsOfHolds(rows, id);
    RowsOfHolds(other, id);
    assert multiset(RowsOf(rows, id)) == multiset(RowsOf(other, id));
    assert |RowsOf(rows, id)| == |multiset(RowsOf(rows, id))|;
  }

  lemma SameFirst(rows: seq<Row>, other: seq<Row>, id: string)
    requires multiset(rows) == multiset(other) && OneRowEach(rows)
    ensures First(rows, id) == First(other, id)
  {
    SameRowsOf(rows, other, id);
    assert |RowsOf(rows, id)| <= 1;
    if RowsOf(rows, id) != [] {
      assert RowsOf(rows, id)[0] in multiset(RowsOf(other, id));
    }
  }

  lemma {:induction false} SameMembers(rows: seq<Row>, other: seq<Row>, files: seq<string>)
    requires multiset(rows) == multiset(other) && OneRowEach(rows)
    ensures Members(rows, files) == Members(other, files)
  {
    if files == [] {
    } else {
      SameMembers(rows, other, files[..|files| - 1]);
      SameFirst(rows, other, IdForFile(files[|files| - 1]));
    }
  }

  lemma {:induction false} MatchingHolds(rows: seq<Row>, prefix: string)
    ensures forall r :: r in Matching(rows, prefix) <==> r in rows && MatchesPrefix(r, prefix)
  {
    if rows == [] {
    } else {
      assert rows == rows[..|rows| - 1] + [rows[|rows| - 1]];
      MatchingHolds(rows[..|rows| - 1], prefix);
    }
  }

  lemma SameConsidered(rows: seq<Row>, other: seq<Row>, q: Requirement)
    requires multiset(rows) == multiset(other) && OneRowEach(rows)
    ensures forall r :: r in Considered(rows, q) <==> r in Considered(other, q)
    ensures Considered(rows, q) == [] <==> Considered(other, q) == []
  {
    SameFirst(rows, other, IdOf(q));
    match q
    case File(_) =>
    case Prefix(prefix) =>
      MatchingHolds(rows, prefix);
      MatchingHolds(other, prefix);
      assert forall r :: r in rows <==> r in multiset(rows);
      assert forall r :: r in other <==> r in multiset(other);
      if Matching(rows, prefix) != [] { assert Matching(rows, prefix)[0] in Matching(other, prefix); }
      if Matching(other, prefix) != [] { assert Matching(other, prefix)[0] in Matching(rows, prefix); }
    case AnyOf(files) => SameMembers(rows, other, files);
  }

  lemma SameJudgement(rows: seq<Row>, other: seq<Row>, q: Requirement)
    requires multiset(rows) == multiset(other) && OneRowEach(rows)
    ensures Evident(rows, q) == Evident(other, q) && Met(rows, q) == Met(other, q)
  {
    SameConsidered(rows, other, q);
  }

  /** The same bundle, its rows in another order. */
  ghost predicate Reordered(b: BundleV2, c: BundleV2) {
    && multiset(b.rows) == multiset(c.rows) && c == b.(rows := c.rows)
  }

  /** What the file holds, whatever the order of its rows. */
  lemma WholeMentions(b: BundleV2, t: string)
    ensures Mentions(Whole(b), t) <==>
              Mentions(Obj(b.rest), t) || t == "results" || Mentions(Obj(b.results), t) || t == "requirements"
              || exists x | x in b.rows :: Mentions(RowJson(x), t)
  {
    var rows := RowsJson(b.rows);
    var results := Obj(b.results + [Member("requirements", rows)]);
    MentionsOneMore(b.rest, Member("results", results), t);
    MentionsOneMore(b.results, Member("requirements", rows), t);
    if x :| x in b.rows && Mentions(RowJson(x), t) {
      var i :| 0 <= i < |b.rows| && b.rows[i] == x;
      assert rows.items[i] == RowJson(x);
    }
    if i :| 0 <= i < |rows.items| && Mentions(rows.items[i], t) {
      assert b.rows[i] in b.rows && rows.items[i] == RowJson(b.rows[i]);
    }
  }

  lemma MentionsOneMore(ms: seq<Member>, m: Member, t: string)
    ensures Mentions(Obj(ms + [m]), t) <==> Mentions(Obj(ms), t) || m.key == t || Mentions(m.value, t)
  {
    var all := ms + [m];
    if i :| 0 <= i < |ms| && (ms[i].key == t || Mentions(ms[i].value, t)) { assert all[i] == ms[i]; }
    if m.key == t || Mentions(m.value, t) { assert all[|ms|] == m; }
  }

  /** Reordering the rows neither hides the canary nor makes one up. */
  lemma SameSearch(b: BundleV2, c: BundleV2)
    requires Reordered(b, c)
    ensures FindLiteral(Whole(b), CANARY, []) == [] <==> FindLiteral(Whole(c), CANARY, []) == []
  {
    FindLiteralIsExact(Whole(b), CANARY, []);
    FindLiteralIsExact(Whole(c), CANARY, []);
    assert forall x :: x in b.rows <==> x in multiset(b.rows);
    assert forall x :: x in c.rows <==> x in multiset(c.rows);
    forall t
      ensures Mentions(Whole(b), t) <==> Mentions(Whole(c), t)
    {
      WholeMentions(b, t);
      WholeMentions(c, t);
    }
  }

  lemma SameDue(b: BundleV2, c: BundleV2, r: Rejection)
    requires Reordered(b, c)
    ensures Due(r, b) <==> Due(r, c)
  {
    assert forall x :: x in b.rows <==> x in multiset(b.rows);
    assert forall x :: x in c.rows <==> x in multiset(c.rows);
    match r
    case Duplicate(id) => SameRowsOf(b.rows, c.rows, id);
    case TotalsMismatch =>
      Seqs.MapKeepsBags(Disposition, b.rows, c.rows);
      TotalsIgnoreOrder(Dispositions(b.rows), Dispositions(c.rows));
    case SecretCanary => SameSearch(b, c);
    case _ =>
  }

  /** The verdict does not depend on the order of the rows, repeated ids or not. */
  lemma VerdictIgnoresRowOrder(reg: Registry, b: BundleV2, c: BundleV2)
    requires Reordered(b, c)
    ensures EvidenceValid(reg, b) == EvidenceValid(reg, c) && Certified(reg, b) == Certified(reg, c)
  {
    forall r
      ensures Due(r, b) <==> Due(r, c)
    { SameDue(b, c, r); }
    if Acceptable(b) {
      AcceptableHasOneRowEach(b);
      forall q
        ensures Evident(b.rows, q) == Evident(c.rows, q) && Met(b.rows, q) == Met(c.rows, q)
      { SameJudgement(b.rows, c.rows, q); }
      SameProfiles(reg, b, c);
    }
  }

  lemma AcceptableHasOneRowEach(b: BundleV2)
    requires Acceptable(b)
    ensures OneRowEach(b.rows)
  {
    forall id
      ensures |RowsOf(b.rows, id)| <= 1
    { assert !Due(Duplicate(id), b); }
  }

  lemma SameProfiles(reg: Registry, b: BundleV2, c: BundleV2)
    requires b.document == c.document
    requires forall q :: Evident(b.rows, q) == Evident(c.rows, q) && Met(b.rows, q) == Met(c.rows, q)
    ensures forall p :: ProfileEvident(reg, b, p) == ProfileEvident(reg, c, p)
    ensures forall p :: ProfileCertified(reg, b, p) == ProfileCertified(reg, c, p)
  {
    forall qs
      ensures AllEvident(b.rows, qs) == AllEvident(c.rows, qs) && AllMet(b.rows, qs) == AllMet(c.rows, qs)
    { SameAll(b.rows, c.rows, qs); }
  }

  lemma {:induction false} SameAll(rows: seq<Row>, other: seq<Row>, qs: seq<Requirement>)
    requires forall q :: Evident(rows, q) == Evident(other, q) && Met(rows, q) == Met(other, q)
    ensures AllEvident(rows, qs) == AllEvident(other, qs) && AllMet(rows, qs) == AllMet(other, qs)
  {
    if qs == [] {
    } else {
      SameAll(rows, other, qs[..|qs| - 1]);
    }
  }

  // ---------------------------------------------------------------- what a certified bundle shows

  /**
    In a certified bundle every requirement of every claimed profile has a row, no pass among
    its rows is empty, and where one witnessed pass is demanded there is one.
   */
  lemma CertifiedIsWitnessed(reg: Registry, b: BundleV2, profile: string, q: Requirement)
    requires Certified(reg, b) && profile in b.claimedProfiles
    ensures reg.derivable(b.document, profile) && reg.floor(profile, b.document).Some?
    ensures q in reg.floor(profile, b.document).value.requirements ==>
              Considered(b.rows, q) != []
              && (forall r | r in Considered(b.rows, q) ::
                    r in b.rows && (r.disposition == "executed-pass" ==> Witnessed(r)))
              && (q.File? || exists r | r in Considered(b.rows, q) :: Witnessed(r))
              && (q.Prefix? || forall r | r in Considered(b.rows, q) :: r.disposition != "executed-fail")
  {
    assert ProfileCertified(reg, b, profile);
    if q in reg.floor(profile, b.document).value.requirements {
      EachIsMet(b.rows, reg.floor(profile, b.document).value.requirements, q);
      ConsideredAreRows(b.rows, q);
      assert "executed-fail" !in CERTIFIABLE;
    }
  }

  lemma FirstIsRow(rows: seq<Row>, id: string)
    ensures forall r | r in First(rows, id) :: r in rows
  {
    RowsOfHolds(rows, id);
  }

  lemma {:induction false} MembersAreRows(rows: seq<Row>, files: seq<string>)
    ensures forall r | r in Members(rows, files) :: r in rows
  {
    if files == [] {
    } else {
      MembersAreRows(rows, files[..|files| - 1]);
      FirstIsRow(rows, IdForFile(files[|files| - 1]));
    }
  }

  lemma ConsideredAreRows(rows: seq<Row>, q: Requirement)
    ensures forall r | r in Considered(rows, q) :: r in rows
  {
    FirstIsRow(rows, IdOf(q));
    match q
    case File(_) =>
    case Prefix(prefix) => MatchingHolds(rows, prefix);
    case AnyOf(files) => MembersAreRows(rows, files);
  }

  // ---------------------------------------------------------------- the canary

  /** A literal is found exactly when some string of the value, at any depth, holds it. */
  lemma {:induction false} FindLiteralIsExact(v: Json, literal: string, path: Path)
    ensures FindLiteral(v, literal, path) != [] <==> exists t :: Mentions(v, t) && Contains(t, literal)
    decreases v, 1
  {
    match v
    case Str(s) => assert Mentions(v, s);
    case Arr(items) => FindInItemsIsExact(items, literal, path);
    case Obj(ms) => FindInMembersIsExact(ms, literal, path);
    case _ =>
  }

  lemma {:induction false} FindInItemsIsExact(items: seq<Json>, literal: string, path: Path)
    ensures FindInItems(items, literal, path) != [] <==> exists t :: Mentions(Arr(items), t) && Contains(t, literal)
    decreases items, 0
  {
    if items == [] {
    } else {
      var rest, last := items[..|items| - 1], |items| - 1;
      FindInItemsIsExact(rest, literal, path);
      FindLiteralIsExact(items[last], literal, path + [Index(last)]);
      forall t
        ensures Mentions(Arr(items), t) <==> Mentions(Arr(rest), t) || Mentions(items[last], t)
      {}
    }
  }

  lemma {:induction false} FindInMembersIsExact(ms: seq<Member>, literal: string, path: Path)
    ensures FindInMembers(ms, literal, path) != [] <==> exists t :: Mentions(Obj(ms), t) && Contains(t, literal)
    decreases ms, 0
  {
    if ms == [] {
    } else {
      var rest, m := ms[..|ms| - 1], ms[|ms| - 1];
      FindInMembersIsExact(rest, literal, path);
      FindLiteralIsExact(m.value, literal, path + [Name(m.key)]);
      forall t
        ensures Mentions(Obj(ms), t) <==> Mentions(Obj(rest), t) || m.key == t || Mentions(m.value, t)
      {}
      assert Mentions(Obj(ms), m.key);
    }
  }

  lemma DigestsHoldNoCanary(t: string)
    requires Contains(t, CANARY)
    ensures !IsHexDigest(t)
  {
    var i :| 0 <= i <= |t| && OccursAt(t, CANARY, i);
    HeldAt(t, CANARY, i, 0);
    HeldAt(t, CANARY, i, 4);
    CanaryLetters();
    if i >= 7 { assert t[7..][i - 7] == t[i]; } else if i + 4 >= 7 { assert t[7..][i - 3] == t[i + 4]; }
  }

  lemma CanaryLetters()
    ensures |CANARY| > 4 && CANARY[0] == 'o' && CANARY[4] == 'w'
  {}

  lemma HeldAt(s: string, p: string, i: nat, k: nat)
    requires OccursAt(s, p, i) && k < |p|
    ensures s[i + k] == p[k]
  {
    assert s[i..i + |p|][k] == p[k];
  }

  lemma CanaryIsLive(secrets: seq<string>)
    requires CANARY in secrets
    ensures CANARY in Live(secrets)
  {
    assert !IsSpace(CANARY[0]);
  }

  /** No secret's marker holds the canary. */
  predicate MarkersLackCanary(tag: Tag, secrets: seq<string>) {
    forall r | r in Live(secrets) :: !Contains(Marker(tag, r), CANARY)
  }

  lemma NoStringHoldsIt(tag: Tag, secrets: seq<string>, v: Json, t: string)
    requires MarkersLackCanary(tag, secrets) && CANARY in Live(secrets) && Mentions(Scrubbed(tag, secrets, v), t)
    ensures !Contains(t, CANARY)
  {
    if Contains(t, CANARY) {
      CanaryHasNoDelimiter();
      NothingSurvives(tag, Live(secrets), v, t, CANARY);
      DigestsHoldNoCanary(t);
    }
  }

  lemma CanaryHasNoDelimiter()
    ensures CANARY != "" && OPENING !in CANARY && CLOSING !in CANARY
  {}

  /**
    A document scrubbed of secrets that include the canary is never rejected for holding it,
    whatever the other secrets are, as long as no marker holds it.
   */
  lemma ScrubbedHoldsNoCanary(tag: Tag, secrets: seq<string>, v: Json, path: Path)
    requires CANARY in secrets && MarkersLackCanary(tag, secrets)
    ensures FindLiteral(Scrubbed(tag, secrets, v), CANARY, path) == []
  {
    CanaryIsLive(secrets);
    FindLiteralIsExact(Scrubbed(tag, secrets, v), CANARY, path);
    forall t | Mentions(Scrubbed(tag, secrets, v), t)
      ensures !Contains(t, CANARY)
    { NoStringHoldsIt(tag, secrets, v, t); }
  }

  /** The source's tags are hex digits. */
  ghost predicate HexTags(tag: Tag) {
    forall r :: AllHex(tag(r))
  }

  predicate AllHex(s: string) {
    forall c | c in s :: IsHexDigit(c)
  }

  /** With them no marker holds the canary, so it needs no proviso. */
  lemma HexTagsLackCanary(tag: Tag, secrets: seq<string>)
    requires HexTags(tag)
    ensures MarkersLackCanary(tag, secrets)
  {
    forall r | r in Live(secrets)
      ensures !Contains(Marker(tag, r), CANARY)
    {
      MarkerLacksO(tag, r);
      AbsentWithoutFirst(Marker(tag, r), CANARY);
    }
  }

  lemma MarkerLacksO(tag: Tag, r: string)
    requires HexTags(tag)
    ensures 'o' !in Marker(tag, r)
  {
    assert AllHex(tag(r)) && !IsHexDigit('o');
  }
}
