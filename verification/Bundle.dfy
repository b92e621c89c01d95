/**
  Sealing and verifying a certification bundle v3
  (conformance/src/lib/certification-bundle-v3.ts; the emitter in conformance/src/cli.ts).
 */
module Bundle {
  import opened Wrappers
  import opened Json
  import opened Durability
  import opened Digest
  import opened Tally
  import CodeUnits
  import Scrub
  import Seqs

  // ---------------------------------------------------------------- the document

  datatype Profile = Profile(id: string, evidenceTier: string, witnessCount: int, certified: bool)
  datatype Signature = Signature(alg: string, keyId: string, sig: string, over: seq<string>)
  datatype VerifierSignature = VerifierSignature(keyId: string, sig: string)

  datatype Draft = Draft(
    bundleVersion: string, targetMajor: int, suiteVersion: string,
    build: Build, signingKeyId: Option<string>, relaxations: Option<seq<Relaxation>>, deployment: Option<string>,
    discoverySha256: string, document: Option<Json>,
    claimedProfiles: seq<Profile>, totals: Totals, rows: seq<Row>, assertionCount: int, hasDetail: bool,
    rung: Option<Json>)

  datatype Bundle = Bundle(
    draft: Draft, witnessSha256: string, signature: Option<Signature>, verifierSignature: Option<VerifierSignature>)

  const SIGNATURE_OVER: seq<string> := ["witnessSha256", "host.build", "suite.version", "discovery.sha256"]

  // ---------------------------------------------------------------- what it is verified with

  /** Hash, canonical form and signature scheme. */
  datatype Crypto = Crypto(
    canon: Canon, sha: Sha,
    sign: (string, string) -> string, publicOf: string -> string, verify: (string, string, string) -> bool)

  /** A signature verifies under the key that belongs to the signer's. */
  ghost predicate SignaturesVerify(c: Crypto) {
    forall key, text :: c.verify(c.publicOf(key), text, c.sign(key, text))
  }

  /**
    The profile registry: which obligation families a profile owns, which failed rows show
    which obligation relaxed, and what a discovery document derives.
   */
  datatype Registry = Registry(
    owned: map<string, set<string>>, witnesses: seq<(string, string)>,
    derivable: (Json, string, int) -> bool, v2Available: bool)

  /** One verification: the bundle, what it is checked with, and the keys given. */
  datatype Case = Case(
    crypto: Crypto, registry: Registry, bundle: Bundle, hostKey: Option<string>, verifierKey: Option<string>)

  // ---------------------------------------------------------------- relaxations

  function FirstSegment(o: string): string {
    if o == "" || o[0] == '.' then "" else [o[0]] + FirstSegment(o[1..])
  }

  predicate RelaxedBy(registry: Registry, obligations: seq<string>, id: string) {
    exists k | 0 <= k < |obligations| ::
      var family := FirstSegment(obligations[k]);
      && family != ""
      && ((id in registry.owned && family in registry.owned[id]) || Scrub.Contains(id, family))
  }

  function Obligations(d: Draft): seq<string> {
    var xs := Declared(d.relaxations);
    seq(|xs|, i requires 0 <= i < |xs| => xs[i].obligation)
  }

  predicate Fails(rows: seq<Row>, id: string) {
    exists k | 0 <= k < |rows| :: rows[k].id == id && rows[k].result == "executed-fail"
  }

  function ObservedObligations(registry: Registry, rows: seq<Row>, n: nat): seq<string>
    requires n <= |registry.witnesses|
  {
    if n == 0 then []
    else
      var (id, obligation) := registry.witnesses[n - 1];
      ObservedObligations(registry, rows, n - 1) + if Fails(rows, id) then [obligation] else []
  }

  predicate DeclaredRelaxed(registry: Registry, d: Draft, id: string) {
    RelaxedBy(registry, Obligations(d), id)
  }

  predicate ObservedRelaxed(registry: Registry, rows: seq<Row>, id: string) {
    RelaxedBy(registry, ObservedObligations(registry, rows, |registry.witnesses|), id)
  }

  // ---------------------------------------------------------------- opt-outs

  const OPT_OUT_ROW := "openwop.profile."
  const OPT_OUT_MARK := "OPENWOP_OPTED_OUT_PROFILES"

  predicate IsProfileChar(c: char) {
    'A' <= c <= 'Z' || 'a' <= c <= 'z' || '0' <= c <= '9' || c == '_' || c == '.' || c == '-'
  }

  function ProfileRun(s: string): string {
    if s == "" || !IsProfileChar(s[0]) then "" else [s[0]] + ProfileRun(s[1..])
  }

  /** The name after the first `OPENWOP_OPTED_OUT_PROFILES: ` that a lower-case letter follows. */
  function NameInDetail(d: string): Option<string> {
    var mark := OPT_OUT_MARK + ": ";
    if |d| <= |mark| then None
    else if mark <= d && 'a' <= d[|mark|] <= 'z' then Some(ProfileRun(d[|mark|..]))
    else NameInDetail(d[1..])
  }

  predicate OptsOut(r: Row, name: string) {
    var d := if r.detail.Some? then r.detail.value else "";
    && r.result == "skipped"
    && ((OPT_OUT_ROW <= r.id && Scrub.Contains(d, OPT_OUT_MARK) && name == r.id[|OPT_OUT_ROW|..])
        || NameInDetail(d) == Some(name))
  }

  predicate OptedOut(rows: seq<Row>, name: string) {
    exists k | 0 <= k < |rows| :: OptsOut(rows[k], name)
  }

  function Itself(name: string): string { name }

  /** Each name once, in code-unit order. */
  ghost predicate SortedNames(names: seq<string>) {
    CodeUnits.Sorted(names, Itself) && EachOnce(names)
  }

  ghost predicate EachOnce(names: seq<string>) {
    forall name :: multiset(names)[name] <= 1
  }

  /** A `Set` in insertion order. */
  function Added(names: seq<string>, name: string): (more: seq<string>)
    requires EachOnce(names)
    ensures EachOnce(more) && forall x :: x in more <==> x in names || x == name
  {
    assert name !in names ==> multiset(names)[name] == 0;
    if name in names then names else names + [name]
  }

  method OptedOutBy(r: Row, names: seq<string>) returns (more: seq<string>)
    requires EachOnce(names)
    ensures EachOnce(more)
    ensures forall name :: name in more <==> name in names || OptsOut(r, name)
  {
    more := names;
    if r.result != "skipped" { return; }
    var d := if r.detail.Some? then r.detail.value else "";
    if OPT_OUT_ROW <= r.id && Scrub.Contains(d, OPT_OUT_MARK) { more := Added(more, r.id[|OPT_OUT_ROW|..]); }
    var m := NameInDetail(d);
    if m.Some? { more := Added(more, m.value); }
  }

  method OptedOutFromRows(rows: seq<Row>) returns (names: seq<string>)
    ensures forall name :: name in names <==> OptedOut(rows, name)
    ensures SortedNames(names)
  {
    var found: seq<string> := [];
    for i := 0 to |rows|
      invariant EachOnce(found)
      invariant forall name :: name in found <==> OptedOut(rows[..i], name)
    {
      found := OptedOutBy(rows[i], found);
      OptedOutStep(rows, i);
    }
    assert rows[..|rows|] == rows;
    names := CodeUnits.Sort(found, Itself);
    CodeUnits.SortSorts(found, Itself);
    SameNames(found, names);
  }

  lemma SameNames(a: seq<string>, b: seq<string>)
    requires multiset(a) == multiset(b)
    ensures EachOnce(a) <==> EachOnce(b)
    ensures forall name :: name in a <==> name in b
  {
    assert forall name :: name in a <==> name in multiset(a);
    assert forall name :: name in b <==> name in multiset(b);
  }

  lemma OptedOutStep(rows: seq<Row>, i: nat)
    requires i < |rows|
    ensures forall name :: OptedOut(rows[..i + 1], name) <==> OptedOut(rows[..i], name) || OptsOut(rows[i], name)
  {
    forall name
      ensures OptedOut(rows[..i + 1], name) <==> OptedOut(rows[..i], name) || OptsOut(rows[i], name)
    {
      if OptsOut(rows[i], name) { assert rows[..i + 1][i] == rows[i]; }
      if k :| 0 <= k < i && OptsOut(rows[k], name) { assert rows[..i + 1][k] == rows[..i][k] == rows[k]; }
    }
  }

  const FAMILY := "family."

  /** `root[key]` is an object; `__proto__`, when not a member, is one. */
  predicate AdvertisesFamily(document: Json, key: string) {
    var v := Field(document, key);
    if v.Some? then v.value.Obj? else document.Obj? && key == "__proto__"
  }

  predicate Advertises(registry: Registry, document: Json, name: string, major: int) {
    if FAMILY <= name then AdvertisesFamily(document, name[|FAMILY|..]) else registry.derivable(document, name, major)
  }

  // ---------------------------------------------------------------- what draws a rejection

  datatype Kind =
    | NotV3 | DuplicateRequirement | ReasonMissing | VacuousPass | TotalsMismatch | WitnessMismatch | AssertionCount
    | DetailMissing | BuildMissing | SignatureMissing | SignatureOver | SignatureInvalid
    | IndependentUnsigned | IndependentSelfSigned | VerifierSignatureInvalid | IndependentUnverifiable
    | RungNotDerivable | UndeclaredRelaxationObserved | RelaxedProfileCertified | BlockedCertified
    | DiscoveryMismatch | OptedOutButAdvertised | ProfileNotDerivable

  datatype Rejection = Rejection(kind: Kind, profile: Option<string>)

  predicate Pass(r: Row) { r.result == "executed-pass" }

  function ResultOf(r: Row): string { r.result }

  function Results(rows: seq<Row>): seq<string> {
    Seqs.Map(ResultOf, rows)
  }

  function AssertionsOf(rows: seq<Row>): int {
    if rows == [] then 0
    else
      var last := rows[|rows| - 1];
      AssertionsOf(rows[..|rows| - 1]) + if last.assertions.Some? then last.assertions.value else 0
  }

  method SumAssertions(rows: seq<Row>) returns (n: int)
    ensures n == AssertionsOf(rows)
  {
    n := 0;
    for i := 0 to |rows|
      invariant n == AssertionsOf(rows[..i])
    {
      assert rows[..i + 1][..i] == rows[..i];
      n := n + if rows[i].assertions.Some? then rows[i].assertions.value else 0;
    }
    assert rows[..|rows|] == rows;
  }

  predicate HasReason(r: Row) { r.detail.Some? && !Scrub.Blank(r.detail.value) }
  predicate HasAssertions(r: Row) { r.assertions.Some? && r.assertions.value > 0 }

  predicate RepeatsAnId(rows: seq<Row>) {
    exists i, k :: 0 <= i < k < |rows| && rows[i].id == rows[k].id
  }

  predicate LacksAReason(rows: seq<Row>) {
    exists k :: 0 <= k < |rows| && !Pass(rows[k]) && !HasReason(rows[k])
  }

  predicate HasVacuousPass(rows: seq<Row>) {
    exists k :: 0 <= k < |rows| && Pass(rows[k]) && !HasAssertions(rows[k])
  }

  predicate HasNonPass(rows: seq<Row>) {
    exists k :: 0 <= k < |rows| && !Pass(rows[k])
  }

  function DigestOf(c: Crypto, d: Draft): Option<string> {
    WitnessDigest(c.canon, c.sha, d.rows, d.relaxations, d.deployment)
  }

  function PayloadOf(c: Crypto, b: Bundle): Option<string> {
    AttestationPayload(c.canon, b.witnessSha256, b.draft.build, b.draft.suiteVersion, b.draft.discoverySha256)
  }

  predicate Attested(c: Crypto, b: Bundle, key: string, sig: string) {
    PayloadOf(c, b).Some? && c.verify(key, PayloadOf(c, b).value, sig)
  }

  predicate SignaturePresent(b: Bundle) {
    b.signature.Some? && b.signature.value.alg == "ed25519"
    && b.signature.value.keyId != "" && b.signature.value.sig != ""
  }

  predicate SignatureShaped(b: Bundle) {
    SignaturePresent(b) && b.signature.value.over == SIGNATURE_OVER
  }

  predicate ClaimsIndependent(b: Bundle) {
    exists k | 0 <= k < |b.draft.claimedProfiles| :: b.draft.claimedProfiles[k].evidenceTier == "independent"
  }

  predicate VerifierSigned(b: Bundle) {
    b.verifierSignature.Some? && b.verifierSignature.value.keyId != "" && b.verifierSignature.value.sig != ""
  }

  predicate VerifierDistinct(b: Bundle)
    requires b.verifierSignature.Some?
  {
    var id := b.verifierSignature.value.keyId;
    && (b.signature.Some? ==> id != b.signature.value.keyId)
    && (b.draft.signingKeyId.Some? ==> id != b.draft.signingKeyId.value)
  }

  predicate ClaimsCertified(d: Draft, id: string) {
    exists k | 0 <= k < |d.claimedProfiles| :: d.claimedProfiles[k].id == id && d.claimedProfiles[k].certified
  }

  function Major(d: Draft): int { if d.targetMajor == 2 then 2 else 1 }

  predicate DocumentMatches(c: Crypto, d: Draft)
    requires d.document.Some?
  {
    c.canon(d.document.value).Some? && c.sha(c.canon(d.document.value).value) == d.discoverySha256
  }

  predicate DerivabilityChecked(e: Case) {
    var d := e.bundle.draft;
    d.document.Some? && DocumentMatches(e.crypto, d) && (Major(d) == 2 ==> e.registry.v2Available)
  }

  /** When each kind of rejection is due: for the bundle, or for one profile. */
  ghost predicate Due(kind: Kind, profile: Option<string>, e: Case) {
    var b, d := e.bundle, e.bundle.draft;
    match kind
    case NotV3 => profile.None? && d.bundleVersion != "3"
    case DuplicateRequirement => profile.None? && RepeatsAnId(d.rows)
    case ReasonMissing => profile.None? && LacksAReason(d.rows)
    case VacuousPass => profile.None? && HasVacuousPass(d.rows)
    case TotalsMismatch => profile.None? && d.totals != TotalsOf(Results(d.rows))
    case WitnessMismatch => profile.None? && DigestOf(e.crypto, d) != Some(b.witnessSha256)
    case AssertionCount => profile.None? && d.assertionCount != AssertionsOf(d.rows)
    case DetailMissing => profile.None? && !d.hasDetail && HasNonPass(d.rows)
    case BuildMissing => profile.None? && (d.build.kind == "" || d.build.id == "")
    case SignatureMissing => profile.None? && !SignaturePresent(b)
    case SignatureOver => profile.None? && SignaturePresent(b) && !SignatureShaped(b)
    case SignatureInvalid =>
      profile.None? && SignatureShaped(b) && e.hostKey.Some?
      && !Attested(e.crypto, b, e.hostKey.value, b.signature.value.sig)
    case IndependentUnsigned => profile.None? && ClaimsIndependent(b) && !VerifierSigned(b)
    case IndependentSelfSigned => profile.None? && ClaimsIndependent(b) && VerifierSigned(b) && !VerifierDistinct(b)
    case VerifierSignatureInvalid =>
      profile.None? && ClaimsIndependent(b) && VerifierSigned(b) && VerifierDistinct(b) && e.verifierKey.Some?
      && !Attested(e.crypto, b, e.verifierKey.value, b.verifierSignature.value.sig)
    case IndependentUnverifiable =>
      profile.None? && ClaimsIndependent(b) && VerifierSigned(b) && VerifierDistinct(b) && e.verifierKey.None?
    case RungNotDerivable =>
      profile.None? && d.rung.Some? && !(d.rung.value == Str(SINGLE_INSTANCE) && SupportsSingleInstance(d.rows))
    case UndeclaredRelaxationObserved =>
      profile.Some? && ClaimsCertified(d, profile.value)
      && ObservedRelaxed(e.registry, d.rows, profile.value) && !DeclaredRelaxed(e.registry, d, profile.value)
    case RelaxedProfileCertified =>
      profile.Some? && ClaimsCertified(d, profile.value) && DeclaredRelaxed(e.registry, d, profile.value)
    case BlockedCertified =>
      profile.None? && Holding(Results(d.rows), "blocked") != {}
      && exists id :: ClaimsCertified(d, id) && !DeclaredRelaxed(e.registry, d, id)
    case DiscoveryMismatch => profile.None? && d.document.Some? && !DocumentMatches(e.crypto, d)
    case OptedOutButAdvertised =>
      profile.None? && DerivabilityChecked(e)
      && exists name :: OptedOut(d.rows, name) && Advertises(e.registry, d.document.value, name, Major(d))
    case ProfileNotDerivable =>
      profile.Some? && DerivabilityChecked(e) && ClaimsCertified(d, profile.value)
      && !e.registry.derivable(d.document.value, profile.value, Major(d))
  }
}
