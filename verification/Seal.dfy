/**
  `sealBundleV3` (scrub, then digest, then sign) against `verifyBundleV3`, and the
  emitter's own verdict (conformance/src/cli.ts) against the verifier's.
 */
module Seal {
  import opened Wrappers
  import opened Json
  import opened Durability
  import opened Digest
  import opened Bundle
  import opened Tally
  import opened Scrub
  import opened Verify

  // ---------------------------------------------------------------- scrubbing the draft

  function Opt(tag: Tag, live: seq<string>, s: Option<string>): Option<string>
    requires "" !in live
  {
    if s.Some? then Some(ScrubText(tag, live, s.value)) else None
  }

  function OptJson(tag: Tag, live: seq<string>, j: Option<Json>): Option<Json>
    requires "" !in live
  {
    if j.Some? then Some(ScrubJson(tag, live, j.value)) else None
  }

  function ScrubRow(tag: Tag, live: seq<string>, r: Row): Row
    requires "" !in live
  {
    Row(ScrubText(tag, live, r.id), ScrubText(tag, live, r.scenario), ScrubText(tag, live, r.result), r.assertions,
        Opt(tag, live, r.detail), OptJson(tag, live, r.evidence))
  }

  function ScrubRelaxation(tag: Tag, live: seq<string>, x: Relaxation): Relaxation
    requires "" !in live
  {
    Relaxation(ScrubText(tag, live, x.obligation), ScrubText(tag, live, x.durability), ScrubText(tag, live, x.reason))
  }

  function ScrubProfile(tag: Tag, live: seq<string>, p: Profile): Profile
    requires "" !in live
  {
    p.(id := ScrubText(tag, live, p.id), evidenceTier := ScrubText(tag, live, p.evidenceTier))
  }

  /** `scrubEvidence` over the draft's values. */
  function ScrubDraft(tag: Tag, live: seq<string>, d: Draft): Draft
    requires "" !in live
  {
    if live == [] then d
    else
      var xs := Declared(d.relaxations);
      Draft(
        ScrubText(tag, live, d.bundleVersion), d.targetMajor, ScrubText(tag, live, d.suiteVersion),
        Build(ScrubText(tag, live, d.build.kind), ScrubText(tag, live, d.build.id)), Opt(tag, live, d.signingKeyId),
        if d.relaxations.Some? then Some(seq(|xs|, i requires 0 <= i < |xs| => ScrubRelaxation(tag, live, xs[i])))
        else None,
        Opt(tag, live, d.deployment), ScrubText(tag, live, d.discoverySha256), OptJson(tag, live, d.document),
        var ps := d.claimedProfiles; seq(|ps|, i requires 0 <= i < |ps| => ScrubProfile(tag, live, ps[i])),
        d.totals, seq(|d.rows|, i requires 0 <= i < |d.rows| => ScrubRow(tag, live, d.rows[i])),
        d.assertionCount, d.hasDetail, OptJson(tag, live, d.rung))
  }

  /** A signing key and its published name. */
  datatype Signer = Signer(key: string, keyId: string)

  function HostSignature(c: Crypto, host: Signer, text: string): Signature {
    Signature("ed25519", host.keyId, c.sign(host.key, text), SIGNATURE_OVER)
  }

  /** None when something to be signed has no canonical text. */
  function Seal(c: Crypto, tag: Tag, secrets: seq<string>, draft: Draft, host: Signer): Option<Bundle> {
    var d := ScrubDraft(tag, Live(secrets), draft);
    var digest := DigestOf(c, d);
    if digest.None? then None
    else
      var unsigned := Bundle(d, digest.value, None, None);
      var payload := PayloadOf(c, unsigned);
      if payload.None? then None
      else Some(unsigned.(signature := Some(HostSignature(c, host, payload.value))))
  }

  /** `verifierSign`: the verifier signs the same text. */
  function VerifierSign(c: Crypto, b: Bundle, verifier: Option<Signer>): Bundle
    requires PayloadOf(c, b).Some?
  {
    if verifier.None? then b
    else
      var s := verifier.value;
      b.(verifierSignature := Some(VerifierSignature(s.keyId, c.sign(s.key, PayloadOf(c, b).value))))
  }

  /** The bundle as it is written: sealed, then signed by a verifier when there is one. */
  function Written(
      c: Crypto, tag: Tag, secrets: seq<string>, draft: Draft, host: Signer, verifier: Option<Signer>)
    : Option<Bundle>
  {
    var sealed := Seal(c, tag, secrets, draft, host);
    if sealed.Some? && PayloadOf(c, sealed.value).Some? then Some(VerifierSign(c, sealed.value, verifier)) else None
  }

  /** What every written bundle is, whatever the draft. */
  lemma WrittenIs(
      c: Crypto, tag: Tag, secrets: seq<string>, draft: Draft, host: Signer, verifier: Option<Signer>, b: Bundle)
    requires Written(c, tag, secrets, draft, host, verifier) == Some(b)
    ensures b.draft == ScrubDraft(tag, Live(secrets), draft)
    ensures DigestOf(c, b.draft) == Some(b.witnessSha256) && PayloadOf(c, b).Some?
    ensures b.signature == Some(HostSignature(c, host, PayloadOf(c, b).value))
    ensures b.verifierSignature == if verifier.None? then None
                                   else Some(VerifierSignature(verifier.value.keyId,
                                                               c.sign(verifier.value.key, PayloadOf(c, b).value)))
  {}

  /**
    Whatever scrubbing rewrote, the written bundle's digest is that of its own rows and its
    signature verifies under the signer's key.
   */
  lemma SealedVerifies(
      e: Case, tag: Tag, secrets: seq<string>, draft: Draft, host: Signer, verifier: Option<Signer>)
    requires SignaturesVerify(e.crypto)
    requires Written(e.crypto, tag, secrets, draft, host, verifier) == Some(e.bundle)
    requires e.hostKey.Some? ==> e.hostKey.value == e.crypto.publicOf(host.key)
    ensures forall profile ::
              !Due(WitnessMismatch, profile, e) && !Due(SignatureInvalid, profile, e) && !Due(SignatureOver, profile, e)
  {
    WrittenIs(e.crypto, tag, secrets, draft, host, verifier, e.bundle);
    DigestAndShape(e);
    if e.hostKey.Some? {
      assert Attested(e.crypto, e.bundle, e.hostKey.value, e.bundle.signature.value.sig);
      NotInvalid(e);
    }
  }

  lemma DigestAndShape(e: Case)
    requires DigestOf(e.crypto, e.bundle.draft) == Some(e.bundle.witnessSha256)
    requires e.bundle.signature.Some? && e.bundle.signature.value.over == SIGNATURE_OVER
    ensures forall profile :: !Due(WitnessMismatch, profile, e) && !Due(SignatureOver, profile, e)
    ensures e.hostKey.None? ==> forall profile :: !Due(SignatureInvalid, profile, e)
  {}

  lemma NotInvalid(e: Case)
    requires e.bundle.signature.Some? && e.hostKey.Some?
    requires Attested(e.crypto, e.bundle, e.hostKey.value, e.bundle.signature.value.sig)
    ensures forall profile :: !Due(SignatureInvalid, profile, e)
  {}

  /**
    The order before suite 2.43.1: digest the raw rows, then ship the scrubbed ones. As soon
    as scrubbing changes what the digest covers, the verifier refuses the bundle, or the raw
    rows and the scrubbed ones are two texts with one digest.
   */
  lemma DigestBeforeScrubIsRefused(e: Case, raw: Draft)
    requires IsCanonical(e.crypto.canon) && WellFormedRows(raw.rows) && WellFormedRows(e.bundle.draft.rows)
    requires DigestOf(e.crypto, raw) == Some(e.bundle.witnessSha256)
    requires !SameWitness(raw, e.bundle.draft)
    ensures var d := e.bundle.draft;
            || Due(WitnessMismatch, None, e)
            || WitnessesCollide(e.crypto, raw, d)
  {
    var d := e.bundle.draft;
    if DigestOf(e.crypto, d) == Some(e.bundle.witnessSha256) {
      DigestBinds(e.crypto.canon, e.crypto.sha, raw.rows, raw.relaxations, raw.deployment,
                  d.rows, d.relaxations, d.deployment);
    }
  }

  /** The same rows, relaxations and marker. */
  ghost predicate SameWitness(d: Draft, f: Draft) {
    && SameRows(SortRows(d.rows), SortRows(f.rows))
    && Declared(d.relaxations) == Declared(f.relaxations) && d.deployment == f.deployment
  }

  /** Two witnesses in hand with one digest. */
  ghost predicate WitnessesCollide(c: Crypto, d: Draft, f: Draft) {
    Collides(c.sha, c.canon(Preimage(d.rows, d.relaxations, d.deployment)),
             c.canon(Preimage(f.rows, f.relaxations, f.deployment)))
  }

  /**
    Tamper evidence over what one signature covers: two bundles whose digests match and
    whose signed texts are equal hold the same rows, relaxations, marker, build, version
    and discovery digest, unless two texts with one digest are in hand.
   */
  lemma SignedTextBindsBundle(c: Crypto, a: Bundle, b: Bundle)
    requires IsCanonical(c.canon) && WellFormedRows(a.draft.rows) && WellFormedRows(b.draft.rows)
    requires DigestOf(c, a.draft) == Some(a.witnessSha256) && DigestOf(c, b.draft) == Some(b.witnessSha256)
    requires PayloadOf(c, a).Some? && PayloadOf(c, a) == PayloadOf(c, b)
    ensures a.draft.build == b.draft.build && a.draft.suiteVersion == b.draft.suiteVersion
    ensures a.draft.discoverySha256 == b.draft.discoverySha256
    ensures WitnessesCollide(c, a.draft, b.draft) || SameWitness(a.draft, b.draft)
  {
    var d, f := a.draft, b.draft;
    PayloadBinds(c.canon, a.witnessSha256, d.build, d.suiteVersion, d.discoverySha256,
                 b.witnessSha256, f.build, f.suiteVersion, f.discoverySha256);
    DigestBinds(c.canon, c.sha, d.rows, d.relaxations, d.deployment, f.rows, f.relaxations, f.deployment);
  }

  /** One signature that verifies for two different texts. */
  ghost predicate Forged(c: Crypto, key: string, sig: string, x: string, y: string) {
    x != y && c.verify(key, x, sig) && c.verify(key, y, sig)
  }

  /** Two different documents in hand with one digest. */
  ghost predicate DocumentsCollide(c: Crypto, d: Draft, f: Draft)
    requires d.document.Some? && f.document.Some?
  {
    Collides(c.sha, c.canon(d.document.value), c.canon(f.document.value))
  }

  ghost predicate WellFormedDraft(d: Draft) {
    WellFormedRows(d.rows) && (d.document.Some? ==> WellFormed(d.document.value))
  }

  /** All that a certified bundle shows about the run. */
  ghost predicate SameRun(d: Draft, f: Draft) {
    && SameWitness(d, f) && d.build == f.build && d.suiteVersion == f.suiteVersion
    && d.discoverySha256 == f.discoverySha256
    && (d.document.Some? && f.document.Some? ==> Meaning(d.document.value) == Meaning(f.document.value))
  }

  /**
    One signature, one run: two bundles that certify something under one host key with one
    signature agree on the rows, the relaxations, the marker, the build, the version and
    the discovery document, unless the signature covers two texts or a digest two preimages.
   */
  lemma OneSignatureOneRun(a: Case, b: Case, id: string, other: string)
    requires Certifies(a, id) && Certifies(b, other)
    requires a.crypto == b.crypto && IsCanonical(a.crypto.canon)
    requires WellFormedDraft(a.bundle.draft) && WellFormedDraft(b.bundle.draft)
    requires a.hostKey.Some? && a.hostKey == b.hostKey
    requires a.bundle.signature.Some? && b.bundle.signature.Some?
    requires a.bundle.signature.value.sig == b.bundle.signature.value.sig
    ensures PayloadOf(a.crypto, a.bundle).Some? && PayloadOf(b.crypto, b.bundle).Some?
    ensures var d, f := a.bundle.draft, b.bundle.draft;
            || SameRun(d, f)
            || Forged(a.crypto, a.hostKey.value, a.bundle.signature.value.sig,
                      PayloadOf(a.crypto, a.bundle).value, PayloadOf(b.crypto, b.bundle).value)
            || WitnessesCollide(a.crypto, d, f)
            || (d.document.Some? && f.document.Some? && DocumentsCollide(a.crypto, d, f))
  {
    CertifiedSignatures(a, id);
    CertifiedSignatures(b, other);
    CertifiedDocument(a, id);
    CertifiedDocument(b, other);
    if PayloadOf(a.crypto, a.bundle) == PayloadOf(b.crypto, b.bundle) {
      SignedTextBindsBundle(a.crypto, a.bundle, b.bundle);
      DocumentsBound(a.crypto, a.bundle.draft, b.bundle.draft);
    }
  }

  lemma DocumentsBound(c: Crypto, d: Draft, f: Draft)
    requires IsCanonical(c.canon) && WellFormedDraft(d) && WellFormedDraft(f)
    requires d.discoverySha256 == f.discoverySha256
    requires (d.document.Some? ==> DocumentMatches(c, d)) && (f.document.Some? ==> DocumentMatches(c, f))
    ensures d.document.Some? && f.document.Some? ==>
              Meaning(d.document.value) == Meaning(f.document.value) || DocumentsCollide(c, d, f)
  {}

  // ---------------------------------------------------------------- the emitter

  /** A profile the run claims, with its own verdict on the evidence. */
  datatype Claim = Claim(id: string, evidenceTier: string, witnessCount: int, certifiable: bool)

  function EmitProfile(registry: Registry, d: Draft, p: Claim): Profile {
    var relaxed := DeclaredRelaxed(registry, d, p.id) || ObservedRelaxed(registry, d.rows, p.id);
    Profile(p.id, p.evidenceTier, p.witnessCount, !relaxed && p.certifiable && d.totals.blocked == 0)
  }

  /** The emitter writes its verdict into the draft, with the counts and the rung that its rows support. */
  method Emit(registry: Registry, d: Draft, claims: seq<Claim>, keyId: string) returns (r: Draft)
    ensures Emitted(registry, d, claims, keyId, r)
  {
    var rung := DeriveRung(d.rows);
    var assertions := SumAssertions(d.rows);
    r := d.(bundleVersion := "3", signingKeyId := Some(keyId),
            claimedProfiles := seq(|claims|, i requires 0 <= i < |claims| => EmitProfile(registry, d, claims[i])),
            assertionCount := assertions, hasDetail := HasNonPass(d.rows),
            rung := if rung.Some? then Some(Str(rung.value)) else None);
  }

  ghost predicate Emitted(registry: Registry, d: Draft, claims: seq<Claim>, keyId: string, r: Draft) {
    && r.bundleVersion == "3" && r.signingKeyId == Some(keyId)
    && |r.claimedProfiles| == |claims|
    && (forall i | 0 <= i < |claims| :: r.claimedProfiles[i] == EmitProfile(registry, d, claims[i]))
    && r.assertionCount == AssertionsOf(d.rows) && (r.hasDetail <==> HasNonPass(d.rows))
    && r.rung == (if SupportsSingleInstance(d.rows) then Some(Str(SINGLE_INSTANCE)) else None)
    && r == d.(bundleVersion := r.bundleVersion, signingKeyId := r.signingKeyId, claimedProfiles := r.claimedProfiles,
               assertionCount := r.assertionCount, hasDetail := r.hasDetail, rung := r.rung)
  }

  ghost predicate VerdictRowsKept(rows: seq<Row>, other: seq<Row>) {
    && |rows| == |other|
    && forall k | 0 <= k < |rows| ::
         rows[k].id == other[k].id && rows[k].result == other[k].result && rows[k].evidence == other[k].evidence
  }

  /** Scrubbing left alone what the verdict is computed from. */
  ghost predicate VerdictInputsKept(d: Draft, s: Draft) {
    && VerdictRowsKept(d.rows, s.rows)
    && s.claimedProfiles == d.claimedProfiles && s.rung == d.rung && s.totals == d.totals
    && Obligations(s) == Obligations(d)
  }

  lemma {:induction false} RowOfKept(rows: seq<Row>, other: seq<Row>, id: string)
    requires VerdictRowsKept(rows, other)
    ensures var (r, o) := (RowOf(rows, id), RowOf(other, id));
            r.Some? == o.Some? && (r.Some? ==> r.value.result == o.value.result && r.value.evidence == o.value.evidence)
    decreases |rows|
  {
    if rows == [] {
    } else {
      RowOfKept(rows[..|rows| - 1], other[..|other| - 1], id);
    }
  }

  lemma PassedKept(rows: seq<Row>, other: seq<Row>, id: string)
    requires VerdictRowsKept(rows, other) && Passed(rows, id)
    ensures Passed(other, id)
  {
    RowOfKept(rows, other, id);
  }

  lemma WithinBoundKept(rows: seq<Row>, other: seq<Row>, id: string, bounds: seq<Bound>)
    requires VerdictRowsKept(rows, other) && WithinBound(rows, id, bounds)
    ensures WithinBound(other, id, bounds)
  {
    RowOfKept(rows, other, id);
    assert EvidenceOf(rows, id, "recovery") == EvidenceOf(other, id, "recovery");
  }

  lemma SupportKept(rows: seq<Row>, other: seq<Row>)
    requires VerdictRowsKept(rows, other) && SupportsSingleInstance(rows)
    ensures SupportsSingleInstance(other)
  {
    forall k | 0 <= k < |SINGLE_INSTANCE_ROWS|
      ensures Passed(other, SINGLE_INSTANCE_ROWS[k])
    { PassedKept(rows, other, SINGLE_INSTANCE_ROWS[k]); }
    var bounds :| && Declares(EvidenceOf(rows, BOUND_ROW, "recoveryBounds"), bounds)
                  && forall k | 0 <= k < |KILL_ROWS| :: WithinBound(rows, KILL_ROWS[k], bounds);
    assert EvidenceOf(rows, BOUND_ROW, "recoveryBounds") == EvidenceOf(other, BOUND_ROW, "recoveryBounds") by {
      RowOfKept(rows, other, BOUND_ROW);
    }
    forall k | 0 <= k < |KILL_ROWS|
      ensures WithinBound(other, KILL_ROWS[k], bounds)
    { WithinBoundKept(rows, other, KILL_ROWS[k], bounds); }
  }

  lemma {:induction false} ObservedKept(registry: Registry, rows: seq<Row>, other: seq<Row>, n: nat)
    requires n <= |registry.witnesses| && |rows| == |other|
    requires forall k | 0 <= k < |rows| :: rows[k].id == other[k].id && rows[k].result == other[k].result
    ensures ObservedObligations(registry, rows, n) == ObservedObligations(registry, other, n)
  {
    if n == 0 {
    } else {
      ObservedKept(registry, rows, other, n - 1);
      var id := registry.witnesses[n - 1].0;
      assert Fails(rows, id) <==> Fails(other, id) by {
        if k :| 0 <= k < |rows| && rows[k].id == id && rows[k].result == "executed-fail" { assert other[k].id == id; }
        if k :| 0 <= k < |other| && other[k].id == id && other[k].result == "executed-fail" { assert rows[k].id == id; }
      }
    }
  }

  /** A profile the bundle marks certified was so marked because nothing relaxed it and no row was blocked. */
  lemma MarkedForAReason(e: Case, d: Draft, claims: seq<Claim>, keyId: string, emitted: Draft, id: string)
    requires Emitted(e.registry, d, claims, keyId, emitted) && VerdictInputsKept(emitted, e.bundle.draft)
    requires ClaimsCertified(e.bundle.draft, id)
    ensures var s := e.bundle.draft;
            !DeclaredRelaxed(e.registry, s, id) && !ObservedRelaxed(e.registry, s.rows, id) && d.totals.blocked == 0
  {
    var s := e.bundle.draft;
    var k :| 0 <= k < |s.claimedProfiles| && s.claimedProfiles[k].id == id && s.claimedProfiles[k].certified;
    assert s.claimedProfiles[k] == EmitProfile(e.registry, d, claims[k]);
    ObservedKept(e.registry, d.rows, s.rows, |e.registry.witnesses|);
    assert Obligations(s) == Obligations(emitted) == Obligations(d);
  }

  lemma RungSupported(e: Case, d: Draft, claims: seq<Claim>, keyId: string, emitted: Draft)
    requires Emitted(e.registry, d, claims, keyId, emitted) && VerdictInputsKept(emitted, e.bundle.draft)
    ensures !Due(RungNotDerivable, None, e)
  {
    if SupportsSingleInstance(d.rows) { SupportKept(d.rows, e.bundle.draft.rows); }
  }

  lemma SameResults(rows: seq<Row>, other: seq<Row>)
    requires |rows| == |other| && forall k | 0 <= k < |rows| :: rows[k].result == other[k].result
    ensures Results(rows) == Results(other)
  {
    forall k | 0 <= k < |rows|
      ensures Results(rows)[k] == Results(other)[k]
    { assert ResultOf(rows[k]) == ResultOf(other[k]); }
  }

  lemma NothingBlocked(e: Case, d: Draft, claims: seq<Claim>, keyId: string, emitted: Draft)
    requires Emitted(e.registry, d, claims, keyId, emitted) && VerdictInputsKept(emitted, e.bundle.draft)
    requires d.totals == TotalsOf(Results(d.rows))
    ensures !Due(BlockedCertified, None, e)
  {
    var s := e.bundle.draft;
    SameResults(d.rows, s.rows);
    forall id | ClaimsCertified(s, id)
      ensures Holding(Results(s.rows), "blocked") == {}
    { MarkedForAReason(e, d, claims, keyId, emitted, id); }
  }

  /**
    The emitter and the verifier agree: whatever the emitter marks certified draws no
    relaxation, blocked or rung rejection, provided the totals count the rows and scrubbing
    left the inputs of the verdict alone.
   */
  lemma EmitterAgrees(
      e: Case, d: Draft, claims: seq<Claim>, keyId: string, emitted: Draft, kind: Kind, profile: Option<string>)
    requires Emitted(e.registry, d, claims, keyId, emitted) && VerdictInputsKept(emitted, e.bundle.draft)
    requires d.totals == TotalsOf(Results(d.rows))
    requires kind in {RelaxedProfileCertified, UndeclaredRelaxationObserved, BlockedCertified, RungNotDerivable}
    ensures !Due(kind, profile, e)
  {
    if profile.None? {
      NoneBundleWide(e, d, claims, keyId, emitted, kind);
    } else {
      NoneOfProfile(e, d, claims, keyId, emitted, kind, profile.value);
    }
  }

  lemma NoneBundleWide(e: Case, d: Draft, claims: seq<Claim>, keyId: string, emitted: Draft, kind: Kind)
    requires Emitted(e.registry, d, claims, keyId, emitted) && VerdictInputsKept(emitted, e.bundle.draft)
    requires d.totals == TotalsOf(Results(d.rows))
    requires kind in {RelaxedProfileCertified, UndeclaredRelaxationObserved, BlockedCertified, RungNotDerivable}
    ensures !Due(kind, None, e)
  {
    match kind
    case RungNotDerivable => RungSupported(e, d, claims, keyId, emitted);
    case BlockedCertified => NothingBlocked(e, d, claims, keyId, emitted);
    case _ =>
  }

  lemma NoneOfProfile(e: Case, d: Draft, claims: seq<Claim>, keyId: string, emitted: Draft, kind: Kind, id: string)
    requires Emitted(e.registry, d, claims, keyId, emitted) && VerdictInputsKept(emitted, e.bundle.draft)
    requires kind in {RelaxedProfileCertified, UndeclaredRelaxationObserved, BlockedCertified, RungNotDerivable}
    ensures !Due(kind, Some(id), e)
  {
    if kind !in PROFILE_KINDS {
      if Due(kind, Some(id), e) { BundleWideKind(kind, Some(id), e); }
    } else {
      NotRelaxed(e, d, claims, keyId, emitted, id);
    }
  }

  lemma NotRelaxed(e: Case, d: Draft, claims: seq<Claim>, keyId: string, emitted: Draft, id: string)
    requires Emitted(e.registry, d, claims, keyId, emitted) && VerdictInputsKept(emitted, e.bundle.draft)
    ensures !Due(RelaxedProfileCertified, Some(id), e) && !Due(UndeclaredRelaxationObserved, Some(id), e)
  {
    if ClaimsCertified(e.bundle.draft, id) { MarkedForAReason(e, d, claims, keyId, emitted, id); }
  }

  /** What the emitter found: evidence that certifies, nothing relaxed, nothing blocked. */
  ghost predicate FoundCertifiable(registry: Registry, d: Draft, claims: seq<Claim>, id: string) {
    exists p | p in claims ::
      p.id == id && p.certifiable && d.totals.blocked == 0
      && !DeclaredRelaxed(registry, d, id) && !ObservedRelaxed(registry, d.rows, id)
  }

  // ---------------------------------------------------------------- scrubbing keeps what must not be blank

  predicate NonBlank(s: string) {
    !Blank(s)
  }

  lemma HoldsMarker(s: string, p: string, m: string)
    requires p != "" && Contains(s, p) && m != "" && !IsSpace(m[0])
    ensures NonBlank(ReplaceAll(s, p, m))
  {
    var i := FirstOccurrence(s, p, m);
    assert ReplaceAll(s, p, m)[i] == m[0];
  }

  lemma {:induction false} StillNotBlank(tag: Tag, live: seq<string>, s: string)
    requires "" !in live && NonBlank(s)
    ensures NonBlank(ReplaceEach(tag, live, s))
  {
    if live == [] {
    } else {
      var rest, p := ReplaceEach(tag, live[..|live| - 1], s), live[|live| - 1];
      StillNotBlank(tag, live[..|live| - 1], s);
      if Contains(rest, p) { HoldsMarker(rest, p, Marker(tag, p)); }
    }
  }

  lemma {:induction false} StillNotEmpty(tag: Tag, live: seq<string>, s: string)
    requires "" !in live && s != ""
    ensures ReplaceEach(tag, live, s) != ""
  {
    if live == [] {
    } else {
      var rest, p := ReplaceEach(tag, live[..|live| - 1], s), live[|live| - 1];
      StillNotEmpty(tag, live[..|live| - 1], s);
      if Contains(rest, p) { var i := FirstOccurrence(rest, p, Marker(tag, p)); }
    }
  }

  /** A reason stays a reason, and a build stays named, whatever is scrubbed out of them. */
  lemma ScrubKeepsText(tag: Tag, live: seq<string>, s: string)
    requires "" !in live
    ensures s != "" ==> ScrubText(tag, live, s) != ""
    ensures NonBlank(s) ==> NonBlank(ScrubText(tag, live, s))
  {
    if s != "" { StillNotEmpty(tag, live, s); }
    if NonBlank(s) { StillNotBlank(tag, live, s); }
  }

  lemma ScrubbedRows(tag: Tag, live: seq<string>, d: Draft, k: nat)
    requires "" !in live && k < |d.rows|
    ensures var s := ScrubDraft(tag, live, d);
            |s.rows| == |d.rows| && s.rows[k].assertions == d.rows[k].assertions
            && (HasReason(d.rows[k]) ==> HasReason(s.rows[k]))
  {
    if d.rows[k].detail.Some? { ScrubKeepsText(tag, live, d.rows[k].detail.value); }
  }

  // ---------------------------------------------------------------- from end to end

  /** What the run must bring: ids told apart, reasons, assertions, a build, a document that bears the claims. */
  ghost predicate InOrder(c: Crypto, registry: Registry, d: Draft) {
    && !RepeatsAnId(d.rows) && !LacksAReason(d.rows) && !HasVacuousPass(d.rows) && d.totals == TotalsOf(Results(d.rows))
    && d.build.kind != "" && d.build.id != ""
    && (d.document.Some? ==> DocumentMatches(c, d) && BearsClaims(registry, d))
  }

  ghost predicate BearsClaims(registry: Registry, d: Draft)
    requires d.document.Some?
  {
    && (forall id | ClaimsCertified(d, id) :: registry.derivable(d.document.value, id, Major(d)))
    && (forall name | OptedOut(d.rows, name) :: !Advertises(registry, d.document.value, name, Major(d)))
  }

  /** Scrubbing left alone what the verdict reads: of the rows their ids, results, evidence and opt-outs. */
  ghost predicate Undisturbed(d: Draft, s: Draft) {
    && VerdictInputsKept(d, s)
    && s.bundleVersion == d.bundleVersion && s.signingKeyId == d.signingKeyId
    && s.document == d.document && s.discoverySha256 == d.discoverySha256
    && forall name | OptedOut(s.rows, name) :: OptedOut(d.rows, name)
  }

  /** Scrubbing such a value changes nothing. */
  ghost predicate SparedJson(live: seq<string>, j: Option<Json>) {
    j.Some? ==> Clean(live, j.value) && WellFormed(j.value) && NoProtoMember(j.value)
  }

  ghost predicate SparedText(live: seq<string>, s: Option<string>) {
    s.Some? ==> !Dirty(live, s.value)
  }

  ghost predicate SparedRow(live: seq<string>, r: Row) {
    && !Dirty(live, r.id) && !Dirty(live, r.result) && SparedJson(live, r.evidence)
    && (r.result == "skipped" ==> SparedText(live, r.detail))
  }

  /** No secret occurs in what the verdict reads. This can be checked before anything is scrubbed. */
  ghost predicate Spared(live: seq<string>, d: Draft) {
    && !Dirty(live, d.bundleVersion) && SparedText(live, d.signingKeyId)
    && SparedJson(live, d.document) && !Dirty(live, d.discoverySha256) && SparedJson(live, d.rung)
    && (forall p | p in d.claimedProfiles :: !Dirty(live, p.id) && !Dirty(live, p.evidenceTier))
    && (forall x | x in Declared(d.relaxations) :: !Dirty(live, x.obligation))
    && (forall r | r in d.rows :: SparedRow(live, r))
  }

  lemma TextSpared(tag: Tag, live: seq<string>, s: string)
    requires "" !in live && !Dirty(live, s)
    ensures ScrubText(tag, live, s) == s
  {
    if !Exempt(live, s) { UntouchedText(tag, live, s); }
  }

  lemma JsonSpared(tag: Tag, live: seq<string>, j: Option<Json>)
    requires "" !in live && SparedJson(live, j)
    ensures OptJson(tag, live, j) == j
  {
    if j.Some? { CleanIsFixed(tag, live, j.value); }
  }

  lemma RowSpared(tag: Tag, live: seq<string>, r: Row)
    requires "" !in live && SparedRow(live, r)
    ensures var s := ScrubRow(tag, live, r);
            s.id == r.id && s.result == r.result && s.evidence == r.evidence
            && forall name | OptsOut(s, name) :: OptsOut(r, name)
  {
    TextSpared(tag, live, r.id);
    TextSpared(tag, live, r.result);
    JsonSpared(tag, live, r.evidence);
    if r.result == "skipped" && r.detail.Some? { TextSpared(tag, live, r.detail.value); }
  }

  lemma RowsSpared(tag: Tag, live: seq<string>, d: Draft)
    requires "" !in live && forall r | r in d.rows :: SparedRow(live, r)
    ensures var s := ScrubDraft(tag, live, d);
            VerdictRowsKept(d.rows, s.rows) && forall name | OptedOut(s.rows, name) :: OptedOut(d.rows, name)
  {
    var s := ScrubDraft(tag, live, d);
    forall k | 0 <= k < |d.rows|
      ensures live != [] ==> s.rows[k] == ScrubRow(tag, live, d.rows[k])
      ensures d.rows[k].id == s.rows[k].id && d.rows[k].result == s.rows[k].result
      ensures d.rows[k].evidence == s.rows[k].evidence
      ensures forall name | OptsOut(s.rows[k], name) :: OptsOut(d.rows[k], name)
    { RowSpared(tag, live, d.rows[k]); }
  }

  lemma ProfilesSpared(tag: Tag, live: seq<string>, d: Draft)
    requires "" !in live && forall p | p in d.claimedProfiles :: !Dirty(live, p.id) && !Dirty(live, p.evidenceTier)
    ensures ScrubDraft(tag, live, d).claimedProfiles == d.claimedProfiles
  {
    forall k | 0 <= k < |d.claimedProfiles|
      ensures ScrubProfile(tag, live, d.claimedProfiles[k]) == d.claimedProfiles[k]
    {
      var p := d.claimedProfiles[k];
      assert p in d.claimedProfiles;
      TextSpared(tag, live, p.id);
      TextSpared(tag, live, p.evidenceTier);
    }
  }

  lemma ObligationsSpared(tag: Tag, live: seq<string>, d: Draft)
    requires "" !in live && forall x | x in Declared(d.relaxations) :: !Dirty(live, x.obligation)
    ensures Obligations(ScrubDraft(tag, live, d)) == Obligations(d)
  {
    var xs := Declared(d.relaxations);
    forall k | 0 <= k < |xs|
      ensures ScrubRelaxation(tag, live, xs[k]).obligation == xs[k].obligation
    { TextSpared(tag, live, xs[k].obligation); }
  }

  /** What holds no secret comes through as it was. */
  lemma SparedIsUndisturbed(tag: Tag, live: seq<string>, d: Draft)
    requires "" !in live && Spared(live, d)
    ensures Undisturbed(d, ScrubDraft(tag, live, d))
  {
    RowsSpared(tag, live, d);
    ProfilesSpared(tag, live, d);
    ObligationsSpared(tag, live, d);
    TextSpared(tag, live, d.bundleVersion);
    if d.signingKeyId.Some? { TextSpared(tag, live, d.signingKeyId.value); }
    TextSpared(tag, live, d.discoverySha256);
    JsonSpared(tag, live, d.document);
    JsonSpared(tag, live, d.rung);
  }

  /** An independent claim needs a verifier with a key of its own, and the verifier's public key. */
  ghost predicate Witnessed(e: Case, keyId: string, verifier: Option<Signer>) {
    ClaimsIndependent(e.bundle) ==>
      && verifier.Some? && verifier.value.keyId != "" && verifier.value.keyId != keyId
      && e.verifierKey == Some(e.crypto.publicOf(verifier.value.key))
  }

  /** Signing yields text. */
  ghost predicate SignsSomething(c: Crypto) {
    forall key, text :: c.sign(key, text) != ""
  }

  const RECORD: set<Kind> := {
    NotV3, DuplicateRequirement, ReasonMissing, VacuousPass, TotalsMismatch, AssertionCount, DetailMissing,
    BuildMissing}

  lemma {:induction false} AssertionsKept(rows: seq<Row>, other: seq<Row>)
    requires |rows| == |other| && forall k | 0 <= k < |rows| :: rows[k].assertions == other[k].assertions
    ensures AssertionsOf(rows) == AssertionsOf(other)
    decreases |rows|
  {
    if rows == [] {
    } else {
      AssertionsKept(rows[..|rows| - 1], other[..|other| - 1]);
    }
  }

  /** Rows that are in order when the others are. */
  ghost predicate KeepsOrder(rows: seq<Row>, other: seq<Row>) {
    && |rows| == |other|
    && forall k | 0 <= k < |rows| ::
         && rows[k].id == other[k].id && rows[k].result == other[k].result && rows[k].assertions == other[k].assertions
         && (HasReason(rows[k]) ==> HasReason(other[k]))
  }

  lemma StillInOrder(rows: seq<Row>, other: seq<Row>)
    requires KeepsOrder(rows, other)
    requires !RepeatsAnId(rows) && !LacksAReason(rows) && !HasVacuousPass(rows)
    ensures !RepeatsAnId(other) && !LacksAReason(other) && !HasVacuousPass(other)
    ensures HasNonPass(other) ==> HasNonPass(rows)
  {}

  lemma StillCounted(rows: seq<Row>, other: seq<Row>)
    requires KeepsOrder(rows, other)
    ensures TotalsOf(Results(rows)) == TotalsOf(Results(other)) && AssertionsOf(rows) == AssertionsOf(other)
  {
    AssertionsKept(rows, other);
    SameResults(rows, other);
  }

  lemma ScrubKeepsOrder(tag: Tag, live: seq<string>, d: Draft, s: Draft)
    requires "" !in live && s == ScrubDraft(tag, live, d) && VerdictRowsKept(d.rows, s.rows)
    ensures KeepsOrder(d.rows, s.rows)
  {
    forall k | 0 <= k < |d.rows|
      ensures s.rows[k].assertions == d.rows[k].assertions && (HasReason(d.rows[k]) ==> HasReason(s.rows[k]))
    { ScrubbedRows(tag, live, d, k); }
  }

  lemma RecordAccepted(e: Case)
    requires var d := e.bundle.draft;
      && d.bundleVersion == "3" && !RepeatsAnId(d.rows) && !LacksAReason(d.rows) && !HasVacuousPass(d.rows)
      && d.totals == TotalsOf(Results(d.rows)) && d.assertionCount == AssertionsOf(d.rows)
      && (HasNonPass(d.rows) ==> d.hasDetail) && d.build.kind != "" && d.build.id != ""
    ensures forall kind, profile | kind in RECORD :: !Due(kind, profile, e)
  {}

  lemma VerifierAccepted(e: Case)
    requires ClaimsIndependent(e.bundle) ==> VerifierAttested(e)
    ensures forall kind, profile | kind in INDEPENDENT_KINDS :: !Due(kind, profile, e)
  {}

  lemma DocumentAccepted(e: Case)
    requires var d := e.bundle.draft; d.document.Some? ==> DocumentMatches(e.crypto, d) && BearsClaims(e.registry, d)
    ensures forall kind, profile | kind in DOCUMENT_KINDS :: !Due(kind, profile, e)
  {}

  /** The run was in order, and so were the keys, and no secret occurs in what the verdict reads. */
  ghost predicate EndToEnd(
      e: Case, tag: Tag, secrets: seq<string>, d: Draft, claims: seq<Claim>, emitted: Draft,
      host: Signer, verifier: Option<Signer>)
  {
    && Emitted(e.registry, d, claims, host.keyId, emitted) && InOrder(e.crypto, e.registry, emitted)
    && SignaturesVerify(e.crypto) && SignsSomething(e.crypto) && host.keyId != ""
    && (e.hostKey.Some? ==> e.hostKey.value == e.crypto.publicOf(host.key))
    && Written(e.crypto, tag, secrets, emitted, host, verifier) == Some(e.bundle)
    && Spared(Live(secrets), emitted) && Witnessed(e, host.keyId, verifier)
  }

  lemma WrittenUndisturbed(
      e: Case, tag: Tag, secrets: seq<string>, d: Draft, claims: seq<Claim>, emitted: Draft,
      host: Signer, verifier: Option<Signer>)
    requires EndToEnd(e, tag, secrets, d, claims, emitted, host, verifier)
    ensures Undisturbed(emitted, e.bundle.draft) && e.bundle.draft == ScrubDraft(tag, Live(secrets), emitted)
  {
    WrittenIs(e.crypto, tag, secrets, emitted, host, verifier, e.bundle);
    SparedIsUndisturbed(tag, Live(secrets), emitted);
  }

  lemma WrittenRecord(
      e: Case, tag: Tag, secrets: seq<string>, d: Draft, claims: seq<Claim>, emitted: Draft,
      host: Signer, verifier: Option<Signer>)
    requires EndToEnd(e, tag, secrets, d, claims, emitted, host, verifier)
    ensures forall kind, profile | kind in RECORD :: !Due(kind, profile, e)
  {
    var s := e.bundle.draft;
    WrittenUndisturbed(e, tag, secrets, d, claims, emitted, host, verifier);
    ScrubKeepsOrder(tag, Live(secrets), emitted, s);
    StillInOrder(emitted.rows, s.rows);
    StillCounted(emitted.rows, s.rows);
    ScrubKeepsText(tag, Live(secrets), emitted.build.kind);
    ScrubKeepsText(tag, Live(secrets), emitted.build.id);
    RecordAccepted(e);
  }

  lemma WrittenDocument(
      e: Case, tag: Tag, secrets: seq<string>, d: Draft, claims: seq<Claim>, emitted: Draft,
      host: Signer, verifier: Option<Signer>)
    requires EndToEnd(e, tag, secrets, d, claims, emitted, host, verifier)
    ensures forall kind, profile | kind in DOCUMENT_KINDS :: !Due(kind, profile, e)
  {
    WrittenUndisturbed(e, tag, secrets, d, claims, emitted, host, verifier);
    assert Major(e.bundle.draft) == Major(emitted);
    assert forall id :: ClaimsCertified(e.bundle.draft, id) <==> ClaimsCertified(emitted, id);
    DocumentAccepted(e);
  }

  lemma WrittenSignatures(
      e: Case, tag: Tag, secrets: seq<string>, d: Draft, claims: seq<Claim>, emitted: Draft,
      host: Signer, verifier: Option<Signer>)
    requires EndToEnd(e, tag, secrets, d, claims, emitted, host, verifier)
    ensures forall profile :: !Due(SignatureMissing, profile, e)
    ensures forall kind, profile | kind in INDEPENDENT_KINDS :: !Due(kind, profile, e)
  {
    WrittenIs(e.crypto, tag, secrets, emitted, host, verifier, e.bundle);
    WrittenUndisturbed(e, tag, secrets, d, claims, emitted, host, verifier);
    NotMissing(e);
    VerifierAccepted(e);
  }

  lemma NotMissing(e: Case)
    requires SignaturePresent(e.bundle)
    ensures forall profile :: !Due(SignatureMissing, profile, e)
  {}

  lemma WrittenClaims(
      e: Case, tag: Tag, secrets: seq<string>, d: Draft, claims: seq<Claim>, emitted: Draft,
      host: Signer, verifier: Option<Signer>)
    requires EndToEnd(e, tag, secrets, d, claims, emitted, host, verifier)
    ensures forall kind, profile | kind in CLAIM_KINDS :: !Due(kind, profile, e)
  {
    WrittenUndisturbed(e, tag, secrets, d, claims, emitted, host, verifier);
    forall kind, profile: Option<string> | kind in CLAIM_KINDS
      ensures !Due(kind, profile, e)
    {
      ClaimKind(kind);
      EmitterAgrees(e, d, claims, host.keyId, emitted, kind, profile);
    }
  }

  lemma ClaimKind(kind: Kind)
    requires kind in CLAIM_KINDS
    ensures kind in {RelaxedProfileCertified, UndeclaredRelaxationObserved, BlockedCertified, RungNotDerivable}
  {}

  /** Nothing is due against the written bundle. */
  lemma NothingDueWhenWritten(
      e: Case, tag: Tag, secrets: seq<string>, d: Draft, claims: seq<Claim>, emitted: Draft,
      host: Signer, verifier: Option<Signer>, kind: Kind, profile: Option<string>)
    requires EndToEnd(e, tag, secrets, d, claims, emitted, host, verifier)
    ensures !Due(kind, profile, e)
  {
    WrittenRecord(e, tag, secrets, d, claims, emitted, host, verifier);
    WrittenDocument(e, tag, secrets, d, claims, emitted, host, verifier);
    WrittenSignatures(e, tag, secrets, d, claims, emitted, host, verifier);
    WrittenClaims(e, tag, secrets, d, claims, emitted, host, verifier);
    SealedVerifies(e, tag, secrets, emitted, host, verifier);
    EveryKind(kind);
  }

  lemma EveryKind(kind: Kind)
    ensures kind in RECORD + DOCUMENT_KINDS + INDEPENDENT_KINDS + CLAIM_KINDS
                    + {SignatureMissing, WitnessMismatch, SignatureInvalid, SignatureOver}
  {}

  /**
    From end to end: emit, scrub, digest, sign, have a verifier sign, verify. When the draft
    is in order and no secret occurs in what the verdict reads, the verifier certifies
    exactly the profiles the emitter found certifiable, at whatever evidence tier.
   */
  lemma SealedCertifies(
      e: Case, tag: Tag, secrets: seq<string>, d: Draft, claims: seq<Claim>, emitted: Draft,
      host: Signer, verifier: Option<Signer>, id: string)
    requires EndToEnd(e, tag, secrets, d, claims, emitted, host, verifier)
    ensures Certifies(e, id) <==> FoundCertifiable(e.registry, d, claims, id)
  {
    forall kind, profile
      ensures !Due(kind, profile, e)
    { NothingDueWhenWritten(e, tag, secrets, d, claims, emitted, host, verifier, kind, profile); }
    WrittenUndisturbed(e, tag, secrets, d, claims, emitted, host, verifier);
    assert ClaimsCertified(e.bundle.draft, id) <==> ClaimsCertified(emitted, id);
    MarkedCertified(e.registry, d, claims, host.keyId, emitted, id);
  }

  lemma MarkedCertified(registry: Registry, d: Draft, claims: seq<Claim>, keyId: string, emitted: Draft, id: string)
    requires Emitted(registry, d, claims, keyId, emitted)
    ensures ClaimsCertified(emitted, id) <==> FoundCertifiable(registry, d, claims, id)
  {
    if p :| p in claims && p.id == id && EmitProfile(registry, d, p).certified {
      var k :| 0 <= k < |claims| && claims[k] == p;
      assert emitted.claimedProfiles[k] == EmitProfile(registry, d, p);
    }
  }
}
