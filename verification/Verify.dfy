/**
  `verifyBundleV3`, phase by phase. Each phase reports exactly the rejections that are
  due; the verdict certifies exactly the claimed profiles that no due rejection touches.
 */
module Verify {
  import opened Wrappers
  import opened Json
  import opened Durability
  import opened Bundle
  import opened Tally

  datatype Verdict = Verdict(
    rejections: seq<Rejection>, signatureVerified: bool, verifierSignatureVerified: bool,
    certifiedProfiles: seq<string>, derivabilityChecked: bool, optedOut: seq<string>)

  /** Of the kinds in `kinds`, `rs` holds the rejections that are due, and it holds no others. */
  ghost predicate Reports(rs: seq<Rejection>, kinds: set<Kind>, e: Case) {
    forall kind, profile :: Rejection(kind, profile) in rs <==> kind in kinds && Due(kind, profile, e)
  }

  /** One bundle-wide check. */
  function Check(kind: Kind, due: bool): seq<Rejection> {
    if due then [Rejection(kind, None)] else []
  }

  ghost predicate ReportsRows(rs: seq<Rejection>, rows: seq<Row>) {
    && (forall r | r in rs :: r.profile.None? && r.kind in {DuplicateRequirement, ReasonMissing, VacuousPass})
    && (Rejection(DuplicateRequirement, None) in rs <==> RepeatsAnId(rows))
    && (Rejection(ReasonMissing, None) in rs <==> LacksAReason(rows))
    && (Rejection(VacuousPass, None) in rs <==> HasVacuousPass(rows))
  }

  function Ids(rows: seq<Row>): set<string> {
    set k | 0 <= k < |rows| :: rows[k].id
  }

  lemma OneMoreRow(rows: seq<Row>, i: nat)
    requires i < |rows|
    ensures RepeatsAnId(rows[..i + 1]) <==> RepeatsAnId(rows[..i]) || rows[i].id in Ids(rows[..i])
    ensures LacksAReason(rows[..i + 1]) <==> LacksAReason(rows[..i]) || (!Pass(rows[i]) && !HasReason(rows[i]))
    ensures HasVacuousPass(rows[..i + 1]) <==> HasVacuousPass(rows[..i]) || (Pass(rows[i]) && !HasAssertions(rows[i]))
    ensures Ids(rows[..i + 1]) == Ids(rows[..i]) + {rows[i].id}
  {
    var before, after := rows[..i], rows[..i + 1];
    assert forall k | 0 <= k < i :: after[k] == before[k];
    assert after[i] == rows[i];
  }

  /** The row loop: repeated ids, non-passes without a reason, passes without an assertion. */
  method CheckRows(rows: seq<Row>) returns (rs: seq<Rejection>)
    ensures ReportsRows(rs, rows)
  {
    rs := [];
    var seen: set<string> := {};
    for i := 0 to |rows|
      invariant seen == Ids(rows[..i]) && ReportsRows(rs, rows[..i])
    {
      var r := rows[i];
      OneMoreRow(rows, i);
      rs := rs + Check(DuplicateRequirement, r.id in seen) + Check(ReasonMissing, !Pass(r) && !HasReason(r))
               + Check(VacuousPass, Pass(r) && !HasAssertions(r));
      seen := seen + {r.id};
    }
    assert rows[..|rows|] == rows;
  }

  const RECORD_KINDS: set<Kind> := {NotV3, DuplicateRequirement, ReasonMissing, VacuousPass}

  method CheckRecord(e: Case) returns (rs: seq<Rejection>)
    ensures Reports(rs, RECORD_KINDS, e)
  {
    var rowIssues := CheckRows(e.bundle.draft.rows);
    rs := Check(NotV3, e.bundle.draft.bundleVersion != "3") + rowIssues;
  }

  /** The kinds that name a profile. */
  const PROFILE_KINDS: set<Kind> := {UndeclaredRelaxationObserved, RelaxedProfileCertified, ProfileNotDerivable}

  lemma BundleWideKind(kind: Kind, profile: Option<string>, e: Case)
    requires kind !in PROFILE_KINDS && Due(kind, profile, e)
    ensures profile.None?
  {}

  lemma CheckReports(e: Case, kind: Kind, due: bool)
    requires kind !in PROFILE_KINDS && (due <==> Due(kind, None, e))
    ensures Reports(Check(kind, due), {kind}, e)
  {
    forall profile: Option<string> | Due(kind, profile, e) { BundleWideKind(kind, profile, e); }
  }

  lemma ReportsJoin(e: Case, a: seq<Rejection>, kinds: set<Kind>, b: seq<Rejection>, more: set<Kind>)
    requires Reports(a, kinds, e) && Reports(b, more, e)
    ensures Reports(a + b, kinds + more, e)
  {}

  const COUNT_KINDS: set<Kind> := {TotalsMismatch} + {WitnessMismatch} + {AssertionCount}

  method CheckTotals(e: Case) returns (rs: seq<Rejection>)
    ensures Reports(rs, {TotalsMismatch}, e)
  {
    var totals := CountTotals(Results(e.bundle.draft.rows));
    CheckReports(e, TotalsMismatch, e.bundle.draft.totals != totals);
    rs := Check(TotalsMismatch, e.bundle.draft.totals != totals);
  }

  method CheckDigest(e: Case) returns (rs: seq<Rejection>)
    ensures Reports(rs, {WitnessMismatch}, e)
  {
    var differs := DigestOf(e.crypto, e.bundle.draft) != Some(e.bundle.witnessSha256);
    CheckReports(e, WitnessMismatch, differs);
    rs := Check(WitnessMismatch, differs);
  }

  method CheckAssertions(e: Case) returns (rs: seq<Rejection>)
    ensures Reports(rs, {AssertionCount}, e)
  {
    var assertions := SumAssertions(e.bundle.draft.rows);
    CheckReports(e, AssertionCount, e.bundle.draft.assertionCount != assertions);
    rs := Check(AssertionCount, e.bundle.draft.assertionCount != assertions);
  }

  method CheckCounts(e: Case) returns (rs: seq<Rejection>)
    ensures Reports(rs, COUNT_KINDS, e)
  {
    var totals := CheckTotals(e);
    var digest := CheckDigest(e);
    var assertions := CheckAssertions(e);
    ReportsJoin(e, totals, {TotalsMismatch}, digest, {WitnessMismatch});
    ReportsJoin(e, totals + digest, {TotalsMismatch} + {WitnessMismatch}, assertions, {AssertionCount});
    rs := totals + digest + assertions;
  }

  const BLOCK_KINDS: set<Kind> := {DetailMissing, BuildMissing}

  method CheckBlocks(e: Case) returns (rs: seq<Rejection>)
    ensures Reports(rs, BLOCK_KINDS, e)
  {
    var d := e.bundle.draft;
    var detail, build := HasNonPass(d.rows) && !d.hasDetail, d.build.kind == "" || d.build.id == "";
    CheckReports(e, DetailMissing, detail);
    CheckReports(e, BuildMissing, build);
    ReportsJoin(e, Check(DetailMissing, detail), {DetailMissing}, Check(BuildMissing, build), {BuildMissing});
    assert BLOCK_KINDS == {DetailMissing} + {BuildMissing};
    rs := Check(DetailMissing, detail) + Check(BuildMissing, build);
  }

  const SUMMARY_KINDS := COUNT_KINDS + BLOCK_KINDS

  method CheckSummary(e: Case) returns (rs: seq<Rejection>)
    ensures Reports(rs, SUMMARY_KINDS, e)
  {
    var counts := CheckCounts(e);
    var blocks := CheckBlocks(e);
    ReportsJoin(e, counts, COUNT_KINDS, blocks, BLOCK_KINDS);
    rs := counts + blocks;
  }

  const SIGNATURE_KINDS: set<Kind> := {SignatureMissing, SignatureOver, SignatureInvalid}

  method CheckSignature(e: Case) returns (rs: seq<Rejection>, verified: bool)
    ensures Reports(rs, SIGNATURE_KINDS, e)
    ensures verified <==> SignatureShaped(e.bundle) && e.hostKey.Some?
                          && Attested(e.crypto, e.bundle, e.hostKey.value, e.bundle.signature.value.sig)
  {
    var b := e.bundle;
    rs, verified := [], false;
    if !SignaturePresent(b) {
      rs := [Rejection(SignatureMissing, None)];
    } else if b.signature.value.over != SIGNATURE_OVER {
      rs := [Rejection(SignatureOver, None)];
    } else if e.hostKey.Some? {
      verified := Attested(e.crypto, b, e.hostKey.value, b.signature.value.sig);
      rs := Check(SignatureInvalid, !verified);
    }
  }

  const INDEPENDENT_KINDS: set<Kind> :=
    {IndependentUnsigned, IndependentSelfSigned, VerifierSignatureInvalid, IndependentUnverifiable}

  /** An independent claim, signed by a verifier with a key of its own, under the key given. */
  predicate VerifierAttested(e: Case) {
    var b := e.bundle;
    && ClaimsIndependent(b) && VerifierSigned(b) && VerifierDistinct(b) && e.verifierKey.Some?
    && Attested(e.crypto, b, e.verifierKey.value, b.verifierSignature.value.sig)
  }

  method CheckIndependent(e: Case) returns (rs: seq<Rejection>, verified: bool)
    ensures Reports(rs, INDEPENDENT_KINDS, e)
    ensures verified <==> VerifierAttested(e)
  {
    var b := e.bundle;
    rs, verified := [], false;
    if ClaimsIndependent(b) {
      if !VerifierSigned(b) {
        rs := [Rejection(IndependentUnsigned, None)];
      } else if !VerifierDistinct(b) {
        rs := [Rejection(IndependentSelfSigned, None)];
      } else if e.verifierKey.Some? {
        verified := Attested(e.crypto, b, e.verifierKey.value, b.verifierSignature.value.sig);
        rs := Check(VerifierSignatureInvalid, !verified);
      } else {
        rs := [Rejection(IndependentUnverifiable, None)];
      }
    }
  }

  const CLAIM_KINDS: set<Kind> :=
    {RungNotDerivable} + {UndeclaredRelaxationObserved} + {RelaxedProfileCertified} + {BlockedCertified}

  /** The profiles marked certified and not relaxed by a declaration, with the rejections of the others. */
  method CheckClaims(e: Case) returns (rs: seq<Rejection>, certified: seq<string>)
    ensures Reports(rs, CLAIM_KINDS, e)
    ensures forall id :: id in certified <==>
              ClaimsCertified(e.bundle.draft, id) && !DeclaredRelaxed(e.registry, e.bundle.draft, id)
  {
    var d := e.bundle.draft;
    var rungOk := CheckRungClaim(d.rung, d.rows);
    CheckReports(e, RungNotDerivable, !rungOk);
    var undeclared := CheckObserved(e);
    var relaxed;
    relaxed, certified := SplitRelaxed(e);
    var blocked := CountResult(Results(d.rows), "blocked");
    var denied := blocked > 0 && |certified| > 0;
    DeniedWhenBlocked(e, certified);
    CheckReports(e, BlockedCertified, denied);
    var rung := Check(RungNotDerivable, !rungOk);
    ReportsJoin(e, rung, {RungNotDerivable}, undeclared, {UndeclaredRelaxationObserved});
    ReportsJoin(e, rung + undeclared, {RungNotDerivable} + {UndeclaredRelaxationObserved},
                relaxed, {RelaxedProfileCertified});
    ReportsJoin(e, rung + undeclared + relaxed,
                {RungNotDerivable} + {UndeclaredRelaxationObserved} + {RelaxedProfileCertified},
                Check(BlockedCertified, denied), {BlockedCertified});
    rs := rung + undeclared + relaxed + Check(BlockedCertified, denied);
  }

  lemma DeniedWhenBlocked(e: Case, certified: seq<string>)
    requires forall id :: id in certified <==>
               ClaimsCertified(e.bundle.draft, id) && !DeclaredRelaxed(e.registry, e.bundle.draft, id)
    ensures Due(BlockedCertified, None, e) <==>
              |Holding(Results(e.bundle.draft.rows), "blocked")| > 0 && |certified| > 0
  {
    if |certified| > 0 { assert certified[0] in certified; }
    EmptyOrNot(Holding(Results(e.bundle.draft.rows), "blocked"));
  }

  lemma EmptyOrNot<T>(s: set<T>)
    ensures |s| > 0 <==> s != {}
  {}

  method CheckObserved(e: Case) returns (rs: seq<Rejection>)
    ensures Reports(rs, {UndeclaredRelaxationObserved}, e)
  {
    var d := e.bundle.draft;
    var ps := d.claimedProfiles;
    rs := [];
    for k := 0 to |ps|
      invariant forall r | r in rs :: r.kind == UndeclaredRelaxationObserved && Due(r.kind, r.profile, e)
      invariant forall l | 0 <= l < k && ps[l].certified && Due(UndeclaredRelaxationObserved, Some(ps[l].id), e) ::
                  Rejection(UndeclaredRelaxationObserved, Some(ps[l].id)) in rs
    {
      if ps[k].certified && ObservedRelaxed(e.registry, d.rows, ps[k].id) && !DeclaredRelaxed(e.registry, d, ps[k].id) {
        rs := rs + [Rejection(UndeclaredRelaxationObserved, Some(ps[k].id))];
      }
    }
  }

  method SplitRelaxed(e: Case) returns (rs: seq<Rejection>, certified: seq<string>)
    ensures Reports(rs, {RelaxedProfileCertified}, e)
    ensures forall id :: id in certified <==>
              ClaimsCertified(e.bundle.draft, id) && !DeclaredRelaxed(e.registry, e.bundle.draft, id)
  {
    var d := e.bundle.draft;
    var ps := d.claimedProfiles;
    rs, certified := [], [];
    for k := 0 to |ps|
      invariant forall r | r in rs :: r.kind == RelaxedProfileCertified && Due(r.kind, r.profile, e)
      invariant forall id | id in certified :: ClaimsCertified(d, id) && !DeclaredRelaxed(e.registry, d, id)
      invariant forall l | 0 <= l < k && ps[l].certified ::
                  if DeclaredRelaxed(e.registry, d, ps[l].id)
                  then Rejection(RelaxedProfileCertified, Some(ps[l].id)) in rs
                  else ps[l].id in certified
    {
      if ps[k].certified && DeclaredRelaxed(e.registry, d, ps[k].id) {
        rs := rs + [Rejection(RelaxedProfileCertified, Some(ps[k].id))];
      } else if ps[k].certified {
        certified := certified + [ps[k].id];
      }
    }
  }

  const DOCUMENT_KINDS: set<Kind> := {DiscoveryMismatch, OptedOutButAdvertised, ProfileNotDerivable}

  lemma UncheckedDocument(e: Case)
    requires !DerivabilityChecked(e) && !Due(DiscoveryMismatch, None, e)
    ensures Reports([], DOCUMENT_KINDS, e)
  {
    forall kind, profile: Option<string> | kind in DOCUMENT_KINDS
      ensures !Due(kind, profile, e)
    {}
  }

  lemma MismatchedDocument(e: Case)
    requires Due(DiscoveryMismatch, None, e)
    ensures Reports([Rejection(DiscoveryMismatch, None)], DOCUMENT_KINDS, e)
  {}

  lemma CheckedDocument(e: Case, optedOut: seq<Rejection>, underivable: seq<Rejection>)
    requires DerivabilityChecked(e)
    requires Reports(optedOut, {OptedOutButAdvertised}, e) && Reports(underivable, {ProfileNotDerivable}, e)
    ensures Reports(optedOut + underivable, DOCUMENT_KINDS, e)
  {
    forall profile: Option<string>
      ensures !Due(DiscoveryMismatch, profile, e)
    {}
    ReportsJoin(e, optedOut, {OptedOutButAdvertised}, underivable, {ProfileNotDerivable});
  }

  /** The discovery document, when there is one: first its digest, then what it derives. */
  method CheckDocument(e: Case, optedOut: seq<string>) returns (rs: seq<Rejection>, checked: bool)
    requires forall name :: name in optedOut <==> OptedOut(e.bundle.draft.rows, name)
    ensures Reports(rs, DOCUMENT_KINDS, e)
    ensures checked <==> DerivabilityChecked(e)
  {
    var d := e.bundle.draft;
    if d.document.None? || (DocumentMatches(e.crypto, d) && Major(d) == 2 && !e.registry.v2Available) {
      UncheckedDocument(e);
      return [], false;
    }
    if !DocumentMatches(e.crypto, d) {
      MismatchedDocument(e);
      return [Rejection(DiscoveryMismatch, None)], false;
    }
    checked := true;
    var contradicted := CheckOptedOut(e, optedOut);
    var underivable := CheckDerivable(e);
    CheckedDocument(e, contradicted, underivable);
    rs := contradicted + underivable;
  }

  method CheckOptedOut(e: Case, optedOut: seq<string>) returns (rs: seq<Rejection>)
    requires DerivabilityChecked(e) && forall name :: name in optedOut <==> OptedOut(e.bundle.draft.rows, name)
    ensures Reports(rs, {OptedOutButAdvertised}, e)
  {
    var d := e.bundle.draft;
    var contradicted := exists name | name in optedOut :: Advertises(e.registry, d.document.value, name, Major(d));
    CheckReports(e, OptedOutButAdvertised, contradicted);
    rs := Check(OptedOutButAdvertised, contradicted);
  }

  method CheckDerivable(e: Case) returns (rs: seq<Rejection>)
    requires DerivabilityChecked(e)
    ensures Reports(rs, {ProfileNotDerivable}, e)
  {
    var d := e.bundle.draft;
    var ps := d.claimedProfiles;
    rs := [];
    for k := 0 to |ps|
      invariant forall r | r in rs :: r.kind == ProfileNotDerivable && Due(r.kind, r.profile, e)
      invariant forall l | 0 <= l < k && ps[l].certified
                           && !e.registry.derivable(d.document.value, ps[l].id, Major(d)) ::
                  Rejection(ProfileNotDerivable, Some(ps[l].id)) in rs
    {
      if ps[k].certified && !e.registry.derivable(d.document.value, ps[k].id, Major(d)) {
        rs := rs + [Rejection(ProfileNotDerivable, Some(ps[k].id))];
      }
    }
  }

  // ---------------------------------------------------------------- the verdict

  /** A rejection that names no profile, or names the empty one, is about the bundle. */
  ghost predicate RejectsBundle(e: Case) {
    exists kind, profile :: (profile == None || profile == Some("")) && Due(kind, profile, e)
  }

  ghost predicate RejectsProfile(e: Case, id: string) {
    exists kind :: Due(kind, Some(id), e)
  }

  /** The claim stands: nothing is due against the bundle, nor against this profile. */
  ghost predicate Certifies(e: Case, id: string) {
    ClaimsCertified(e.bundle.draft, id) && !RejectsBundle(e) && !RejectsProfile(e, id)
  }

  method VerifyBundleV3(e: Case) returns (v: Verdict)
    ensures forall kind, profile :: Rejection(kind, profile) in v.rejections <==> Due(kind, profile, e)
    ensures forall id :: id in v.certifiedProfiles <==> Certifies(e, id)
    ensures v.signatureVerified <==> SignatureShaped(e.bundle) && e.hostKey.Some?
                                     && Attested(e.crypto, e.bundle, e.hostKey.value, e.bundle.signature.value.sig)
    ensures v.verifierSignatureVerified <==> VerifierAttested(e)
    ensures v.derivabilityChecked <==> DerivabilityChecked(e)
    ensures SortedNames(v.optedOut) && forall name :: name in v.optedOut <==> OptedOut(e.bundle.draft.rows, name)
  {
    var optedOut := OptedOutFromRows(e.bundle.draft.rows);
    var record := CheckRecord(e);
    var summary := CheckSummary(e);
    var signature, signatureVerified := CheckSignature(e);
    var independent, verifierVerified := CheckIndependent(e);
    var claims, certified := CheckClaims(e);
    var document, checked := CheckDocument(e, optedOut);
    var rejections := record + summary + signature + independent + claims + document;
    AllReports(e, record, summary, signature, independent, claims, document);
    var kept := KeepUnrejected(certified, rejections);
    forall id
      ensures id in kept <==> Certifies(e, id)
    { KeptCertifies(e, rejections, certified, kept, id); }
    v := Verdict(rejections, signatureVerified, verifierVerified, kept, checked, optedOut);
  }

  lemma AllReports(
      e: Case, record: seq<Rejection>, summary: seq<Rejection>, signature: seq<Rejection>,
      independent: seq<Rejection>, claims: seq<Rejection>, document: seq<Rejection>)
    requires Reports(record, RECORD_KINDS, e) && Reports(summary, SUMMARY_KINDS, e)
    requires Reports(signature, SIGNATURE_KINDS, e) && Reports(independent, INDEPENDENT_KINDS, e)
    requires Reports(claims, CLAIM_KINDS, e) && Reports(document, DOCUMENT_KINDS, e)
    ensures forall kind, profile ::
              Rejection(kind, profile) in record + summary + signature + independent + claims + document
              <==> Due(kind, profile, e)
  {}

  predicate BundleWide(r: Rejection) {
    r.profile.None? || r.profile.value == ""
  }

  method KeepUnrejected(certified: seq<string>, rejections: seq<Rejection>) returns (kept: seq<string>)
    ensures forall id :: id in kept <==>
              id in certified && (forall r | r in rejections :: !BundleWide(r) && r.profile != Some(id))
  {
    if exists r | r in rejections :: BundleWide(r) { return []; }
    kept := [];
    for k := 0 to |certified|
      invariant forall id :: id in kept <==> id in certified[..k] && forall r | r in rejections :: r.profile != Some(id)
    {
      assert certified[..k + 1] == certified[..k] + [certified[k]];
      if forall r | r in rejections :: r.profile != Some(certified[k]) { kept := kept + [certified[k]]; }
    }
    assert certified[..|certified|] == certified;
  }

  lemma KeptCertifies(e: Case, rejections: seq<Rejection>, certified: seq<string>, kept: seq<string>, id: string)
    requires forall kind, profile :: Rejection(kind, profile) in rejections <==> Due(kind, profile, e)
    requires forall x :: x in certified <==>
               ClaimsCertified(e.bundle.draft, x) && !DeclaredRelaxed(e.registry, e.bundle.draft, x)
    requires forall x :: x in kept <==>
               x in certified && (forall r | r in rejections :: !BundleWide(r) && r.profile != Some(x))
    ensures id in kept <==> Certifies(e, id)
  {
    if id in kept {
      forall kind, profile | profile == None || profile == Some("") || profile == Some(id)
        ensures !Due(kind, profile, e)
      { assert Rejection(kind, profile) in rejections <==> Due(kind, profile, e); }
    }
    if Certifies(e, id) {
      forall r | r in rejections
        ensures !BundleWide(r) && r.profile != Some(id)
      { assert Due(r.kind, r.profile, e); }
      assert !Due(RelaxedProfileCertified, Some(id), e);
    }
  }

  // ---------------------------------------------------------------- what a certified profile rests on

  lemma NothingDue(e: Case, id: string, kind: Kind)
    requires Certifies(e, id)
    ensures !Due(kind, None, e) && !Due(kind, Some(id), e)
  {}

  /** A certified profile rests on a record that is consistent, reasoned and without a blocked row ... */
  lemma CertifiedRecord(e: Case, id: string)
    requires Certifies(e, id)
    ensures var d := e.bundle.draft;
      && d.bundleVersion == "3"
      && (forall i, k | 0 <= i < k < |d.rows| :: d.rows[i].id != d.rows[k].id)
      && (forall k | 0 <= k < |d.rows| :: if Pass(d.rows[k]) then HasAssertions(d.rows[k]) else HasReason(d.rows[k]))
      && d.totals.executedPass == |Holding(Results(d.rows), "executed-pass")|
      && d.totals.executedFail == |Holding(Results(d.rows), "executed-fail")|
      && d.totals.skipped == |Holding(Results(d.rows), "skipped")|
      && d.totals.inapplicable == |Holding(Results(d.rows), "inapplicable")|
      && d.totals.blocked == 0 && Holding(Results(d.rows), "blocked") == {}
      && d.assertionCount == AssertionsOf(d.rows)
  {
    CertifiedRows(e, id);
    CertifiedCounts(e, id);
  }

  lemma CertifiedCounts(e: Case, id: string)
    requires Certifies(e, id)
    ensures var d := e.bundle.draft;
            d.totals == TotalsOf(Results(d.rows)) && d.assertionCount == AssertionsOf(d.rows)
            && Holding(Results(d.rows), "blocked") == {}
  {
    NothingDue(e, id, TotalsMismatch);
    NothingDue(e, id, AssertionCount);
    CertifiedUnblocked(e, id);
  }

  lemma CertifiedUnblocked(e: Case, id: string)
    requires Certifies(e, id)
    ensures Holding(Results(e.bundle.draft.rows), "blocked") == {}
  {
    NothingDue(e, id, RelaxedProfileCertified);
    NothingDue(e, id, BlockedCertified);
  }

  lemma CertifiedRows(e: Case, id: string)
    requires Certifies(e, id)
    ensures var d := e.bundle.draft;
            d.bundleVersion == "3" && !RepeatsAnId(d.rows) && !LacksAReason(d.rows) && !HasVacuousPass(d.rows)
  {
    NothingDue(e, id, NotV3);
    NothingDue(e, id, DuplicateRequirement);
    NothingDue(e, id, ReasonMissing);
    NothingDue(e, id, VacuousPass);
  }

  /** ... on a matching digest and on every signature the claim needs ... */
  lemma CertifiedSignatures(e: Case, id: string)
    requires Certifies(e, id)
    ensures DigestOf(e.crypto, e.bundle.draft) == Some(e.bundle.witnessSha256)
    ensures SignatureShaped(e.bundle)
    ensures e.hostKey.Some? ==> Attested(e.crypto, e.bundle, e.hostKey.value, e.bundle.signature.value.sig)
    ensures ClaimsIndependent(e.bundle) ==>
              && VerifierSigned(e.bundle) && VerifierDistinct(e.bundle) && e.verifierKey.Some?
              && Attested(e.crypto, e.bundle, e.verifierKey.value, e.bundle.verifierSignature.value.sig)
  {
    CertifiedByHost(e, id);
    if ClaimsIndependent(e.bundle) { CertifiedByVerifier(e, id); }
  }

  lemma CertifiedByHost(e: Case, id: string)
    requires Certifies(e, id)
    ensures DigestOf(e.crypto, e.bundle.draft) == Some(e.bundle.witnessSha256) && SignatureShaped(e.bundle)
    ensures e.hostKey.Some? ==> Attested(e.crypto, e.bundle, e.hostKey.value, e.bundle.signature.value.sig)
  {
    NothingDue(e, id, WitnessMismatch);
    NothingDue(e, id, SignatureMissing);
    NothingDue(e, id, SignatureOver);
    NothingDue(e, id, SignatureInvalid);
  }

  lemma CertifiedByVerifier(e: Case, id: string)
    requires Certifies(e, id) && ClaimsIndependent(e.bundle)
    ensures VerifierSigned(e.bundle) && VerifierDistinct(e.bundle) && e.verifierKey.Some?
    ensures Attested(e.crypto, e.bundle, e.verifierKey.value, e.bundle.verifierSignature.value.sig)
  {
    NothingDue(e, id, IndependentUnsigned);
    NothingDue(e, id, IndependentSelfSigned);
    NothingDue(e, id, VerifierSignatureInvalid);
    NothingDue(e, id, IndependentUnverifiable);
  }

  /**
    ... on no relaxation, declared or observed, on a matching discovery document that derives
    the profile, and on evidence for any rung.
   */
  lemma CertifiedClaim(e: Case, id: string)
    requires Certifies(e, id)
    ensures var d := e.bundle.draft;
      && !DeclaredRelaxed(e.registry, d, id) && !ObservedRelaxed(e.registry, d.rows, id)
      && (d.document.Some? ==> DocumentMatches(e.crypto, d))
      && (DerivabilityChecked(e) ==> e.registry.derivable(d.document.value, id, Major(d)))
      && (DerivabilityChecked(e) ==>
            forall name | OptedOut(d.rows, name) :: !Advertises(e.registry, d.document.value, name, Major(d)))
      && (d.rung.Some? ==> d.rung.value == Str(SINGLE_INSTANCE) && SupportsSingleInstance(d.rows))
  {
    NothingDue(e, id, RelaxedProfileCertified);
    NothingDue(e, id, UndeclaredRelaxationObserved);
    NothingDue(e, id, RungNotDerivable);
    CertifiedDocument(e, id);
  }

  lemma CertifiedDocument(e: Case, id: string)
    requires Certifies(e, id)
    ensures var d := e.bundle.draft;
      && (d.document.Some? ==> DocumentMatches(e.crypto, d))
      && (DerivabilityChecked(e) ==> e.registry.derivable(d.document.value, id, Major(d)))
      && (DerivabilityChecked(e) ==>
            forall name | OptedOut(d.rows, name) :: !Advertises(e.registry, d.document.value, name, Major(d)))
  {
    NothingDue(e, id, DiscoveryMismatch);
    NothingDue(e, id, OptedOutButAdvertised);
    NothingDue(e, id, ProfileNotDerivable);
  }
}
