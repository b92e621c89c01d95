# Verified models of the conformance oracles

The repository is a specification with a black-box conformance suite. This project models
the algorithms by which the suite decides what a run has shown, and proves what they decide.
`dafny verify dfyconfig.toml` checks it.

| module | models |
|---|---|
| `Matching`, `Trajectory`, `JsonMatch`, `PassRates` | the trajectory grader: maximum matching by augmenting paths on its arrays, greedy order, JSON comparison, pass@k and pass^k |
| `Merkle` | the audit checkpoint root, its tree, and what the root binds |
| `Scrub`, `Digest`, `Durability`, `Tally`, `Bundle`, `Verify`, `Seal` | the certification bundle, version 3: scrub, digest, sign, verify, and the emitter |
| `VerifyV2` | the verifier of version 2 bundles |
| `Watch` | the durability watch, interleaved with a host that keeps moving |
| `SweepLine` | the largest number of windows in flight |
| `Window` | the transcript-window checker |
| `Memory`, `Trials` | the trial-isolation oracle, over every interleaving of trials and every order of the log |
| `AgentUsage` | attribution of usage events to an agent by invocation brackets |
| `Utf`, `BoundId` | the bound-id path projection, down to UTF-8 |
| `Prune` | dropping unused components from an OpenAPI document |
| `Jcs`, `Reader`, `CodeUnits` | canonical JSON: the serializer, the strict reader and its cursor, the order by UTF-16 code units |
| `Json`, `Wrappers`, `Seqs` | JSON values, options and results, sequences and finite sets |

Loops of the source are methods with loops; arrays it updates in place are arrays, objects it
mutates are classes. Each method is proved against a specification function or predicate, and
the lemmas beside it say what that amounts to in terms of the inputs alone.

## What is assumed

Nothing about a hash but its output format: where the source relies on collision resistance
the lemmas say "equal, or here are two texts with one hash". Ed25519 is a signing function
whose signatures are not empty and verify under the signer's public key. Canonical JSON gives values of
different meaning different texts (`Digest.IsCanonical`); the source's own form does, given
only that a double's decimal text is read back as that double
(`Jcs.CanonicalIsCanonical`). The host of the watch has an append-only
log and the `resumed` predicate survives more events. A sleep advances the clock.

## Where the code does less than it says

Each of these is a lemma with the exact condition or with the input that shows it.

- `jsonEqual` is documented as deep equality. It asks `k in b`, which sees
  `Object.prototype`: an expected `"__proto__": {}` matches an actual value without it
  (`JsonMatch.EqualExactly`, `JsonMatch.SubsetExactly`).
- `scrubEvidence` drops a member named `__proto__`, and then reports nothing in `redactedAt`
  (`Scrub.RedactedAtIsExact`).
- Scrubbing can leave a secret behind. When no secret has one of the marker's delimiters, one
  survives in some text exactly when a marker holds it as the later replacements leave that
  marker (`Scrub.SecretGoesExactly`). One that ends in the first delimiter or starts with the
  last is put together by its own marker where no other secret occurs in the text
  (`Scrub.OpeningLeaks`, `Scrub.ClosingLeaks`).
- `unprojectBoundId` loses a leading byte-order mark, and `projectBoundId` maps a lone
  surrogate to U+FFFD (`BoundId.BoundIdRoundTrip`).
- The window checker compares id lists joined by NUL, so a window whose entries are not its
  event ids can pass (`Window.JoinComparesParts`, `Window.NulIdPasses`, `Window.EmptyIdPasses`).
- `agentUsage` counts an invocation that is started twice and completed once as open for ever
  (`AgentUsage.CountersLeak`).
- The isolation oracle does not tell a first read from a second
  (`Trials.IsolationIsRightUnlessForgotten`).
- `prune_unused` is commented as deleting what is mentioned nowhere but in its own definition;
  the code keeps what mentions itself, deletes what is mentioned only by a longer pointer, and
  does not always reach a fixed point over all groups (`Prune.SelfReferenceSurvives`,
  `Prune.NoReferenceBreaksExactly`, `Prune.OneRunIsEnoughExactly`).
- `parseIJson` refuses some of what `canonicalJSON` writes: large doubles, as integers
  (`Jcs.CanonicalReadsBack`, `Jcs.LargeIntegersAreRefused`).

## Model

| member | source | states |
|---|---|---|
| `Matching.MaxMatching` | conformance/src/lib/eval-trajectory.ts:57-71 | the number returned is the size of a maximum one-to-one matching: a matching of that size exists and no matching of the relation is larger |
| `Matching.Augment` | conformance/src/lib/eval-trajectory.ts:60-67 | one recursive search on the two arrays: failure changes no owner and leaves a closed set of reached observed calls; success gives the call an observed call, takes none from any other expected call, and leaves every earlier closed set alone; recursion ends because each call marks a new `seen` entry |
| `Matching.Search` | conformance/src/lib/eval-trajectory.ts:69 | one round of the counting loop keeps the invariant: a valid matching of `n` pairs, and a closed set holding all that the failed calls may match |
| `Matching.HallBound` | conformance/src/lib/eval-trajectory.ts:57-71 | if the expected calls of a set match only observed calls of another, no matching covers more than the rest plus that other set |
| `Matching.ClosedSetBounds` | conformance/src/lib/eval-trajectory.ts:57-71 | with a closed set on hand for the failures, no matching at all is larger than the expected calls less the failures |
| `JsonMatch.EqualExactly` | conformance/src/lib/eval-trajectory.ts:34-42 | `jsonEqual` is deep equality without member order for every actual value if and only if the expected value has no `__proto__` member that is `{}` |
| `JsonMatch.EqualConfuses` | conformance/src/lib/eval-trajectory.ts:34-42 | for any other expected value a different actual value passes as equal |
| `JsonMatch.SubsetExactly` | conformance/src/lib/eval-trajectory.ts:45-48 | `jsonSubset` is key-path inclusion for every actual value if and only if the expected value has no `__proto__` member that an absent one passes for |
| `JsonMatch.SubsetConfuses` | conformance/src/lib/eval-trajectory.ts:45-48 | for any other expected value an actual value passes that lacks a member |
| `JsonMatch.EqualImpliesSubset` | conformance/src/lib/eval-trajectory.ts:34-48 | equal arguments are subset arguments, for all values, those with a `__proto__` member included |
| `JsonMatch.IncludedReflexive` | conformance/src/lib/eval-trajectory.ts:44-48 | every value is included in itself |
| `JsonMatch.IncludedTransitive` | conformance/src/lib/eval-trajectory.ts:44-48 | key-path inclusion is transitive |
| `JsonMatch.IncludedAntisymmetric` | conformance/src/lib/eval-trajectory.ts:44-48 | values included in each other are equal |
| `Trajectory.InOrder` | conformance/src/lib/eval-trajectory.ts:73-81 | the greedy scan succeeds exactly when the expected calls embed into the observed ones at strictly increasing places |
| `Trajectory.GradeTrajectory` | conformance/src/lib/eval-trajectory.ts:83-95 | the grade: `matchedCount` is a maximum matching, `forbiddenCount` counts the forbidden calls, `matched` holds exactly when the mode's own definition holds and nothing forbidden was called |
| `Trajectory.FullMatchingIsAssignment` | conformance/src/lib/eval-trajectory.ts:83-95 | a maximum matching covers all expected calls exactly when each can be assigned an observed call of its own, which is what any-order means |
| `Trajectory.ModesAreOrdered` | conformance/src/lib/eval-trajectory.ts:83-95 | exact implies in-order implies any-order, and exact implies subset |
| `Trajectory.MatchedCountIgnoresOrder` | conformance/src/lib/eval-trajectory.ts:57-71 | `matchedCount` does not depend on the order of the observed calls |
| `Trajectory.LooseningNeverLowers` | conformance/src/lib/eval-trajectory.ts:50-71 | loosening `argsMatch` from exact to subset to ignore, for any of the expected calls, never lowers `matchedCount` |
| `PassRates.BinomRatio` | conformance/src/lib/eval-trajectory.ts:97-108 | refuses exactly `k` outside 0..b; otherwise the value is C(a,k)/C(b,k) cut off by at most a 2^-63 part of it |
| `PassRates.RatioToNumber` | conformance/src/lib/eval-trajectory.ts:110-120 | the shifted quotient, rescaled in steps of 1000 bits, is num/den cut off by at most a 2^-63 part of it, and exact when they are equal: rescaling loses nothing |
| `PassRates.QuotientTruncates` | conformance/src/lib/eval-trajectory.ts:113-114 | the quotient of the shifted numbers lies in [2^63, 2^65), which bounds what is cut off |
| `PassRates.FallingIsChoose` | conformance/src/lib/eval-trajectory.ts:105-106 | the telescoped products are the binomial coefficients times k!, so their ratio is that of the coefficients |
| `PassRates.PassAtK` | conformance/src/lib/eval-trajectory.ts:122-126 | 1 - C(n-c,k)/C(n,k) to that precision, 0 when nothing passed, and when it throws |
| `PassRates.PassHatK` | conformance/src/lib/eval-trajectory.ts:128-132 | C(c,k)/C(n,k) to that precision, 0 when fewer than k passed, and when it throws |
| `PassRates.RatesCountSamples` | conformance/src/lib/eval-trajectory.ts:122-132 | what the formulas count: the samples of k trials, those that all pass and those where none does |
| `PassRates.HatBelowAt` | conformance/src/lib/eval-trajectory.ts:122-132 | pass^k is at most pass@k for 1 <= k <= n, as computed |
| `PassRates.RatioDecreases` | conformance/src/lib/eval-trajectory.ts:97-132 | C(a,k)/C(b,k) does not grow with k |
| `PassRates.HatFalls` | conformance/src/lib/eval-trajectory.ts:128-132 | as computed, pass^k is non-increasing in k, up to 2^63 trials |
| `PassRates.AtRises` | conformance/src/lib/eval-trajectory.ts:122-126 | as computed, pass@k is non-decreasing in k, up to 2^63 trials |
| `Merkle.CheckpointMerkleRoot` | conformance/src/lib/audit-checkpoint.ts:34-55 | refusals in the source's order; otherwise the root of the tree that splits at the largest power of two below the leaf count, with one hash less than leaves |
| `Merkle.NextLevelKeepsRoot` | conformance/src/lib/audit-checkpoint.ts:46-53 | one level of pairing with odd promotion keeps the root of the recursively split tree, for every leaf count |
| `Merkle.BindingWithCount` | conformance/src/lib/audit-checkpoint.ts:14-17 | two lists of one length under one root are equal, or the two computations hashed different strings to one value |
| `Merkle.BindingWithoutCount` | conformance/src/lib/audit-checkpoint.ts:14-17 | without the count: equal, or such a collision, or a leaf of one list is an interior node of the other |
| `Merkle.InteriorNodesShareTheRoot` | conformance/src/lib/audit-checkpoint.ts:14-17 | the last case always exists: any list of two or more leaves shares its root with a shorter valid list, accepted without `expectedLeaves` and refused with it |
| `Watch.WatchForResumption` | conformance/src/lib/durability-watch.ts:61-77 | against any host that keeps moving: the verdict is exactly what the polls taken say; a latched `completedUnresumed` was true of the host at some moment of the watch; a reported resumption stays true; no resumption means the budget elapsed; the loop ends |
| `Watch.PollIsSound` | conformance/src/lib/durability-watch.ts:66-73 | one poll, status read before log: what it concludes held at the status read |
| `Watch.LatchIsTrue` | conformance/src/lib/durability-watch.ts:72 | over a whole run of polls, the latch is never set falsely |
| `Watch.StatusFirst` | conformance/src/lib/durability-watch.ts:66-67 | a conclusion from two reads is safe against every append-only host if and only if the log is not read before the status |
| `Watch.Io.ReadStatus` | conformance/src/lib/durability-watch.ts:33-38 | a status read delivers the host's status at some moment during the read, or nothing |
| `Watch.Io.ReadLog` | conformance/src/lib/durability-watch.ts:33-38 | a log read delivers the host's log at some moment during the read, or nothing |
| `SweepLine.MaxInFlight` | conformance/src/lib/fan-out-witness.ts:160-171 | 0 without windows; otherwise at least 1, and the maximum over all instants of the windows open from `tolerance` after their start to their end |
| `SweepLine.Sort` | conformance/src/lib/fan-out-witness.ts:166 | the points in order of instant, ends before starts, none lost or added |
| `SweepLine.InFlightIsOverlap` | conformance/src/lib/fan-out-witness.ts:160-171 | n windows are in flight at one instant exactly when n windows have a common intersection longer than the tolerance |
| `SweepLine.NetCountsInFlight` | conformance/src/lib/fan-out-witness.ts:164 | the sum of the points up to an instant is the number of windows in flight at it |
| `Scrub.ScrubEvidence` | conformance/src/lib/certification-bundle-verify.ts:334-373 | the value and the paths: all strings, keys included, scrubbed of every live secret, longest first; the value itself and no path when none is live |
| `Scrub.Live` | conformance/src/lib/certification-bundle-verify.ts:335 | the live secrets are the non-blank ones, each once, those of more UTF-16 code units first |
| `Scrub.LiveSecrets` | conformance/src/lib/certification-bundle-verify.ts:335 | the loop computes them, those of one length in the order given |
| `Scrub.SecretGoesExactly` | conformance/src/lib/certification-bundle-verify.ts:325-359 | among secrets without the marker's two delimiters, longest first, one comes out of every text, a digest left alone excepted, if and only if no secret's marker, once the secrets after it are replaced in it, holds it |
| `Scrub.ScrubsCleanExactly` | conformance/src/lib/certification-bundle-verify.ts:325-359 | so they all do if and only if no such marker holds any of them |
| `Scrub.UnmarkedIsSound` | conformance/src/lib/certification-bundle-verify.ts:312-314 | secrets without a delimiter that occur in no secret's marker meet that condition |
| `Scrub.EachComposes` | conformance/src/lib/certification-bundle-verify.ts:351-353 | replacing a list of secrets is replacing any first part of it, then the rest |
| `Scrub.EachAtMarker` | conformance/src/lib/certification-bundle-verify.ts:351-353 | a marker keeps apart what stands before and after it: later replacements act on the three parts one by one |
| `Scrub.StringsAreScrubbed` | conformance/src/lib/certification-bundle-verify.ts:360-373 | every string of the scrubbed value, at any depth, is one of the value's strings, scrubbed |
| `Scrub.NothingSurvives` | conformance/src/lib/certification-bundle-verify.ts:325-333 | a live secret without a delimiter that occurs in no secret's marker, whatever the other secrets are: a string at any depth of the scrubbed value that holds it is a whole hex digest and not itself a secret |
| `Scrub.NothingSurvivesCleanMarkers` | conformance/src/lib/certification-bundle-verify.ts:325-333 | so is one that no finished marker holds, when no secret has a delimiter |
| `Scrub.ScrubIsIdempotentExactly` | conformance/src/lib/certification-bundle-verify.ts:334-373 | for secrets without a delimiter, scrubbing a second time changes nothing, for all values, if and only if no finished marker holds a secret |
| `Scrub.RedactedAtIsExact` | conformance/src/lib/certification-bundle-verify.ts:334-373 | for secrets without the first delimiter, `redactedAt` non-empty means the value changed; empty means unchanged if and only if no secret was live or no object has a member named `__proto__` |
| `Scrub.OwnMarkerIsReported` | conformance/src/lib/certification-bundle-verify.ts:351-359 | a secret that is its own marker is reported although nothing changes |
| `Scrub.OccurrenceSurvives` | conformance/src/lib/certification-bundle-verify.ts:351-353 | replacing one secret by its marker creates no occurrence of another, given markers that no secret overlaps |
| `Scrub.MarkerTextLeaks` | conformance/src/lib/certification-bundle-verify.ts:312-314 | a set of secrets that fails the condition: `redacted` survives in its own marker |
| `Scrub.OpeningLeaks` | conformance/src/lib/certification-bundle-verify.ts:312-353 | a secret that ends in the marker's first character is put together again by its own marker, in any list of secrets of which no other occurs in the text before or after |
| `Scrub.ClosingLeaks` | conformance/src/lib/certification-bundle-verify.ts:312-353 | likewise one that starts with the marker's last character |
| `Scrub.DelimiterLeaks` | conformance/src/lib/certification-bundle-verify.ts:312-353 | two secrets, one of which ends in a delimiter and is put together by the other's marker |
| `Durability.ParseRecoveryBounds` | conformance/src/lib/durability-evidence.ts:83-107 | accepts exactly the declarations that state bounds: 1..16 classes, distinct plain names, 1..16 terms each, non-negative integers, each bound the sum of its terms |
| `Durability.DeclaresOnce` | conformance/src/lib/durability-evidence.ts:83-107 | a declaration states one list of bounds only |
| `Durability.BoundsRoundTrip` | conformance/src/lib/durability-evidence.ts:83-107 | writing valid bounds as JSON and parsing gives the same bounds |
| `Durability.DeriveRung` | conformance/src/lib/durability-evidence.ts:111-138 | a rung is derived exactly when all five rows passed and each kill row observed an interval within the bound its declared class states |
| `Durability.CheckKillRow` | conformance/src/lib/durability-evidence.ts:128-136 | one kill row: the class is declared, the bound it was judged against is that class's, and the interval is within it |
| `Durability.CheckRungClaim` | conformance/src/lib/durability-evidence.ts:140-148 | a claim stands exactly when there is none, or it is the one derivable rung and the rows support it |
| `CodeUnits.SortIgnoresOrder` | conformance/src/lib/certification-bundle-v3.ts:119 | sorting rows by id forgets their order if and only if no two different rows share an id (for any elements and key) |
| `CodeUnits.SortIsStable` | conformance/src/lib/certification-bundle-v3.ts:119 | rows of one id keep their order |
| `Digest.DigestIgnoresOrder` | conformance/src/lib/certification-bundle-v3.ts:118-127 | with one row per id the witness digest does not depend on row order |
| `Digest.DigestBinds` | conformance/src/lib/certification-bundle-v3.ts:92-127 | equal digests mean the same rows, relaxations (absent and empty being the same) and deployment marker, or two texts with one hash |
| `Digest.PayloadBinds` | conformance/src/lib/certification-bundle-v3.ts:129-132 | equal attestation payloads attest the same digest, build, suite version and discovery digest |
| `Digest.RecordsAgree` | conformance/src/lib/certification-bundle-v3.ts:119-125 | objects of optional members in a fixed order that mean the same agree on every member, absence included |
| `Bundle.OptedOutFromRows` | conformance/src/lib/certification-bundle-v3.ts:206-226 | the opt-outs are exactly the names carried by the id or the detail of a skipped row, each once, in code-unit order |
| `Tally.CountResult` | conformance/src/lib/certification-bundle-v3.ts:254-255 | the count of a result is the number of places in the list of rows that hold it |
| `Tally.TotalsIgnoreOrder` | conformance/src/lib/certification-bundle-v3.ts:254-256 | totals do not depend on the order of the rows |
| `Verify.VerifyBundleV3` | conformance/src/lib/certification-bundle-v3.ts:243-391 | reports exactly the rejections that are due, and certifies exactly the claimed profiles against which, and against whose bundle, none is due; when either signature counts as verified and derivability as checked; the opt-outs |
| `Verify.CheckRows` | conformance/src/lib/certification-bundle-v3.ts:247-253 | the row loop finds repeated ids, non-passes without a reason and vacuous passes, and nothing else |
| `Verify.CheckClaims` | conformance/src/lib/certification-bundle-v3.ts:289-310 | relaxed, undeclared relaxed, blocked and rung rejections, and the profiles left certified |
| `Verify.CheckDocument` | conformance/src/lib/certification-bundle-v3.ts:321-374 | the discovery document: its digest first, then contradicted opt-outs and underivable profiles, and when derivability counts as checked |
| `Verify.CertifiedRecord` | conformance/src/lib/certification-bundle-v3.ts:375-388 | a certified profile means: version 3, one row per id, a reason for each non-pass, no vacuous pass, each total the number of rows with that result, the assertion count their sum, no blocked row |
| `Verify.CertifiedSignatures` | conformance/src/lib/certification-bundle-v3.ts:375-388 | and: the host signature verifies when a key is given, a distinct verifier's when any tier is independent |
| `Verify.CertifiedClaim` | conformance/src/lib/certification-bundle-v3.ts:375-388 | and: the profile is relaxed neither by declaration nor by the results, derivable whenever derivability was checked, and a claimed rung is derivable |
| `Seal.SealedVerifies` | conformance/src/lib/certification-bundle-v3.ts:149-171 | for every draft and list of secrets, a written bundle draws no witness-digest or signature rejection under the signer's key, whatever scrubbing rewrote |
| `Seal.DigestBeforeScrubIsRefused` | conformance/src/lib/certification-bundle-v3.ts:152-158 | with the order of the two steps exchanged, as before suite 2.43.1, the bundle is refused as soon as scrubbing changes what the digest covers, or the raw and the scrubbed rows are two texts with one hash |
| `Seal.SignedTextBindsBundle` | conformance/src/lib/certification-bundle-v3.ts:92-132 | two bundles under one signed text agree on rows, relaxations, marker, build, version and discovery digest, or a collision is in hand |
| `Seal.OneSignatureOneRun` | conformance/src/lib/certification-bundle-v3.ts:92-147 | two bundles that certify under one host key with one signature show the same run: rows, relaxations, marker, build, version, and the discovery document itself; or that signature covers two texts, or two texts share a hash |
| `Seal.ScrubKeepsText` | conformance/src/lib/certification-bundle-v3.ts:168-170 | scrubbing makes no text empty and no reason blank |
| `Seal.EmitterAgrees` | conformance/src/cli.ts:704-739 | what the emitter marks certified draws no relaxation, blocked or rung rejection from the verifier, when scrubbing left the inputs of the verdict alone |
| `Seal.NothingDueWhenWritten` | conformance/src/cli.ts:713-762 | no kind of rejection is due against a bundle written from a run in order: one row per id, reasons, assertions, counted totals, a named build, a matching document that bears the claims, and for an independent tier a verifier with a key of its own |
| `Seal.SparedIsUndisturbed` | conformance/src/lib/certification-bundle-v3.ts:162-171 | when no secret occurs in the texts the verdict reads, sealing changes none of them, nor the set of opt-outs they state |
| `Seal.SealedCertifies` | conformance/src/cli.ts:713-758 | emit, scrub, digest, sign, have a verifier sign, verify: for such a run, when no secret occurs in the texts the verdict reads, and at any evidence tier, the verifier certifies exactly what the emitter found certifiable |
| `Seal.Emit` | conformance/src/cli.ts:713-738 | the emitter's `certified` flags, counts, detail block and rung |
| `Utf.TextRoundTrip` | conformance/src/lib/bound-id.ts:28-59 | encoding text as UTF-8 and decoding it gives the text back if and only if it has no lone surrogate and does not start with a byte-order mark |
| `Utf.DecodeEncode` | conformance/src/lib/bound-id.ts:28-59 | the UTF-8 decoder inverts the encoder on all Unicode scalar values |
| `BoundId.ProjectBoundId` | conformance/src/lib/bound-id.ts:28-35 | the loop writes each byte's escape |
| `BoundId.UnprojectBoundId` | conformance/src/lib/bound-id.ts:44-59 | the two loops decode: an error at exactly the first `~` without two hex digits, else the decoded bytes as text |
| `BoundId.Validate` | conformance/src/lib/bound-id.ts:45-51 | the first loop finds the first bad escape |
| `BoundId.CollectBytes` | conformance/src/lib/bound-id.ts:52-57 | on a validated segment the second loop never meets a `~` the first did not check |
| `BoundId.BytesRoundTrip` | conformance/src/lib/bound-id.ts:17-35 | every byte sequence is read back from its projection, whatever the id grammar |
| `BoundId.BoundIdRoundTrip` | conformance/src/lib/bound-id.ts:27-59 | decoding a projected id gives the id if and only if it is well-formed text without a leading byte-order mark |
| `BoundId.ProjectionInjective` | conformance/src/lib/bound-id.ts:27-35 | ids with one projection have the same bytes, and are equal when well formed |
| `BoundId.ProjectionIsOneSegment` | conformance/src/lib/bound-id.ts:10-22 | a projection holds only the unreserved characters of section 2.3 of RFC 3986, so it is one path segment |
| `Window.CheckTranscriptWindow` | conformance/src/lib/context-budget.ts:109-183 | the violations are exactly the broken rules; `pressure` holds exactly when something was summarized or an eligible event older than all that was fed was left out; without a log the verdict says so |
| `Window.CheckShape` | conformance/src/lib/context-budget.ts:114-126 | counter, budget, repetition and the recount of `chars` |
| `Window.CheckEntries` | conformance/src/lib/context-budget.ts:144-157 | entries name real events, listed summaries, and otherwise the fed ids in order |
| `Window.CheckTail` | conformance/src/lib/context-budget.ts:159-181 | log order, nothing at or after the decision, no eligible event dropped while an older one was fed |
| `Window.RecentIsFedOrReplaced` | conformance/src/lib/context-budget.ts:159-181 | on a proper log, in a clean window every eligible event from the first one fed to the decision is fed or replaced by a summary |
| `Window.RecentTail` | conformance/src/lib/context-budget.ts:159-181 | on a proper log a clean window that summarized nothing was fed exactly the last eligible events before the decision, in order |
| `Window.CharsCounted` | conformance/src/lib/context-budget.ts:118-126 | for `chars` a clean window's count is the sum of its entries' code points, and within budget |
| `Window.PressureIsATail` | conformance/src/lib/context-budget.ts:174-180 | for such a window pressure means that the fed events are fewer than the eligible ones |
| `Window.EntriesAreTheIds` | conformance/src/lib/context-budget.ts:144-157 | on a log whose ids hold no NUL, a clean window's entries other than summaries are exactly its event ids, in order; the one exception is a single empty id against none |
| `Window.CountIsOfTheFed` | conformance/src/lib/context-budget.ts:118-157 | so for `chars` a clean window's count is that of one rendering for each event fed, in order, and of summaries it lists |
| `Window.JoinComparesParts` | conformance/src/lib/context-budget.ts:156 | two lists of ids join alike if and only if they are cut into the same parts at their NULs, for all lists |
| `Window.JoinTellsExactly` | conformance/src/lib/context-budget.ts:156 | the joined comparison tells a list from every other if and only if it is one id, not empty and without NUL |
| `Window.JoinDecides` | conformance/src/lib/context-budget.ts:156 | among ids without NUL it compares the lists, except that `[]` and `['']` join alike |
| `Window.EmptyIdPasses` | conformance/src/lib/context-budget.ts:144-157 | a clean verdict on a window whose one entry no event id names, its own id being empty |
| `Window.NulIdPasses` | conformance/src/lib/context-budget.ts:144-157 | a clean verdict on a window with one entry for two event ids, for any two ids |
| `Memory.MemoryCalls` | conformance/src/lib/eval-memory-witness.ts:45-60 | the memory tool's calls in log order, each with the last return logged for its id |
| `Memory.PairingIgnoresOrder` | conformance/src/lib/eval-memory-witness.ts:45-60 | when no call has two different returns, the paired calls are the same whatever the order of the log |
| `Memory.JudgeIgnoresOrder` | conformance/src/lib/eval-memory-witness.ts:64-82 | the verdict does not depend on the order of the calls |
| `Trials.VerdictByCounts` | conformance/src/lib/eval-memory-witness.ts:64-82 | the verdict on a run of n trials in any interleaving and on any host, from what each step returned |
| `Trials.ReadYourWritesIsExact` | conformance/src/lib/eval-memory-witness.ts:20-26 | a host whose trials read their own writes is judged, and both findings are true exactly when every seed read returned the seed and every first read of the note found nothing |
| `Trials.IsolationIsRightUnlessForgotten` | conformance/src/lib/eval-memory-witness.ts:20-26 | on any host, a finding of isolation is right if and only if no read after a write found nothing |
| `Trials.LeakFindingIsRight` | conformance/src/lib/eval-memory-witness.ts:20-26 | on any host, a finding that trials are not isolated is right: some first read of the note did not find nothing |
| `Trials.ForgettingHidesALeak` | conformance/src/lib/eval-memory-witness.ts:20-26 | a host that forgets what was written can leak and still be found isolated |
| `Trials.StoresAreJudgedExactly` | conformance/src/lib/eval-memory-witness.ts:20-26 | whatever memory the trials share, in every interleaving: found isolated exactly when no first read of the note came after a write in its store |
| `Trials.IsolatedTrialsAreJudgedIsolated` | conformance/src/lib/eval-memory-witness.ts:20-26 | trials with stores of their own are judged with both findings true in every interleaving |
| `Trials.LogIsJudgedAsRun` | conformance/src/lib/eval-memory-witness.ts:45-82 | the verdict on any log holding the run's events in any order, among any others that are neither calls of the agent's memory tool nor returns for the run's calls, is the verdict on the run |
| `AgentUsage.AgentUsage` | conformance/src/lib/eval-efficiency-witness.ts:69-92 | for every log the usage the counters select, all usage without brackets; and, when no open invocation is started again, exactly the usage while an own invocation is open and no other agent's is |
| `AgentUsage.CountersLeak` | conformance/src/lib/eval-efficiency-witness.ts:79-86 | each counter is the number of open invocations of its owner plus one for every restart of an open one |
| `AgentUsage.CountersExact` | conformance/src/lib/eval-efficiency-witness.ts:79-86 | the counters are the numbers of open invocations at every position if and only if no open invocation is started again |
| `AgentUsage.CountedExactly` | conformance/src/lib/eval-efficiency-witness.ts:87-90 | which usage events are counted, on every log, restarts included |
| `AgentUsage.RestartHidesUsage` | conformance/src/lib/eval-efficiency-witness.ts:79-90 | another agent's invocation started twice and completed once hides all later usage of the agent |
| `Prune.Document.PruneUnused` | scripts/derive-v2-api.py:1010-1029 | the components left are those of the sweeps, group by group, with emptied groups removed; it ends |
| `Prune.Document.PruneGroup` | scripts/derive-v2-api.py:1018-1027 | sweeping one group until nothing changes |
| `Prune.Document.SweepOnce` | scripts/derive-v2-api.py:1020-1027 | one sweep deletes exactly what the document as it was before the sweep does not mention |
| `Prune.SettleIsGreatest` | scripts/derive-v2-api.py:1018-1027 | a component of a group is left if and only if it is in some set whose members stay mentioned when only they are left of the group |
| `Prune.SurvivesExactly` | scripts/derive-v2-api.py:1010-1029 | the whole run, from the document alone: a component of the pruned groups is left if and only if it is in some set each member of which is mentioned when its own group and those before it are cut down to the set and those after it are whole |
| `Prune.ReachableSurvives` | scripts/derive-v2-api.py:1010-1029 | nothing reachable by references from the rest of the document is deleted |
| `Prune.ReferencesKeepResolving` | scripts/derive-v2-api.py:1010-1029 | a reference to a component that resolved before and is still in the document resolves after |
| `Prune.NoReferenceBreaksExactly` | scripts/derive-v2-api.py:1010-1029 | every reference left in the document that resolved before resolves after, if and only if nothing that is left refers on into the definition of a component that is not |
| `Prune.DeepReferencesKeepResolving` | scripts/derive-v2-api.py:1023-1026 | in particular when each reference into a definition comes with one to the component itself |
| `Prune.DeepReferenceDangles` | scripts/derive-v2-api.py:1023-1026 | a document where it fails: the search text ends in a quote, so a pointer that goes on does not count |
| `Prune.SelfReferenceSurvives` | scripts/derive-v2-api.py:1010-1029 | after the whole run a component nothing else mentions is left if and only if it mentions itself |
| `Prune.FixedPoints` | scripts/derive-v2-api.py:1010-1029 | pruning changes nothing if and only if every component is mentioned and no group is empty |
| `Prune.OneRunIsEnoughExactly` | scripts/derive-v2-api.py:1015-1029 | a second run changes nothing if and only if every component left is in some set whose members are all mentioned when only they, of the pruned groups, are there |
| `Prune.OneRunIsNotEnough` | scripts/derive-v2-api.py:1015-1029 | a document where it fails: a schema that only an unused header mentions |
| `Jcs.ValueRoundTrip` | conformance/src/lib/jcs.ts:87-109 | reading what was written gives exactly the value that was written, members in order, whatever may follow it, or refuses it for a large integer |
| `Jcs.StringRoundTrip` | conformance/src/lib/jcs.ts:122-159 | a quoted string reads as the string it quotes, for every string and every character that must be escaped |
| `Jcs.CanonicalReadsBack` | conformance/src/lib/jcs.ts:110-117 | the strict reader gives back, with sorted members, what was canonically written, if and only if no number is written as an integer beyond 2^53 - 1; what is read back has the same canonical text |
| `Jcs.LargeIntegersAreRefused` | conformance/src/lib/jcs.ts:161-173 | doubles from 10^16 on that are written out as integers are canonical JSON the strict reader refuses |
| `Jcs.CanonicalIsCanonical` | conformance/src/lib/jcs.ts:87-109 | two values have one canonical text if and only if they are the same JSON |
| `Jcs.ParsedIsWellFormed` | conformance/src/lib/jcs.ts:175-219 | no accepted text has two members of one name in one object, at any depth |
| `Reader.ParseIJson` | conformance/src/lib/jcs.ts:117-224 | the reader with its cursor reads every text as the specification says, refusals included |
| `Reader.Cursor.ReadValue` | conformance/src/lib/jcs.ts:175-219 | one value from the cursor on |
| `Reader.Cursor.ReadString` | conformance/src/lib/jcs.ts:122-159 | one string literal, escapes and surrogates included |
| `CodeUnits.LeqComparesUnits` | conformance/src/lib/jcs.ts:45-59 | comparing strings character by character in the model's order is comparing their UTF-16 code units |
| `VerifyV2.VerifyBundleV2` | conformance/src/lib/certification-bundle-verify.ts:186-304 | the bundle-wide rejections are exactly those due; each claimed profile's verdict in order; the evidence is valid exactly when nothing is rejected and every claimed profile's requirements have acceptable evidence; it certifies exactly when each is moreover met |
| `VerifyV2.JudgeProfile` | conformance/src/lib/certification-bundle-verify.ts:224-299 | one profile: the requirement ids in order, why each one without acceptable evidence is rejected, which others were not met, whether it is certified |
| `VerifyV2.JudgeFile` | conformance/src/lib/certification-bundle-verify.ts:234-252 | a required file: no row, an empty pass and an unclassified return are rejected; blocked and failed do not certify |
| `VerifyV2.JudgePrefix` | conformance/src/lib/certification-bundle-verify.ts:253-274 | a prefix: judged by the matching rows, or by its summary row when there are none |
| `VerifyV2.JudgeGroup` | conformance/src/lib/certification-bundle-verify.ts:276-294 | a group: judged by its summary row, or by its members' rows; one witnessed pass and no failure |
| `VerifyV2.CertifiedIsWitnessed` | conformance/src/lib/certification-bundle-verify.ts:186-304 | a certified bundle has, for every requirement of every claimed profile, a row, no empty pass, a witnessed pass for prefixes and groups, and no failure for files and groups |
| `VerifyV2.VerdictIgnoresRowOrder` | conformance/src/lib/certification-bundle-verify.ts:186-304 | the verdict does not depend on the order of the rows, repeated ids or not |
| `VerifyV2.SameSearch` | conformance/src/lib/certification-bundle-verify.ts:219-222 | nor does the search of the whole file for the canary |
| `VerifyV2.FindLiteralIsExact` | conformance/src/lib/certification-bundle-verify.ts:119-143 | a literal is found exactly when some string of the value, at any depth, member names included, holds it |
| `VerifyV2.ScrubbedHoldsNoCanary` | conformance/src/lib/certification-bundle-verify.ts:325-333 | evidence scrubbed of secrets that include the canary is never rejected for holding it, whatever the other secrets are, as long as no marker holds it |
| `VerifyV2.HexTagsLackCanary` | conformance/src/lib/certification-bundle-verify.ts:312-314 | and with tags of hex digits no marker does |

## Left out

- PassRates: the last rounding of the 64-bit quotient to a double, of `1 - x`, and the guard against underflow are not modelled; values are exact dyadic numbers.
- PassRates.PassHatK: does not model more passes than trials, because then `ratioToNumber` is outside its own stated domain.
- PassRates.BinomRatio: does not model a larger count above than below, for the same reason.
- JsonMatch: numbers are reals, so NaN and negative zero do not occur.
- Numbers in sums are integers without bound: totals, term sums and sequence numbers beyond 2^53 lose precision in the source.
- Watch: what a log observation counts besides its three event kinds; the promise machinery around the reads.
- Jcs: how a double is written in decimal and read back (`Numbers`, assumed to be `Jcs.Faithful`). Strings are lists of Unicode scalar values, so a lone surrogate occurs only as an escape in a text. Non-JSON values (undefined, functions, class instances, sparse arrays) and the texts of refusals. `canonicalJSON` sorts while it writes; the model sorts first.
- Scrub.ScrubsCleanExactly: is about lists in which no secret has one of the marker's delimiters; for lists with such a secret `NothingSurvives` says what becomes of the others, and of the secret itself only that the two families of `OpeningLeaks` and `ClosingLeaks` are put together again when no other secret occurs in the text.
- Scrub: `tag` is any function of the secret, since nothing depends on its being a hash prefix. Besides losing the member, an assignment to `__proto__` changes the prototype of the copy, which is not modelled.
- Verify: the verdict on a bundle with absent members; the model's bundle has all its members, the source tolerates missing ones. Message texts, and how often and in what order one rejection is repeated.
- Bundle: profile ownership, observed-relaxation witnesses and derivability (`profiles.ts`, `v2-profiles.ts`, `requirement-registry.ts`) are the parameter `Registry`.
- Seal.SealedCertifies: supposes that no secret occurs in the texts the verdict reads (ids, results, evidence, details of skipped rows, version, key name, claims, relaxed obligations, document and its digest).
- Seal: the structure of a bundle (member names) holds no secret; base64url and PEM are not modelled.
- VerifyV2: profile floors and derivability are the parameter `Registry`; texts of rejections, and how often and in what order one is repeated.
- Durability.CheckKillRow: an `evidence.recovery` that is `null` makes the source throw where it reads its class; the model answers that the row is not within its bound.
- Durability: the `why` texts; `noteEvidence` and `takeNotedEvidence`.
- Window: `parseTranscriptWindow` and `summaryTexts`; texts of violations and how often one is repeated.
- AgentUsage: the judges of counts, usage and cost in the same file, which compare sums.
- Prune: references are strings `#/components/<group>/<name>`, exact or continued; component names that need JSON escaping, and pointers into other files that end the same way, are not modelled. The pruning of tags at the end of the function, and the rest of the script.
- Trials: a run holds only the four-step script, each call returned once.
- HTTP drivers, fixtures, receivers, process handling and the command line.
- The one-branch judges of the other witness files, the OpenAPI content and the RFC texts.
