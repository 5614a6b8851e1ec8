// The documents of the promotion chain and the two functions that bind them together. A digest
// is modelled by the content it was computed from, so equal digests mean equal content.
module Authority {
  import opened Bits
  import opened HarnessCodec
  import opened Wrappers

  const MAX_CHECKS := 128

  datatype Digest =
    | Raw(text: string)
    | AuditedHarness
    | OfPayload(payload: seq<Byte>)
    | OfProposal(proposal: ProposalRecord)
    | OfVerdict(verdict: Verdict)
    | OfEnvelope(envelope: Envelope)
    | OfManifest(manifest: Manifest)
    | OfValidation(validation: Validation)
    | OfCanary(canary: Canary)
    | OfCandidate(candidate: Candidate)
    | OfBinding(bound: Bound, nonce: string, code: string, expiresAt: int)
    | OfEvent(event: Event)

  datatype Targets = Targets(compilerHash: Digest, harnessHash: Digest, others: string)

  datatype ProposalRecord = ProposalRecord(id: string, packet: string, targets: Targets, body: string)
  datatype Verdict = Verdict(proposalId: string, packet: string, accepted: bool, body: string)

  datatype CheckId =
    | LocalCheck(name: string)
    | EnvelopeDigestCheck | ManifestBindingCheck | PayloadDigestCheck | TargetBindingCheck | CodecEqualityCheck

  datatype ValidationRecord = ValidationRecord(version: string, hash: Digest, passed: set<CheckId>, failed: set<CheckId>)

  datatype Envelope = Envelope(
    id: string, proposalHash: Digest, reviewerHash: Digest, auditorHash: Option<Digest>, contractHash: Digest,
    compiledArtifacts: set<Digest>, targets: Targets, proposal: ProposalRecord, reviewer: Verdict, auditor: Option<Verdict>,
    validations: seq<ValidationRecord>)

  datatype Manifest = Manifest(
    programId: string, proposalDigest: Digest, programDigest: Digest, contractDigest: Digest, payloadDigest: Digest,
    payloadSize: nat, operationCount: nat, compilerHash: Digest, validatorVersion: string, validatorHash: Digest, targets: Targets)

  datatype Validation = Validation(
    createdAt: int, envelopeDigest: Digest, manifestDigest: Digest, artifactDigest: Digest, artifactSize: nat,
    operationCount: nat, proposalDigest: Digest, programDigest: Digest, contractDigest: Digest, targets: Targets,
    compilerHash: Digest, validatorVersion: string, validatorHash: Digest, sourceValidations: nat, passed: set<CheckId>)

  datatype CanaryOutcome = Passed | Rejected | InfrastructureFailure

  datatype Canary = Canary(
    startedAt: int, finishedAt: int, envelopeDigest: Digest, validationDigest: Digest, manifestDigest: Digest,
    artifactDigest: Digest, targets: Targets, runnerHash: Digest, outcome: CanaryOutcome, exactSeedDryRuns: nat,
    executionsTotal: nat, harnessAccepted: bool, infrastructureError: bool, exitCode: int, timedOut: bool, signal: nat,
    fleetBefore: Digest, fleetAfter: Digest)

  // The worker set of a scope is determined by its destination.
  datatype Destination = NativeSync | KasanSync
  datatype Scope = Scope(campaign: string, destination: Destination)

  datatype Candidate = Candidate(
    readyAt: int, envelopeDigest: Digest, manifestDigest: Digest, artifactDigest: Digest, artifactSize: nat,
    validationDigest: Digest, canaryDigest: Digest, targets: Targets, scope: Scope)

  // Everything an execution approval is bound to.
  datatype Bound =
    | BoundEnvelope(envelopeDigest: Digest, targets: Targets)
    | BoundCandidate(candidateDigest: Digest, envelopeDigest: Digest, manifestDigest: Digest, artifactDigest: Digest,
                     artifactSize: nat, validationDigest: Digest, canaryDigest: Digest, targets: Targets, scope: Scope)

  datatype Challenge = Challenge(nonce: string, code: string, expiresAt: int, binding: Digest)

  // An approval event: of a quarantined proposal, or of one execution candidate.
  datatype Event = Event(createdAt: int, bound: Bound, challenge: Challenge)

  // ---- What parsing enforces ----

  predicate VerdictFits(proposal: ProposalRecord, verdict: Verdict) {
    verdict.proposalId == proposal.id && verdict.packet == proposal.packet && verdict.accepted
  }

  predicate EnvelopeParses(e: Envelope) {
    && VerdictFits(e.proposal, e.reviewer)
    && e.proposal.targets == e.targets
    && (if e.auditor.Some? then VerdictFits(e.proposal, e.auditor.value) && e.auditorHash.Some? else e.auditorHash.None?)
    && |e.compiledArtifacts| <= 128 && 1 <= |e.validations| <= 16
    && (forall r :: r in e.validations ==> r.passed != {} && r.failed == {})
  }

  predicate ManifestParses(m: Manifest) {
    1 <= m.payloadSize <= MAX_INPUT_BYTES && 1 <= m.operationCount <= MAX_OPERATIONS
  }

  predicate CanaryPassed(c: Canary) {
    && c.exactSeedDryRuns >= 1
    && c.executionsTotal >= c.exactSeedDryRuns
    && c.harnessAccepted
    && !c.infrastructureError
    && c.exitCode == 0
    && !c.timedOut
    && c.signal == 0
    && c.fleetBefore == c.fleetAfter
  }

  predicate CanaryParses(c: Canary) {
    && c.exactSeedDryRuns <= 4 && c.executionsTotal <= 1_000_000 && -255 <= c.exitCode <= 255 && c.signal <= 128
    && c.startedAt <= c.finishedAt
    && (c.outcome == Passed <==> CanaryPassed(c))
    && (c.outcome == InfrastructureFailure <==> c.infrastructureError)
    && c.fleetBefore == c.fleetAfter
  }

  predicate ValidationParses(v: Validation) {
    && 4 <= |v.passed| <= MAX_CHECKS
    && v.compilerHash == v.targets.compilerHash
    && 1 <= v.artifactSize <= MAX_INPUT_BYTES && 1 <= v.operationCount <= MAX_OPERATIONS
    && 1 <= v.sourceValidations <= 16
  }

  predicate CandidateParses(c: Candidate) {
    1 <= c.artifactSize <= MAX_INPUT_BYTES
  }

  predicate EventParses(e: Event) {
    e.challenge.binding == OfBinding(e.bound, e.challenge.nonce, e.challenge.code, e.challenge.expiresAt)
  }

  // ---- Deterministic validation ----

  datatype Refusal =
    | Unavailable
    | EnvelopeDigestMismatch | ManifestDigestMismatch | ManifestNotInEnvelope | PayloadDigestMismatch | PayloadSizeMismatch
    | ProposalMismatch | ContractMismatch | TargetMismatch | CompilerMismatch | ProposalDigestMismatch | ReviewerDigestMismatch
    | AuditorDigestMismatch | FailedValidation | ValidatorAbsent | CodecRefused | ReencodeDiffers | OperationCountMismatch
    | ReportInvalid
    | ValidationDigestMismatch | CanaryDigestMismatch | CanaryUnbound | CanaryNotPassed | RunnerNotAllowed | BindingsDisagree

  function AllPassed(records: seq<ValidationRecord>): set<CheckId> {
    set r, c | r in records && c in r.passed :: c
  }

  function PassedChecks(e: Envelope): set<CheckId> {
    AllPassed(e.validations)
    + {EnvelopeDigestCheck, ManifestBindingCheck, PayloadDigestCheck, TargetBindingCheck, CodecEqualityCheck}
  }

  function ReportOf(envelopeDigest: Digest, e: Envelope, manifestDigest: Digest, m: Manifest, createdAt: int): Validation {
    Validation(createdAt, envelopeDigest, manifestDigest, m.payloadDigest, m.payloadSize, m.operationCount, m.proposalDigest,
               m.programDigest, m.contractDigest, m.targets, m.compilerHash, m.validatorVersion, m.validatorHash,
               |e.validations|, PassedChecks(e))
  }

  function CheckCodec(m: Manifest, payload: seq<Byte>): Result<(), Refusal> {
    var hashMatches := m.targets.harnessHash == AuditedHarness;
    var decoded := DecodeProgramSpec(payload, hashMatches);
    if decoded.Err? then Err(CodecRefused) else
    var encoded := EncodeProgram(decoded.value, hashMatches);
    if encoded.Err? then Err(CodecRefused)
    else if encoded.value != payload then Err(ReencodeDiffers)
    else if |decoded.value.operations| != m.operationCount then Err(OperationCountMismatch)
    else Ok(())
  }

  predicate ValidatorListed(e: Envelope, m: Manifest) {
    exists r :: r in e.validations && r.version == m.validatorVersion && r.hash == m.validatorHash
  }

  function CheckBindings(envelopeDigest: Digest, e: Envelope, manifestDigest: Digest, m: Manifest, payload: seq<Byte>)
    : Result<(), Refusal>
  {
    if envelopeDigest != OfEnvelope(e) then Err(EnvelopeDigestMismatch)
    else if manifestDigest != OfManifest(m) then Err(ManifestDigestMismatch)
    else if manifestDigest !in e.compiledArtifacts then Err(ManifestNotInEnvelope)
    else if OfPayload(payload) != m.payloadDigest then Err(PayloadDigestMismatch)
    else if |payload| != m.payloadSize then Err(PayloadSizeMismatch)
    else if m.proposalDigest != e.proposalHash then Err(ProposalMismatch)
    else if m.contractDigest != e.contractHash then Err(ContractMismatch)
    else if m.targets != e.targets then Err(TargetMismatch)
    else if m.compilerHash != e.targets.compilerHash then Err(CompilerMismatch)
    else if OfProposal(e.proposal) != e.proposalHash then Err(ProposalDigestMismatch)
    else if OfVerdict(e.reviewer) != e.reviewerHash then Err(ReviewerDigestMismatch)
    else if e.auditor.Some? && Some(OfVerdict(e.auditor.value)) != e.auditorHash then Err(AuditorDigestMismatch)
    else if exists r :: r in e.validations && r.failed != {} then Err(FailedValidation)
    else if !ValidatorListed(e, m) then Err(ValidatorAbsent)
    else Ok(())
  }

  function BuildValidation(envelopeDigest: Digest, e: Envelope, manifestDigest: Digest, m: Manifest, payload: seq<Byte>, createdAt: int)
    : Result<Validation, Refusal>
  {
    var _ :- CheckBindings(envelopeDigest, e, manifestDigest, m, payload);
    var _ :- CheckCodec(m, payload);
    var report := ReportOf(envelopeDigest, e, manifestDigest, m, createdAt);
    if ValidationParses(report) then Ok(report) else Err(ReportInvalid)
  }

  // ---- Execution candidates ----

  function BuildCandidate(validationDigest: Digest, v: Validation, canaryDigest: Digest, c: Canary, manifestDigest: Digest,
                          m: Manifest, scope: Scope, readyAt: int, allowedRunners: set<Digest>): Result<Candidate, Refusal> {
    if OfValidation(v) != validationDigest then Err(ValidationDigestMismatch)
    else if OfCanary(c) != canaryDigest then Err(CanaryDigestMismatch)
    else if OfManifest(m) != manifestDigest then Err(ManifestDigestMismatch)
    else if validationDigest != c.validationDigest then Err(CanaryUnbound)
    else if c.outcome != Passed then Err(CanaryNotPassed)
    else if c.runnerHash !in allowedRunners then Err(RunnerNotAllowed)
    else if !(&& v.envelopeDigest == c.envelopeDigest
              && v.manifestDigest == c.manifestDigest == manifestDigest
              && v.artifactDigest == c.artifactDigest == m.payloadDigest
              && v.artifactSize == m.payloadSize
              && v.targets == c.targets == m.targets) then Err(BindingsDisagree)
    else Ok(Candidate(readyAt, v.envelopeDigest, manifestDigest, m.payloadDigest, m.payloadSize, validationDigest,
                      canaryDigest, m.targets, scope))
  }

  // ---- Verified stores: an object is returned only when its content has the digest asked for ----

  datatype Stores = Stores(
    envelopes: map<Digest, Envelope>, manifests: map<Digest, Manifest>, payloads: map<Digest, seq<Byte>>,
    validations: map<Digest, Validation>, canaries: map<Digest, Canary>, candidates: map<Digest, Candidate>)

  function GetEnvelope(s: Stores, d: Digest): Result<Envelope, Refusal> {
    if d in s.envelopes && OfEnvelope(s.envelopes[d]) == d && EnvelopeParses(s.envelopes[d]) then Ok(s.envelopes[d]) else Err(Unavailable)
  }

  function GetManifest(s: Stores, d: Digest): Result<Manifest, Refusal> {
    if d in s.manifests && OfManifest(s.manifests[d]) == d && ManifestParses(s.manifests[d]) then Ok(s.manifests[d]) else Err(Unavailable)
  }

  function GetPayload(s: Stores, m: Manifest): Result<seq<Byte>, Refusal> {
    var d := m.payloadDigest;
    if d in s.payloads && OfPayload(s.payloads[d]) == d && |s.payloads[d]| == m.payloadSize then Ok(s.payloads[d]) else Err(Unavailable)
  }

  function GetValidation(s: Stores, d: Digest): Result<Validation, Refusal> {
    if d in s.validations && OfValidation(s.validations[d]) == d && ValidationParses(s.validations[d])
    then Ok(s.validations[d]) else Err(Unavailable)
  }

  function GetCanary(s: Stores, d: Digest): Result<Canary, Refusal> {
    if d in s.canaries && OfCanary(s.canaries[d]) == d && CanaryParses(s.canaries[d]) then Ok(s.canaries[d]) else Err(Unavailable)
  }

  function GetCandidate(s: Stores, d: Digest): Result<Candidate, Refusal> {
    if d in s.candidates && OfCandidate(s.candidates[d]) == d && CandidateParses(s.candidates[d])
    then Ok(s.candidates[d]) else Err(Unavailable)
  }

  // ---- What the codec checks amount to ----

  // Re-encoding can never fail after a strict decode, so the codec checks accept exactly the
  // strictly decodable payloads of the audited harness with the manifest's operation count.
  lemma CodecCheckExact(m: Manifest, payload: seq<Byte>)
    ensures CheckCodec(m, payload).Ok? <==>
              && m.targets.harnessHash == AuditedHarness
              && DecodeProgramSpec(payload, true).Ok?
              && |DecodeProgramSpec(payload, true).value.operations| == m.operationCount
    ensures CheckCodec(m, payload) != Err(ReencodeDiffers)
  {
    if DecodeProgramSpec(payload, true).Ok? { EncodeAfterDecode(payload); }
  }

  // Given parsed documents whose bindings hold, a report fails to parse exactly when it would
  // list more than 128 checks.
  lemma ReportFailsExactlyOnTooManyChecks(envelopeDigest: Digest, e: Envelope, manifestDigest: Digest, m: Manifest,
                                          payload: seq<Byte>, createdAt: int)
    requires EnvelopeParses(e) && ManifestParses(m)
    requires CheckBindings(envelopeDigest, e, manifestDigest, m, payload).Ok? && CheckCodec(m, payload).Ok?
    ensures BuildValidation(envelopeDigest, e, manifestDigest, m, payload, createdAt) == Err(ReportInvalid) <==>
              |PassedChecks(e)| > 128
  {
    var five := {EnvelopeDigestCheck, ManifestBindingCheck, PayloadDigestCheck, TargetBindingCheck, CodecEqualityCheck};
    assert |five| == 5;
    SubsetIsSmaller(five, PassedChecks(e));
  }
}
