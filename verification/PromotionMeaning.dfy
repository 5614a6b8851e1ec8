// What stands behind a cleared candidate, field by field: the limits every document keeps, the
// bindings from each document to the next, and the one decision. Clearing is characterised by it
// in both directions.
module PromotionMeaning {
  import opened Approval
  import opened ApprovalRuns
  import opened Authority
  import opened Bits
  import opened HarnessCodec
  import opened Promotion
  import opened PromotionChain
  import opened Wrappers

  // ---- The documents one by one ----

  // A verdict accepts a proposal for the packet the proposal was made from.
  predicate Accepts(verdict: Verdict, proposal: ProposalRecord) {
    verdict.accepted && verdict.proposalId == proposal.id && verdict.packet == proposal.packet
  }

  predicate ProperEnvelope(e: Envelope) {
    && Accepts(e.reviewer, e.proposal)
    && (e.auditor.Some? ==> Accepts(e.auditor.value, e.proposal))
    && e.auditor.Some? == e.auditorHash.Some?
    && e.targets == e.proposal.targets
    && |e.compiledArtifacts| <= 128 && 1 <= |e.validations| <= 16
    && forall r :: r in e.validations ==> r.failed == {} && exists check :: check in r.passed
  }

  predicate ProperManifest(m: Manifest) {
    1 <= m.payloadSize <= 2048 && 1 <= m.operationCount <= 96
  }

  // A passed canary ran the exact seed at least once, within its executions, and nothing failed.
  predicate RanWell(k: Canary) {
    && 1 <= k.exactSeedDryRuns <= k.executionsTotal
    && k.harnessAccepted && !k.infrastructureError && !k.timedOut
    && k.exitCode == 0 && k.signal == 0
  }

  predicate ProperCanary(k: Canary) {
    && k.exactSeedDryRuns <= 4 && k.executionsTotal <= 1_000_000 && -255 <= k.exitCode <= 255 && k.signal <= 128
    && k.startedAt <= k.finishedAt && k.fleetBefore == k.fleetAfter
    && k.outcome == if k.infrastructureError then InfrastructureFailure else if RanWell(k) then Passed else Rejected
  }

  predicate ProperReport(v: Validation) {
    && 4 <= |v.passed| <= 128
    && v.compilerHash == v.targets.compilerHash
    && 1 <= v.artifactSize <= 2048 && 1 <= v.operationCount <= 96
    && 1 <= v.sourceValidations <= 16
  }

  // A document is read back exactly when it is kept under its own digest and proper.
  lemma ReadBackExactly(s: Stores, d: Digest)
    ensures GetEnvelope(s, d).Ok? <==> d in s.envelopes && d == OfEnvelope(s.envelopes[d]) && ProperEnvelope(s.envelopes[d])
    ensures GetManifest(s, d).Ok? <==> d in s.manifests && d == OfManifest(s.manifests[d]) && ProperManifest(s.manifests[d])
    ensures GetCanary(s, d).Ok? <==> d in s.canaries && d == OfCanary(s.canaries[d]) && ProperCanary(s.canaries[d])
    ensures GetValidation(s, d).Ok? <==> d in s.validations && d == OfValidation(s.validations[d]) && ProperReport(s.validations[d])
    ensures GetCandidate(s, d).Ok? <==>
              d in s.candidates && d == OfCandidate(s.candidates[d]) && 1 <= s.candidates[d].artifactSize <= 2048
  {
    forall e: Envelope
      ensures EnvelopeParses(e) <==> ProperEnvelope(e)
    {
      ProperEnvelopesParse(e);
    }
  }

  lemma ProperEnvelopesParse(e: Envelope)
    ensures EnvelopeParses(e) <==> ProperEnvelope(e)
  {
    forall r | r in e.validations && r.passed != {}
      ensures exists check :: check in r.passed
    {
      var check :| check in r.passed;
    }
  }

  lemma PapersParse(m: Manifest, v: Validation, k: Canary)
    ensures ManifestParses(m) <==> ProperManifest(m)
    ensures ValidationParses(v) <==> ProperReport(v)
    ensures CanaryParses(k) <==> ProperCanary(k)
    ensures ProperCanary(k) ==> (k.outcome == Passed <==> RanWell(k))
  {
  }

  // ---- The chain ----

  // Each document is kept under its digest, which the candidate or the manifest names.
  predicate Kept(s: Stores, c: Candidate, d: Documents) {
    && OfCandidate(c) in s.candidates && s.candidates[OfCandidate(c)] == c
    && c.validationDigest == OfValidation(d.validation)
    && c.validationDigest in s.validations && s.validations[c.validationDigest] == d.validation
    && c.canaryDigest == OfCanary(d.canary) && c.canaryDigest in s.canaries && s.canaries[c.canaryDigest] == d.canary
    && c.manifestDigest == OfManifest(d.manifest) && c.manifestDigest in s.manifests && s.manifests[c.manifestDigest] == d.manifest
    && c.envelopeDigest == OfEnvelope(d.envelope) && c.envelopeDigest in s.envelopes && s.envelopes[c.envelopeDigest] == d.envelope
    && c.artifactDigest == OfPayload(d.payload) && c.artifactDigest in s.payloads && s.payloads[c.artifactDigest] == d.payload
  }

  predicate Compiled(d: Documents) {
    ProperEnvelope(d.envelope) && ProperManifest(d.manifest) && Related(d)
  }

  // The reviewed proposal, its compiled artifact and the validator's record belong together.
  predicate Related(d: Documents) {
    var e, m := d.envelope, d.manifest;
    && OfManifest(m) in e.compiledArtifacts
    && e.proposalHash == OfProposal(e.proposal) && e.reviewerHash == OfVerdict(e.reviewer)
    && (e.auditor.Some? ==> e.auditorHash == Some(OfVerdict(e.auditor.value)))
    && m.proposalDigest == e.proposalHash && m.contractDigest == e.contractHash
    && m.targets == e.targets && m.compilerHash == e.targets.compilerHash
    && exists r :: r in e.validations && r.version == m.validatorVersion && r.hash == m.validatorHash
  }

  // The payload is one canonical program of the audited harness, of the manifest's size and count.
  predicate Decodes(d: Documents) {
    var decoded := DecodeProgramSpec(d.payload, true);
    && d.manifest.targets.harnessHash == AuditedHarness
    && decoded.Ok? && |decoded.value.operations| == d.manifest.operationCount
    && d.manifest.payloadDigest == OfPayload(d.payload) && d.manifest.payloadSize == |d.payload|
  }

  // The report repeats envelope, manifest and payload, and lists every check passed before and the
  // five it adds.
  ghost predicate Reported(d: Documents) {
    ProperReport(d.validation) && Repeats(d)
  }

  ghost predicate Repeats(d: Documents) {
    var e, m, v := d.envelope, d.manifest, d.validation;
    && v.envelopeDigest == OfEnvelope(e) && v.manifestDigest == OfManifest(m)
    && v.artifactDigest == OfPayload(d.payload) && v.artifactSize == |d.payload| && v.operationCount == m.operationCount
    && v.proposalDigest == e.proposalHash && v.programDigest == m.programDigest && v.contractDigest == e.contractHash
    && v.targets == e.targets && v.compilerHash == e.targets.compilerHash
    && v.validatorVersion == m.validatorVersion && v.validatorHash == m.validatorHash
    && v.sourceValidations == |e.validations|
    && forall check :: check in v.passed <==>
         || check == EnvelopeDigestCheck || check == ManifestBindingCheck || check == PayloadDigestCheck
         || check == TargetBindingCheck || check == CodecEqualityCheck
         || exists r :: r in e.validations && check in r.passed
  }

  // An allowed runner ran exactly this artifact on these targets, and it ran well.
  predicate Canaried(d: Documents, c: Candidate, allowedRunners: set<Digest>) {
    var k := d.canary;
    && ProperCanary(k) && RanWell(k) && k.runnerHash in allowedRunners
    && k.envelopeDigest == OfEnvelope(d.envelope) && k.manifestDigest == OfManifest(d.manifest)
    && k.validationDigest == OfValidation(d.validation) && k.artifactDigest == OfPayload(d.payload)
    && k.targets == d.manifest.targets == c.targets && c.artifactSize == |d.payload|
  }

  predicate Names(decision: Decision, c: Candidate) {
    decision.bound.BoundCandidate? && decision.bound.candidateDigest == OfCandidate(c)
  }

  // Exactly one archived decision names the candidate; it approves it for live execution with all
  // its bindings, every record bears the key's signature, and the decision is the first of an
  // execution event on record.
  predicate DecidedOnce(inputs: Inputs, c: Candidate, i: int) {
    && 0 <= i < |inputs.archive|
    && (forall s :: s in inputs.archive ==> s.key == inputs.key)
    && (forall j :: 0 <= j < |inputs.archive| && Names(inputs.archive[j].decision, c) ==> j == i)
    && var decision := inputs.archive[i].decision;
       && decision.action == ApproveLive && decision.reason == OperatorApprovedLive
       && decision.bound == BoundCandidate(OfCandidate(c), c.envelopeDigest, c.manifestDigest, c.artifactDigest, c.artifactSize,
                                           c.validationDigest, c.canaryDigest, c.targets, c.scope)
       && (forall j :: 0 <= j < i ==> inputs.archive[j].decision.eventDigest != decision.eventDigest)
       && exists e :: e in inputs.outbox && OfEvent(e) == decision.eventDigest && e.bound.BoundCandidate?
  }

  ghost predicate Behind(inputs: Inputs, c: Candidate, d: Documents, i: int) {
    && Kept(inputs.stores, c, d) && 1 <= c.artifactSize <= 2048
    && Compiled(d) && Decodes(d) && Reported(d)
    && c.scope.destination in inputs.specs
    && (var spec := inputs.specs[c.scope.destination];
        && spec.destination == c.scope.destination && spec.campaign == c.scope.campaign
        && Canaried(d, c, spec.allowedRunners))
    && inputs.targets == c.targets
    && DecidedOnce(inputs, c, i)
  }

  lemma PassedExactly(e: Envelope, check: CheckId)
    ensures check in PassedChecks(e) <==>
              || check == EnvelopeDigestCheck || check == ManifestBindingCheck || check == PayloadDigestCheck
              || check == TargetBindingCheck || check == CodecEqualityCheck
              || exists r :: r in e.validations && check in r.passed
  {
  }

  lemma PayloadOf(d: Documents)
    requires Decodes(d)
    ensures d.manifest.payloadDigest == OfPayload(d.payload) && d.manifest.payloadSize == |d.payload|
  {
  }

  lemma ReportedExactly(d: Documents)
    requires Compiled(d) && Decodes(d)
    ensures Reported(d) <==>
              && ValidationParses(d.validation)
              && d.validation == ReportOf(OfEnvelope(d.envelope), d.envelope, OfManifest(d.manifest), d.manifest, d.validation.createdAt)
  {
    hide Decodes, DecodeProgramSpec, PassedChecks, ValidationParses, ProperReport, ProperEnvelope, ProperManifest;
    PayloadOf(d);
    PapersParse(d.manifest, d.validation, d.canary);
    forall check
      ensures check in PassedChecks(d.envelope) <==>
                || check == EnvelopeDigestCheck || check == ManifestBindingCheck || check == PayloadDigestCheck
                || check == TargetBindingCheck || check == CodecEqualityCheck
                || exists r :: r in d.envelope.validations && check in r.passed
    {
      PassedExactly(d.envelope, check);
    }
  }

  lemma {:induction false} FirstAt(records: seq<Signed>, digest: Digest) returns (k: nat)
    requires FirstForEvent(records, digest).Some?
    ensures k < |records| && FirstForEvent(records, digest) == Some(records[k]) && records[k].decision.eventDigest == digest
    ensures forall j :: 0 <= j < k ==> records[j].decision.eventDigest != digest
  {
    k := 0;
    if records[0].decision.eventDigest != digest {
      k := FirstAt(records[1..], digest);
      k := k + 1;
      assert forall j :: 1 <= j < k ==> records[j] == records[1..][j - 1];
    }
  }

  lemma DecidedExactly(inputs: Inputs, c: Candidate, i: nat)
    ensures DecidedOnce(inputs, c, i) <==>
              && AllVerify(inputs.archive, inputs.key)
              && OnlyDecision(inputs.archive, OfCandidate(c), i)
              && inputs.archive[i].decision.bound == BoundOf(c)
              && inputs.archive[i].decision.action == ApproveLive
              && inputs.archive[i].decision.reason == OperatorApprovedLive
              && FirstForEvent(inputs.archive, inputs.archive[i].decision.eventDigest) == Some(inputs.archive[i])
              && FindEvent(inputs.outbox, inputs.archive[i].decision.eventDigest).Ok?
              && FindEvent(inputs.outbox, inputs.archive[i].decision.eventDigest).value.bound.BoundCandidate?
  {
    hide FindEvent, FirstForEvent;
    if i < |inputs.archive| {
      var digest := inputs.archive[i].decision.eventDigest;
      FirstForEventExact(inputs.archive, digest);
      FoundEventIsThere(inputs.outbox, digest);
      assert inputs.archive[i] in inputs.archive;
      var k := FirstAt(inputs.archive, digest);
    }
  }

  // The documents' half, for the runners a scope allows.
  lemma EvidenceExactly(s: Stores, c: Candidate, d: Documents, allowedRunners: set<Digest>)
    ensures Stored(s, c, d) && Evidenced(c, d, allowedRunners) <==>
              && Kept(s, c, d) && 1 <= c.artifactSize <= 2048
              && Compiled(d) && Decodes(d) && Reported(d) && Canaried(d, c, allowedRunners)
  {
    hide DecodeProgramSpec, ProperEnvelope, ProperManifest, ProperReport, ProperCanary, RanWell,
         EnvelopeParses, ManifestParses, ValidationParses, CanaryParses, PassedChecks;
    ProperEnvelopesParse(d.envelope);
    PapersParse(d.manifest, d.validation, d.canary);
    if Compiled(d) && Decodes(d) { ReportedExactly(d); }
    hide Reported;
  }

  lemma AuthorisedExactly(inputs: Inputs, c: Candidate, d: Documents, i: nat)
    ensures Authorised(inputs, OfCandidate(c), c, d, i) <==> Behind(inputs, c, d, i)
  {
    hide Stored, Evidenced, Kept, Compiled, Decodes, Reported, Canaried, DecidedOnce, FindEvent, FirstForEvent;
    DecidedExactly(inputs, c, i);
    if c.scope.destination in inputs.specs {
      EvidenceExactly(inputs.stores, c, d, inputs.specs[c.scope.destination].allowedRunners);
    }
  }

  // A candidate is cleared, with its payload and its decision, exactly when all of that stands
  // behind it.
  lemma ClearedExactly(inputs: Inputs, c: Candidate, payload: seq<Byte>, signed: Signed)
    ensures Clear(inputs, OfCandidate(c)) == Ok(Cleared(OfCandidate(c), c, signed, payload)) <==>
              exists d, i: int :: Behind(inputs, c, d, i) && d.payload == payload && inputs.archive[i] == signed
  {
    hide Clear, Authorised, Kept, Compiled, Decodes, Reported, Canaried;
    if Clear(inputs, OfCandidate(c)) == Ok(Cleared(OfCandidate(c), c, signed, payload)) {
      var d, i := ClearingIsSound(inputs, OfCandidate(c));
      AuthorisedExactly(inputs, c, d, i);
    }
    forall d, i: int | Behind(inputs, c, d, i)
      ensures Clear(inputs, OfCandidate(c)) == Ok(Cleared(OfCandidate(c), c, inputs.archive[i], d.payload))
    {
      AuthorisedExactly(inputs, c, d, i);
      ClearingIsComplete(inputs, OfCandidate(c), c, d, i);
    }
  }

  // ---- Building, from any documents ----

  lemma ReportMatches(d: Documents)
    requires Related(d) && Decodes(d)
    ensures Repeats(d) <==>
              d.validation == ReportOf(OfEnvelope(d.envelope), d.envelope, OfManifest(d.manifest), d.manifest, d.validation.createdAt)
  {
    hide Decodes, DecodeProgramSpec, PassedChecks;
    PayloadOf(d);
    forall check
      ensures check in PassedChecks(d.envelope) <==>
                || check == EnvelopeDigestCheck || check == ManifestBindingCheck || check == PayloadDigestCheck
                || check == TargetBindingCheck || check == CodecEqualityCheck
                || exists r :: r in d.envelope.validations && check in r.passed
    {
      PassedExactly(d.envelope, check);
    }
  }

  // A report is built exactly when the digests are those of the documents, none of the envelope's
  // records has a failed check, and envelope, manifest and payload belong together; it is then the
  // proper report that repeats them.
  lemma ValidationBuildsExactly(envelopeDigest: Digest, manifestDigest: Digest, d: Documents)
    ensures BuildValidation(envelopeDigest, d.envelope, manifestDigest, d.manifest, d.payload, d.validation.createdAt)
            == Ok(d.validation) <==>
              && envelopeDigest == OfEnvelope(d.envelope) && manifestDigest == OfManifest(d.manifest)
              && (forall r :: r in d.envelope.validations ==> forall check :: check !in r.failed)
              && Related(d) && Decodes(d) && Reported(d)
  {
    hide DecodeProgramSpec, EncodeProgram, PassedChecks, ValidationParses, ProperReport, Repeats;
    CodecCheckExact(d.manifest, d.payload);
    PapersParse(d.manifest, d.validation, d.canary);
    NoneFailed(d.envelope);
    if Related(d) && Decodes(d) { ReportMatches(d); }
    hide ReportOf, CheckCodec;
  }

  lemma NoneFailed(e: Envelope)
    ensures (exists r :: r in e.validations && r.failed != {}) <==> !(forall r :: r in e.validations ==> forall check :: check !in r.failed)
  {
    forall r | r in e.validations && r.failed != {}
      ensures exists check :: check in r.failed
    {
      var check :| check in r.failed;
    }
  }

  // A candidate is built exactly when the digests are those of the documents, an allowed runner's
  // canary of this very report passed, and report, canary and manifest name one artifact on the
  // same targets; it then names them.
  lemma CandidateBuildsExactly(validationDigest: Digest, v: Validation, canaryDigest: Digest, k: Canary, manifestDigest: Digest,
                               m: Manifest, scope: Scope, readyAt: int, allowedRunners: set<Digest>, c: Candidate)
    ensures BuildCandidate(validationDigest, v, canaryDigest, k, manifestDigest, m, scope, readyAt, allowedRunners) == Ok(c) <==>
              && validationDigest == OfValidation(v) && canaryDigest == OfCanary(k) && manifestDigest == OfManifest(m)
              && k.outcome == Passed && k.runnerHash in allowedRunners && k.validationDigest == OfValidation(v)
              && k.envelopeDigest == v.envelopeDigest == c.envelopeDigest
              && k.manifestDigest == v.manifestDigest == OfManifest(m) == c.manifestDigest
              && k.artifactDigest == v.artifactDigest == m.payloadDigest == c.artifactDigest
              && v.artifactSize == m.payloadSize == c.artifactSize
              && k.targets == v.targets == m.targets == c.targets
              && c.validationDigest == OfValidation(v) && c.canaryDigest == OfCanary(k) && c.scope == scope && c.readyAt == readyAt
  {
  }
}
