// What clearing a candidate for promotion means: the chain of documents behind it, in both
// directions.
module PromotionChain {
  import opened Approval
  import opened ApprovalRuns
  import opened Authority
  import opened Bits
  import opened HarnessCodec
  import opened Promotion
  import opened Wrappers

  datatype Documents = Documents(envelope: Envelope, manifest: Manifest, payload: seq<Byte>, validation: Validation, canary: Canary)

  // The documents are in the stores under the digests the candidate names, and they parse.
  predicate Stored(s: Stores, c: Candidate, d: Documents) {
    && OfCandidate(c) in s.candidates && s.candidates[OfCandidate(c)] == c && CandidateParses(c)
    && c.validationDigest == OfValidation(d.validation)
    && c.validationDigest in s.validations && s.validations[c.validationDigest] == d.validation && ValidationParses(d.validation)
    && c.canaryDigest == OfCanary(d.canary)
    && c.canaryDigest in s.canaries && s.canaries[c.canaryDigest] == d.canary && CanaryParses(d.canary)
    && c.manifestDigest == OfManifest(d.manifest)
    && c.manifestDigest in s.manifests && s.manifests[c.manifestDigest] == d.manifest && ManifestParses(d.manifest)
    && d.manifest.payloadDigest == OfPayload(d.payload)
    && d.manifest.payloadDigest in s.payloads && s.payloads[d.manifest.payloadDigest] == d.payload && |d.payload| == d.manifest.payloadSize
    && c.envelopeDigest == OfEnvelope(d.envelope)
    && c.envelopeDigest in s.envelopes && s.envelopes[c.envelopeDigest] == d.envelope && EnvelopeParses(d.envelope)
  }

  // The evidence: an accepted proposal compiled to bytes that are one canonical program of the
  // audited harness, validated, and canaried by an allowed runner on the same targets.
  predicate Evidenced(c: Candidate, d: Documents, allowedRunners: set<Digest>) {
    var e, m, v, k := d.envelope, d.manifest, d.validation, d.canary;
    && OfManifest(m) in e.compiledArtifacts
    && m.proposalDigest == e.proposalHash == OfProposal(e.proposal)
    && e.reviewerHash == OfVerdict(e.reviewer)
    && (e.auditor.Some? ==> e.auditorHash == Some(OfVerdict(e.auditor.value)))
    && m.contractDigest == e.contractHash
    && ValidatorListed(e, m)
    && m.compilerHash == m.targets.compilerHash
    && m.targets == e.targets == k.targets == c.targets
    && m.targets.harnessHash == AuditedHarness
    && DecodeProgramSpec(d.payload, true).Ok?
    && |DecodeProgramSpec(d.payload, true).value.operations| == m.operationCount
    && v == ReportOf(OfEnvelope(e), e, OfManifest(m), m, v.createdAt)
    && k.outcome == Passed && k.runnerHash in allowedRunners
    && k.envelopeDigest == OfEnvelope(e) && k.manifestDigest == OfManifest(m) && k.validationDigest == OfValidation(v)
    && k.artifactDigest == c.artifactDigest == OfPayload(d.payload)
    && c.artifactSize == |d.payload|
  }

  predicate ScopeAllowed(specs: map<Destination, Spec>, scope: Scope) {
    && scope.destination in specs
    && specs[scope.destination].destination == scope.destination
    && specs[scope.destination].campaign == scope.campaign
  }

  // A candidate built by the two build functions from parsed, stored documents.
  predicate HonestlyBuilt(s: Stores, c: Candidate, d: Documents, allowedRunners: set<Digest>) {
    && Stored(s, c, d)
    && BuildValidation(OfEnvelope(d.envelope), d.envelope, OfManifest(d.manifest), d.manifest, d.payload,
                       d.validation.createdAt) == Ok(d.validation)
    && BuildCandidate(OfValidation(d.validation), d.validation, OfCanary(d.canary), d.canary, OfManifest(d.manifest), d.manifest,
                      c.scope, c.readyAt, allowedRunners) == Ok(c)
  }

  lemma HonestBuildsAreEvidence(s: Stores, c: Candidate, d: Documents, allowedRunners: set<Digest>)
    requires HonestlyBuilt(s, c, d, allowedRunners)
    ensures Evidenced(c, d, allowedRunners)
  {
    hide DecodeProgramSpec, EncodeProgram, PassedChecks;
    CodecCheckExact(d.manifest, d.payload);
  }

  // Reading back and building twice accept exactly the stored, evidenced, allowed candidates.
  lemma EvidenceSound(inputs: Inputs, c: Candidate) returns (d: Documents)
    requires GetCandidate(inputs.stores, OfCandidate(c)) == Ok(c) && CheckEvidence(inputs, c).Ok?
    ensures Stored(inputs.stores, c, d) && ScopeAllowed(inputs.specs, c.scope)
    ensures Evidenced(c, d, inputs.specs[c.scope.destination].allowedRunners)
    ensures CheckEvidence(inputs, c) == Ok(d.payload)
  {
    hide BuildValidation, BuildCandidate, Evidenced;
    var s := inputs.stores;
    var m := GetManifest(s, c.manifestDigest).value;
    d := Documents(GetEnvelope(s, c.envelopeDigest).value, m, GetPayload(s, m).value, GetValidation(s, c.validationDigest).value,
                   GetCanary(s, c.canaryDigest).value);
    HonestBuildsAreEvidence(s, c, d, inputs.specs[c.scope.destination].allowedRunners);
  }

  lemma EvidenceComplete(inputs: Inputs, c: Candidate, d: Documents)
    requires Stored(inputs.stores, c, d) && ScopeAllowed(inputs.specs, c.scope)
    requires Evidenced(c, d, inputs.specs[c.scope.destination].allowedRunners)
    ensures CheckEvidence(inputs, c) == Ok(d.payload)
  {
    hide DecodeProgramSpec, EncodeProgram, PassedChecks;
    CodecCheckExact(d.manifest, d.payload);
    assert CheckBindings(c.envelopeDigest, d.envelope, c.manifestDigest, d.manifest, d.payload).Ok?;
  }

  // ---- The one decision ----

  // The archive holds exactly one execution decision for the candidate, at position i.
  predicate OnlyDecision(archive: seq<Signed>, candidateDigest: Digest, i: nat) {
    && i < |archive| && IsExecutionDecisionFor(archive[i], candidateDigest)
    && forall j :: 0 <= j < |archive| && IsExecutionDecisionFor(archive[j], candidateDigest) ==> j == i
  }

  lemma {:induction false} MatchingNone(archive: seq<Signed>, candidateDigest: Digest)
    ensures Matching(archive, candidateDigest) == [] <==> forall s :: s in archive ==> !IsExecutionDecisionFor(s, candidateDigest)
  {
    if archive != [] { MatchingNone(archive[1..], candidateDigest); }
  }

  lemma {:induction false} MatchingOne(archive: seq<Signed>, candidateDigest: Digest) returns (i: nat)
    requires |Matching(archive, candidateDigest)| == 1
    ensures OnlyDecision(archive, candidateDigest, i) && Matching(archive, candidateDigest) == [archive[i]]
  {
    if IsExecutionDecisionFor(archive[0], candidateDigest) {
      MatchingNone(archive[1..], candidateDigest);
      assert forall j :: 1 <= j < |archive| ==> archive[j] in archive[1..];
      i := 0;
    } else {
      var rest := MatchingOne(archive[1..], candidateDigest);
      i := rest + 1;
      forall j | 0 <= j < |archive| && IsExecutionDecisionFor(archive[j], candidateDigest)
        ensures j == i
      {
        assert archive[j] == archive[1..][j - 1];
      }
    }
  }

  lemma {:induction false} MatchingOfOnly(archive: seq<Signed>, candidateDigest: Digest, i: nat)
    requires OnlyDecision(archive, candidateDigest, i)
    ensures Matching(archive, candidateDigest) == [archive[i]]
  {
    if i == 0 {
      MatchingNone(archive[1..], candidateDigest);
    } else {
      assert forall j :: 0 <= j < |archive| - 1 ==> archive[1..][j] == archive[j + 1];
      MatchingOfOnly(archive[1..], candidateDigest, i - 1);
    }
  }

  // The decision is archived, so importing it again is settled by the archive alone: nothing in
  // a promotion depends on the time at which it runs.
  lemma ImportIgnoresTheClock(archive: seq<Signed>, outbox: seq<Event>, key: string, signed: Signed, now: int, later: int)
    requires signed in archive
    ensures Imported(archive, outbox, key, signed, now) == Imported(archive, outbox, key, signed, later)
  {
    FirstForEventExact(archive, signed.decision.eventDigest);
  }

  lemma ClearingIgnoresTheClock(inputs: Inputs, candidateDigest: Digest, later: int)
    ensures Clear(inputs.(now := later), candidateDigest) == Clear(inputs, candidateDigest)
  {
    hide CheckEvidence, Imported;
    var matching := Matching(inputs.archive, candidateDigest);
    if |matching| == 1 {
      var i := MatchingOne(inputs.archive, candidateDigest);
      ImportIgnoresTheClock(inputs.archive, inputs.outbox, inputs.key, matching[0], inputs.now, later);
    }
    assert CheckDecision(inputs.(now := later), candidateDigest) == CheckDecision(inputs, candidateDigest);
    forall c: Candidate
      ensures CheckEvidence(inputs.(now := later), c) == CheckEvidence(inputs, c)
    {
      EvidenceIgnoresTheClock(inputs, c, later);
    }
  }

  lemma EvidenceIgnoresTheClock(inputs: Inputs, c: Candidate, later: int)
    ensures CheckEvidence(inputs.(now := later), c) == CheckEvidence(inputs, c)
  {
    hide BuildValidation, BuildCandidate;
  }

  // What stands behind a cleared candidate.
  predicate Authorised(inputs: Inputs, candidateDigest: Digest, c: Candidate, d: Documents, i: nat) {
    && candidateDigest == OfCandidate(c)
    && Stored(inputs.stores, c, d)
    && ScopeAllowed(inputs.specs, c.scope)
    && Evidenced(c, d, inputs.specs[c.scope.destination].allowedRunners)
    && inputs.targets == c.targets
    && AllVerify(inputs.archive, inputs.key)
    && OnlyDecision(inputs.archive, candidateDigest, i)
    && inputs.archive[i].decision.bound == BoundOf(c)
    && inputs.archive[i].decision.action == ApproveLive
    && inputs.archive[i].decision.reason == OperatorApprovedLive
    && FirstForEvent(inputs.archive, inputs.archive[i].decision.eventDigest) == Some(inputs.archive[i])
    && FindEvent(inputs.outbox, inputs.archive[i].decision.eventDigest).Ok?
    && FindEvent(inputs.outbox, inputs.archive[i].decision.eventDigest).value.bound.BoundCandidate?
  }

  // Soundness, for arbitrary store, archive and outbox contents.
  lemma ClearingIsSound(inputs: Inputs, candidateDigest: Digest) returns (d: Documents, i: nat)
    requires Clear(inputs, candidateDigest).Ok?
    ensures var cleared := Clear(inputs, candidateDigest).value;
            && Authorised(inputs, candidateDigest, cleared.candidate, d, i)
            && cleared.candidateDigest == candidateDigest
            && cleared.payload == d.payload && cleared.signed == inputs.archive[i]
  {
    hide CheckEvidence, Evidenced, Stored, FindEvent;
    var cleared := Clear(inputs, candidateDigest).value;
    d := EvidenceSound(inputs, cleared.candidate);
    i := MatchingOne(inputs.archive, candidateDigest);
    FirstForEventExact(inputs.archive, inputs.archive[i].decision.eventDigest);
    assert inputs.archive[i] in inputs.archive;
  }

  // Completeness: whatever is so authorised is cleared.
  lemma ClearingIsComplete(inputs: Inputs, candidateDigest: Digest, c: Candidate, d: Documents, i: nat)
    requires Authorised(inputs, candidateDigest, c, d, i)
    ensures Clear(inputs, candidateDigest) == Ok(Cleared(candidateDigest, c, inputs.archive[i], d.payload))
  {
    hide CheckEvidence, Evidenced, FindEvent;
    EvidenceComplete(inputs, c, d);
    MatchingOfOnly(inputs.archive, candidateDigest, i);
    assert inputs.archive[i] in inputs.archive;
  }

  // In plain terms: the published bytes decode strictly and re-encode to themselves,
  // their digest passed a canary of an allowed runner, the review accepted the proposal, and
  // the one signed execution decision approves exactly this artifact on these targets.
  lemma WhatPromotionGuarantees(inputs: Inputs, candidateDigest: Digest) returns (d: Documents, i: nat)
    requires Clear(inputs, candidateDigest).Ok?
    ensures var cleared := Clear(inputs, candidateDigest).value;
            var decoded := DecodeProgramSpec(cleared.payload, true);
            && decoded.Ok? && EncodeProgram(decoded.value, true) == Ok(cleared.payload) && |cleared.payload| <= 481
            && d.canary.artifactDigest == OfPayload(cleared.payload)
            && 1 <= d.canary.exactSeedDryRuns <= d.canary.executionsTotal && d.canary.harnessAccepted
            && !d.canary.infrastructureError && !d.canary.timedOut && d.canary.exitCode == 0 && d.canary.signal == 0
            && d.canary.fleetBefore == d.canary.fleetAfter
            && d.envelope.reviewer.accepted && d.envelope.reviewer.proposalId == d.envelope.proposal.id
            && d.envelope.reviewer.packet == d.envelope.proposal.packet
            && OnlyDecision(inputs.archive, candidateDigest, i)
            && var bound := inputs.archive[i].decision.bound;
               && bound.artifactDigest == OfPayload(cleared.payload) && bound.canaryDigest == OfCanary(d.canary)
               && bound.envelopeDigest == OfEnvelope(d.envelope) && bound.targets == inputs.targets
  {
    d, i := ClearingIsSound(inputs, candidateDigest);
    EvidenceSoundCanary(inputs, candidateDigest, Clear(inputs, candidateDigest).value.candidate, d, i);
    EncodesBack(Clear(inputs, candidateDigest).value.payload);
  }

  lemma EvidenceSoundCanary(inputs: Inputs, candidateDigest: Digest, c: Candidate, d: Documents, i: nat)
    requires Authorised(inputs, candidateDigest, c, d, i)
    ensures CanaryPassed(d.canary) && d.envelope.reviewer.accepted && VerdictFits(d.envelope.proposal, d.envelope.reviewer)
    ensures DecodeProgramSpec(d.payload, true).Ok?
  {
  }

  lemma EncodesBack(payload: seq<Byte>)
    requires DecodeProgramSpec(payload, true).Ok?
    ensures EncodeProgram(DecodeProgramSpec(payload, true).value, true) == Ok(payload) && |payload| <= 481
  {
    EncodeAfterDecode(payload);
  }

  // ---- The honest run ----

  // An honestly built candidate, approved exactly once in any run of projector and importer, is
  // cleared at every later time while its targets have not drifted.
  lemma HonestRunIsCleared(key: string, actions: seq<Action>, i: nat, inputs: Inputs, c: Candidate, d: Documents)
    requires var w := Run(Empty, key, actions);
             && inputs.archive == w.archive && inputs.outbox == w.outbox && inputs.key == key
             && OnlyDecision(w.archive, OfCandidate(c), i)
             && w.archive[i].decision.bound == BoundOf(c) && w.archive[i].decision.action == ApproveLive
    requires ScopeAllowed(inputs.specs, c.scope) && inputs.targets == c.targets
    requires HonestlyBuilt(inputs.stores, c, d, inputs.specs[c.scope.destination].allowedRunners)
    ensures Clear(inputs, OfCandidate(c)) == Ok(Cleared(OfCandidate(c), c, inputs.archive[i], d.payload))
  {
    hide HonestlyBuilt, Evidenced, Run, Stored;
    HonestBuildsAreEvidence(inputs.stores, c, d, inputs.specs[c.scope.destination].allowedRunners);
    HonestDecision(key, actions, i);
    assert Stored(inputs.stores, c, d) by { HonestIsStored(inputs.stores, c, d, inputs.specs[c.scope.destination].allowedRunners); }
    ClearingIsComplete(inputs, OfCandidate(c), c, d, i);
  }

  lemma HonestIsStored(s: Stores, c: Candidate, d: Documents, allowedRunners: set<Digest>)
    requires HonestlyBuilt(s, c, d, allowedRunners)
    ensures Stored(s, c, d)
  {
  }

  // In a reachable archive every decision is the first of its event, and its event is found.
  lemma HonestDecision(key: string, actions: seq<Action>, i: nat)
    requires i < |Run(Empty, key, actions).archive|
    ensures var w := Run(Empty, key, actions);
            var decision := w.archive[i].decision;
            && AllVerify(w.archive, key)
            && FirstForEvent(w.archive, decision.eventDigest) == Some(w.archive[i])
            && FindEvent(w.outbox, decision.eventDigest).Ok?
            && FindEvent(w.outbox, decision.eventDigest).value.bound == decision.bound
            && decision.reason == ExpectedReason(decision)
  {
    hide Ordered, AtMostTwo, WellFormedOutbox, Run, FindEvent, FirstForEvent;
    var w := Run(Empty, key, actions);
    EveryRunIsGood(key, actions);
    FirstForEventExact(w.archive, w.archive[i].decision.eventDigest);
    FoundEventIsThere(w.outbox, w.archive[i].decision.eventDigest);
    assert forall s :: s in w.archive ==> Backed(w.outbox, key, s);
    assert w.archive[i] in w.archive;
  }

  // A candidate answered on both of its challenges can no longer be promoted, even when both
  // answers approve it.
  lemma TwoAnswersBlockPromotion(inputs: Inputs, candidateDigest: Digest, i: nat, j: nat)
    requires i < j < |inputs.archive|
    requires IsExecutionDecisionFor(inputs.archive[i], candidateDigest) && IsExecutionDecisionFor(inputs.archive[j], candidateDigest)
    ensures Clear(inputs, candidateDigest).Err?
  {
    if |Matching(inputs.archive, candidateDigest)| == 1 {
      var only := MatchingOne(inputs.archive, candidateDigest);
      assert false;
    }
  }
}
