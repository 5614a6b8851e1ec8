// One complete honest promotion: the chain's conditions can all hold at once.
module PromotionExample {
  import opened Approval
  import opened ApprovalRuns
  import opened Authority
  import opened Bits
  import opened HarnessCodec
  import opened Promotion
  import opened PromotionChain
  import PromotionRuns
  import opened Wrappers

  const COMPILER := Raw("compiler")
  const VALIDATOR := Raw("validator")
  const RUNNER := Raw("runner")
  const CONTRACT := Raw("contract")
  const TARGETS := Targets(COMPILER, AuditedHarness, [])
  const PAYLOAD: seq<Byte> := [0, 0, 0]

  const PROPOSAL := ProposalRecord("p", "q", TARGETS, [])
  const REVIEW := Verdict("p", "q", true, [])
  const MANIFEST := Manifest("program", OfProposal(PROPOSAL), Raw("program"), CONTRACT, OfPayload(PAYLOAD), 3, 1, COMPILER,
                             "v", VALIDATOR, TARGETS)
  const RECORD := ValidationRecord("v", VALIDATOR, {LocalCheck("bounds")}, {})
  const ENVELOPE := Envelope("e", OfProposal(PROPOSAL), OfVerdict(REVIEW), None, CONTRACT, {OfManifest(MANIFEST)}, TARGETS,
                             PROPOSAL, REVIEW, None, [RECORD])
  const REPORT := ReportOf(OfEnvelope(ENVELOPE), ENVELOPE, OfManifest(MANIFEST), MANIFEST, 0)
  const CANARY := Canary(0, 1, OfEnvelope(ENVELOPE), OfValidation(REPORT), OfManifest(MANIFEST), OfPayload(PAYLOAD), TARGETS,
                         RUNNER, Passed, 1, 1, true, false, 0, false, 0, Raw("fleet"), Raw("fleet"))
  const SCOPE := Scope("campaign", NativeSync)
  const CANDIDATE := Candidate(2, OfEnvelope(ENVELOPE), OfManifest(MANIFEST), OfPayload(PAYLOAD), 3, OfValidation(REPORT),
                               OfCanary(CANARY), TARGETS, SCOPE)
  const DOCUMENTS := Documents(ENVELOPE, MANIFEST, PAYLOAD, REPORT, CANARY)
  const STORES := Stores(
    map[OfEnvelope(ENVELOPE) := ENVELOPE], map[OfManifest(MANIFEST) := MANIFEST], map[OfPayload(PAYLOAD) := PAYLOAD],
    map[OfValidation(REPORT) := REPORT], map[OfCanary(CANARY) := CANARY], map[OfCandidate(CANDIDATE) := CANDIDATE])
  const SPEC := Spec("campaign", NativeSync, {RUNNER})

  // One no-operation on the first ring.
  lemma PayloadDecodes()
    ensures DecodeProgramSpec(PAYLOAD, true) == Ok(NativeProgram(0, [NativeOperation(0, [], 0)]))
  {
    var op := NativeOperation(0, [], 0);
    var p := NativeProgram(0, [op]);
    assert EncoderOperandNames(0) == [];
    assert CanonicalOperation(op);
    DecodeAfterEncode(p);
    hide EncoderOperandNames, DecodeProgramSpec;
    var encoded := EncodeOperation(op);
    assert encoded.Ok? && encoded.value == [0, 0];
    assert p.operations[1..] == [];
    assert EncodeOperations(p.operations).value == [0, 0];
    assert EncodeProgram(p, true).value == [0] + [0, 0];
  }

  lemma ReportParses()
    ensures ValidationParses(REPORT)
  {
    assert AllPassed([RECORD]) == {LocalCheck("bounds")};
    assert PassedChecks(ENVELOPE) == {LocalCheck("bounds"), EnvelopeDigestCheck, ManifestBindingCheck, PayloadDigestCheck,
                                      TargetBindingCheck, CodecEqualityCheck};
    assert |PassedChecks(ENVELOPE)| == 6;
  }

  lemma ValidationBuilds()
    ensures BuildValidation(OfEnvelope(ENVELOPE), ENVELOPE, OfManifest(MANIFEST), MANIFEST, PAYLOAD, 0) == Ok(REPORT)
  {
    PayloadDecodes();
    ReportParses();
    CodecCheckExact(MANIFEST, PAYLOAD);
    hide DecodeProgramSpec, EncodeProgram, PassedChecks, CheckCodec, ValidationParses;
    assert RECORD in ENVELOPE.validations;
    assert ValidatorListed(ENVELOPE, MANIFEST);
    assert CheckBindings(OfEnvelope(ENVELOPE), ENVELOPE, OfManifest(MANIFEST), MANIFEST, PAYLOAD) == Ok(());
  }

  lemma CandidateBuilds()
    ensures BuildCandidate(OfValidation(REPORT), REPORT, OfCanary(CANARY), CANARY, OfManifest(MANIFEST), MANIFEST, SCOPE, 2, {RUNNER})
            == Ok(CANDIDATE)
  {
    hide PassedChecks;
  }

  lemma DocumentsParse()
    ensures EnvelopeParses(ENVELOPE) && CanaryParses(CANARY) && ManifestParses(MANIFEST) && CandidateParses(CANDIDATE)
  {
    hide PassedChecks, ReportOf;
  }

  lemma DocumentsAreStored()
    ensures Stored(STORES, CANDIDATE, DOCUMENTS)
  {
    ReportParses();
    DocumentsParse();
    hide PassedChecks, ReportOf, ValidationParses, EnvelopeParses, CanaryParses, ManifestParses, CandidateParses;
  }

  lemma BuildsSucceed()
    ensures HonestlyBuilt(STORES, CANDIDATE, DOCUMENTS, {RUNNER})
  {
    hide Stored, BuildValidation, BuildCandidate;
    DocumentsAreStored();
    ValidationBuilds();
    CandidateBuilds();
  }

  const KEY := "key"
  const SUBJECT := SubjectOfCandidate(CANDIDATE, "nonce", "code")
  const EVENT := NewEvent(SUBJECT, 0, 5 * MINUTE)
  const APPROVAL := Signed(DecisionFields(OfEvent(EVENT), BoundOf(CANDIDATE), EVENT.challenge.binding, "nonce", "code", ApproveLive,
                                    OperatorApprovedLive, 0, EVENT.challenge.expiresAt), KEY)
  const ACTIONS := [Project([SUBJECT], 0, 5 * MINUTE), Import(APPROVAL, 0)]

  function InputsAt(now: int): Inputs {
    var w := Run(ApprovalRuns.Empty, KEY, ACTIONS);
    Inputs(STORES, w.archive, KEY, w.outbox, map[NativeSync := SPEC], TARGETS, now)
  }

  lemma FirstChallenge()
    ensures Projected([], [SUBJECT], 0, 5 * MINUTE) == [EVENT]
  {
    assert [SUBJECT][..0] == [];
    assert Projected([], [], 0, 5 * MINUTE) == [];
    assert MayChallenge([], SUBJECT, 0);
  }

  lemma FirstImport()
    ensures Imported([], [EVENT], KEY, APPROVAL, 0) == Ok([APPROVAL])
  {
    assert FindEvent([EVENT], OfEvent(EVENT)) == Ok(EVENT);
    assert CheckNew(EVENT, APPROVAL.decision, 0) == Ok(());
    var none: seq<Signed> := [];
    assert FirstForEvent(none, APPROVAL.decision.eventDigest) == None && AllVerify(none, KEY);
    assert none + [APPROVAL] == [APPROVAL];
  }

  lemma ApprovedOnce()
    ensures var w := Run(ApprovalRuns.Empty, KEY, ACTIONS); w.archive == [APPROVAL] && w.outbox == [EVENT]
  {
    var first := ACTIONS[..1];
    assert ACTIONS[..1] == [ACTIONS[0]] && first[..0] == [];
    assert Run(ApprovalRuns.Empty, KEY, []) == ApprovalRuns.Empty;
    FirstChallenge();
    FirstImport();
    hide Projected, Imported;
    assert Run(ApprovalRuns.Empty, KEY, first) == Step(ApprovalRuns.Empty, KEY, ACTIONS[0]);
    assert Run(ApprovalRuns.Empty, KEY, first) == World([EVENT], []);
    assert Run(ApprovalRuns.Empty, KEY, ACTIONS) == Step(Run(ApprovalRuns.Empty, KEY, first), KEY, ACTIONS[1]);
  }

  // The bytes of the example are published at any later time.
  lemma AnHonestPromotionExists(now: int)
    ensures Clear(InputsAt(now), OfCandidate(CANDIDATE)) == Ok(Cleared(OfCandidate(CANDIDATE), CANDIDATE, APPROVAL, PAYLOAD))
    ensures var (f, outcome) := Promoted(Files([], map[], false), InputsAt(now), OfCandidate(CANDIDATE), TARGETS, Survives);
            outcome.result.Ok? && f.seeds == map[(NativeSync, OfPayload(PAYLOAD)) := PAYLOAD]
  {
    ApprovedOnce();
    BuildsSucceed();
    hide Run, HonestlyBuilt, Clear;
    assert IsExecutionDecisionFor(APPROVAL, OfCandidate(CANDIDATE));
    assert OnlyDecision([APPROVAL], OfCandidate(CANDIDATE), 0);
    HonestRunIsCleared(KEY, ACTIONS, 0, InputsAt(now), CANDIDATE, DOCUMENTS);
  }

  // ---- A death inside the write of the receipt ----

  function TornRun(now: int): seq<PromotionRuns.Attempt> {
    [PromotionRuns.Attempt(InputsAt(now), OfCandidate(CANDIDATE), TARGETS, InReceipt)]
  }

  lemma TearingHappens(now: int)
    ensures PromotionRuns.Run(TornRun(now)) == Files([], map[(NativeSync, OfPayload(PAYLOAD)) := PAYLOAD], true)
  {
    AnHonestPromotionExists(now);
    hide Run, Clear, HonestlyBuilt;
    assert TornRun(now)[..0] == [];
    assert PromotionRuns.Run(TornRun(now)[..0]) == Files([], map[], false);
  }

  // The seed stays visible without a receipt, and nothing is promoted any more.
  lemma TearingStopsPromotion(now: int, more: seq<PromotionRuns.Attempt>)
    ensures PromotionRuns.Run(TornRun(now) + more) == Files([], map[(NativeSync, OfPayload(PAYLOAD)) := PAYLOAD], true)
  {
    TearingHappens(now);
    PromotionRuns.TornReceiptBlocksEverything(TornRun(now), more);
  }

  // ---- The same candidate answered twice ----

  const AGAIN := SubjectOfCandidate(CANDIDATE, "other", "again")
  const REISSUED := NewEvent(AGAIN, 5 * MINUTE, 5 * MINUTE)
  const SECOND := Signed(DecisionFields(OfEvent(REISSUED), BoundOf(CANDIDATE), REISSUED.challenge.binding, "other", "again", ApproveLive,
                                  OperatorApprovedLive, 5 * MINUTE, REISSUED.challenge.expiresAt), KEY)
  const MORE_ACTIONS := ACTIONS + [Project([AGAIN], 5 * MINUTE, 5 * MINUTE), Import(SECOND, 5 * MINUTE)]

  lemma OnlyChallenge()
    ensures ChallengesOf([EVENT], AGAIN.bound) == [EVENT]
  {
    assert SameSubject(EVENT.bound, AGAIN.bound);
    assert [EVENT][..0] == [];
    assert ChallengesOf([], AGAIN.bound) == [];
  }

  lemma SecondChallenge()
    ensures Projected([EVENT], [AGAIN], 5 * MINUTE, 5 * MINUTE) == [EVENT, REISSUED]
  {
    assert !AGAIN.skipped && EVENT.challenge.expiresAt <= 5 * MINUTE;
    OnlyChallenge();
    hide ChallengesOf, Projected, NewEvent;
    ReissueStep([EVENT], AGAIN, 5 * MINUTE, 5 * MINUTE);
    assert [EVENT] + [REISSUED] == [EVENT, REISSUED];
  }

  lemma ReissuedAndApproved()
    ensures var w := Run(ApprovalRuns.Empty, KEY, MORE_ACTIONS); w.archive == [APPROVAL, SECOND] && w.outbox == [EVENT, REISSUED]
  {
    ApprovedOnce();
    var third := MORE_ACTIONS[..3];
    assert third[..2] == ACTIONS;
    SecondChallenge();
    hide Projected;
    assert Run(ApprovalRuns.Empty, KEY, third) == World([EVENT, REISSUED], [APPROVAL]);
    SecondImport();
    assert Run(ApprovalRuns.Empty, KEY, MORE_ACTIONS) == Step(Run(ApprovalRuns.Empty, KEY, third), KEY, MORE_ACTIONS[3]);
  }

  lemma SecondImport()
    ensures Imported([APPROVAL], [EVENT, REISSUED], KEY, SECOND, 5 * MINUTE) == Ok([APPROVAL, SECOND])
  {
    assert OfEvent(EVENT) != OfEvent(REISSUED) by { assert EVENT.challenge.nonce != REISSUED.challenge.nonce; }
    assert [APPROVAL][1..] == [] && [EVENT, REISSUED][1..] == [REISSUED];
    assert FirstForEvent([APPROVAL], OfEvent(REISSUED)) == None;
    assert FindEvent([EVENT, REISSUED], OfEvent(REISSUED)) == Ok(REISSUED);
    assert CheckNew(REISSUED, SECOND.decision, 5 * MINUTE) == Ok(());
    assert [APPROVAL] + [SECOND] == [APPROVAL, SECOND];
  }

  // The approved candidate is challenged again when its first challenge has expired; approving it
  // again takes the approval away.
  lemma ApprovingTwiceBlocks(now: int)
    ensures var w := Run(ApprovalRuns.Empty, KEY, MORE_ACTIONS);
            Clear(InputsAt(now).(archive := w.archive, outbox := w.outbox), OfCandidate(CANDIDATE)).Err?
  {
    ReissuedAndApproved();
    hide Run, Clear;
    assert IsExecutionDecisionFor(APPROVAL, OfCandidate(CANDIDATE)) && IsExecutionDecisionFor(SECOND, OfCandidate(CANDIDATE));
    TwoAnswersBlockPromotion(InputsAt(now).(archive := [APPROVAL, SECOND], outbox := [EVENT, REISSUED]), OfCandidate(CANDIDATE), 0, 1);
  }
}
