// The promoter: it rebuilds the whole chain behind one approved candidate, then publishes one
// immutable seed and records one receipt.
module Promotion {
  import opened Approval
  import opened Authority
  import opened Bits
  import opened Wrappers

  datatype Spec = Spec(campaign: string, destination: Destination, allowedRunners: set<Digest>)

  datatype Receipt = Receipt(
    candidateDigest: Digest, decision: Signed, eventDigest: Digest, bound: Bound, destination: Destination, promotedAt: int)

  datatype PromotionError =
    | NotOneDecision | DecisionInvalid(error: DecisionError) | NotApproved | WrongEventVersion
    | Unreadable(refusal: Refusal) | DiffersFromDecision | ValidationNotReproduced | NotAllowlisted | ScopeDiffers
    | CandidateNotReproduced | TargetDrift | AlreadyPublished | WrongBytesAtDestination | ReceiptUnreadable

  // Everything a promotion reads before it takes the lock.
  datatype Inputs = Inputs(stores: Stores, archive: seq<Signed>, key: string, outbox: seq<Event>, specs: map<Destination, Spec>,
                           targets: Targets, now: int)

  // A candidate that passed every check, with what is to be published for it.
  datatype Cleared = Cleared(candidateDigest: Digest, candidate: Candidate, signed: Signed, payload: seq<Byte>)

  function IsExecutionDecisionFor(s: Signed, candidateDigest: Digest): bool {
    s.decision.bound.BoundCandidate? && s.decision.bound.candidateDigest == candidateDigest
  }

  function Matching(archive: seq<Signed>, candidateDigest: Digest): seq<Signed> {
    if archive == [] then []
    else (if IsExecutionDecisionFor(archive[0], candidateDigest) then [archive[0]] else []) + Matching(archive[1..], candidateDigest)
  }

  function DecisionForCandidate(archive: seq<Signed>, candidateDigest: Digest): Result<Signed, PromotionError> {
    var matching := Matching(archive, candidateDigest);
    if |matching| != 1 then Err(NotOneDecision) else Ok(matching[0])
  }

  // The decision half: one signed decision, importable, approving, of an execution event.
  function CheckDecision(inputs: Inputs, candidateDigest: Digest): Result<Signed, PromotionError> {
    if !AllVerify(inputs.archive, inputs.key) then Err(DecisionInvalid(SignatureInvalid)) else
    var signed :- DecisionForCandidate(inputs.archive, candidateDigest);
    var imported := Imported(inputs.archive, inputs.outbox, inputs.key, signed, inputs.now);
    if imported.Err? then Err(DecisionInvalid(imported.error))
    else if signed.decision.action != ApproveLive || signed.decision.reason != OperatorApprovedLive then Err(NotApproved)
    else
      var event := FindEvent(inputs.outbox, signed.decision.eventDigest);
      if event.Err? then Err(DecisionInvalid(event.error))
      else if !event.value.bound.BoundCandidate? then Err(WrongEventVersion)
      else Ok(signed)
  }

  function Read<T>(r: Result<T, Refusal>): Result<T, PromotionError> {
    match r
    case Ok(value) => Ok(value)
    case Err(error) => Err(Unreadable(error))
  }

  // The decision's bindings apart from the candidate digest it was found by.
  predicate MatchesDecision(c: Candidate, bound: Bound)
    requires bound.BoundCandidate?
  {
    BoundOf(c) == bound.(candidateDigest := OfCandidate(c))
  }

  // The evidence half: every document is read back and both builds are repeated.
  function CheckEvidence(inputs: Inputs, c: Candidate): Result<seq<Byte>, PromotionError> {
    var s := inputs.stores;
    var validation :- Read(GetValidation(s, c.validationDigest));
    var canary :- Read(GetCanary(s, c.canaryDigest));
    var manifest :- Read(GetManifest(s, c.manifestDigest));
    var payload :- Read(GetPayload(s, manifest));
    var envelope :- Read(GetEnvelope(s, c.envelopeDigest));
    var rebuilt :- Read(BuildValidation(c.envelopeDigest, envelope, c.manifestDigest, manifest, payload, validation.createdAt));
    if rebuilt != validation then Err(ValidationNotReproduced)
    else if c.scope.destination !in inputs.specs then Err(NotAllowlisted)
    else
      var spec := inputs.specs[c.scope.destination];
      if c.scope != Scope(spec.campaign, spec.destination) then Err(ScopeDiffers)
      else
        var again :- Read(BuildCandidate(c.validationDigest, validation, c.canaryDigest, canary, c.manifestDigest, manifest,
                                         c.scope, c.readyAt, spec.allowedRunners));
        if again != c then Err(CandidateNotReproduced) else Ok(payload)
  }

  function Clear(inputs: Inputs, candidateDigest: Digest): Result<Cleared, PromotionError> {
    var signed :- CheckDecision(inputs, candidateDigest);
    var candidate :- Read(GetCandidate(inputs.stores, candidateDigest));
    if !signed.decision.bound.BoundCandidate? || !MatchesDecision(candidate, signed.decision.bound) then Err(DiffersFromDecision)
    else
      var payload :- CheckEvidence(inputs, candidate);
      if inputs.targets != candidate.targets then Err(TargetDrift)
      else Ok(Cleared(candidateDigest, candidate, signed, payload))
  }

  function ReceiptOf(cleared: Cleared, now: int): Receipt {
    Receipt(cleared.candidateDigest, cleared.signed, cleared.signed.decision.eventDigest, BoundOf(cleared.candidate),
            cleared.candidate.scope.destination, Stamp(now))
  }

  predicate SameArtifact(r: Receipt, cleared: Cleared)
    requires r.bound.BoundCandidate?
  {
    r.destination == cleared.candidate.scope.destination && r.bound.artifactDigest == cleared.candidate.artifactDigest
  }

  type Seeds = map<(Destination, Digest), seq<Byte>>

  // The first receipt, in name order, that settles the promotion.
  function Settled(receipts: seq<Receipt>, cleared: Cleared): Option<Result<Receipt, PromotionError>>
    requires ReceiptsParse(receipts)
  {
    if receipts == [] then None
    else if receipts[0].candidateDigest == cleared.candidateDigest then Some(Ok(receipts[0]))
    else if SameArtifact(receipts[0], cleared) then Some(Err(AlreadyPublished))
    else Settled(receipts[1..], cleared)
  }

  predicate ReceiptsParse(receipts: seq<Receipt>) {
    forall r :: r in receipts ==> r.bound.BoundCandidate?
  }

  function SeedKey(cleared: Cleared): (Destination, Digest) {
    (cleared.candidate.scope.destination, cleared.candidate.artifactDigest)
  }

  // Publication under the lock never replaces a seed: other bytes under its name are an error.
  predicate SeedFits(seeds: Seeds, cleared: Cleared) {
    SeedKey(cleared) in seeds ==> seeds[SeedKey(cleared)] == cleared.payload
  }

  // Where a promotion dies; after a link the seed is visible, and inside the receipt's write a
  // torn receipt stays behind.
  datatype Death = Survives | BeforeLink | AfterLink | InReceipt

  datatype Outcome = Returned(result: Result<Receipt, PromotionError>) | Died

  // The files a promotion writes. Receipts are listed in name order, which is arbitrary here.
  class PromotionFiles {
    var receipts: seq<Receipt>
    var seeds: Seeds
    var receiptTorn: bool

    predicate Valid()
      reads this
    {
      ReceiptsParse(receipts)
    }

    constructor ()
      ensures Valid() && receipts == [] && seeds == map[] && !receiptTorn
    {
      receipts, seeds, receiptTorn := [], map[], false;
    }

    // Link a synced temporary to its name, or accept the same bytes already there.
    method Publish(cleared: Cleared) returns (ok: bool)
      modifies this`seeds
      ensures ok == SeedFits(old(seeds), cleared)
      ensures seeds == if ok then old(seeds)[SeedKey(cleared) := cleared.payload] else old(seeds)
    {
      var name := SeedKey(cleared);
      if name in seeds {
        ok := seeds[name] == cleared.payload;
        assert ok ==> seeds == seeds[name := cleared.payload];
      } else {
        seeds := seeds[name := cleared.payload];
        ok := true;
      }
    }

    // The locked part of promote.
    method Locked(cleared: Cleared, targets: Targets, now: int, death: Death) returns (r: Outcome)
      requires Valid()
      modifies this
      ensures Valid()
      ensures var next := AfterLocked(Files(old(receipts), old(seeds), old(receiptTorn)), cleared, targets, now, death);
              && r == next.1
              && receipts == next.0.receipts && seeds == next.0.seeds && receiptTorn == next.0.receiptTorn
    {
      if receiptTorn { return Returned(Err(ReceiptUnreadable)); }
      var i := 0;
      while i < |receipts|
        invariant 0 <= i <= |receipts|
        invariant Settled(receipts, cleared) == Settled(receipts[i..], cleared)
      {
        if receipts[i].candidateDigest == cleared.candidateDigest { return Returned(Ok(receipts[i])); }
        if SameArtifact(receipts[i], cleared) { return Returned(Err(AlreadyPublished)); }
        assert receipts[i..][1..] == receipts[i + 1..];
        i := i + 1;
      }
      if targets != cleared.candidate.targets { return Returned(Err(TargetDrift)); }
      if death == BeforeLink { return Died; }
      var ok := Publish(cleared);
      if !ok { return Returned(Err(WrongBytesAtDestination)); }
      if death == AfterLink { return Died; }
      if death == InReceipt {
        receiptTorn := true;
        return Died;
      }
      var receipt := ReceiptOf(cleared, now);
      receipts := receipts + [receipt];
      r := Returned(Ok(receipt));
    }
  }

  datatype Files = Files(receipts: seq<Receipt>, seeds: Seeds, receiptTorn: bool)

  function AfterLocked(f: Files, cleared: Cleared, targets: Targets, now: int, death: Death): (r: (Files, Outcome))
    requires ReceiptsParse(f.receipts)
    ensures ReceiptsParse(r.0.receipts)
  {
    if f.receiptTorn then (f, Returned(Err(ReceiptUnreadable))) else
    var settled := Settled(f.receipts, cleared);
    if settled.Some? then (f, Returned(settled.value))
    else if targets != cleared.candidate.targets then (f, Returned(Err(TargetDrift)))
    else if death == BeforeLink then (f, Died)
    else if !SeedFits(f.seeds, cleared) then (f, Returned(Err(WrongBytesAtDestination)))
    else
      var linked := f.(seeds := f.seeds[SeedKey(cleared) := cleared.payload]);
      match death
      case AfterLink => (linked, Died)
      case InReceipt => (linked.(receiptTorn := true), Died)
      case _ => (linked.(receipts := f.receipts + [ReceiptOf(cleared, now)]), Returned(Ok(ReceiptOf(cleared, now))))
  }

  function AfterClearing(f: Files, cleared: Result<Cleared, PromotionError>, targetsUnderLock: Targets, now: int, death: Death)
    : (r: (Files, Outcome))
    requires ReceiptsParse(f.receipts)
    ensures ReceiptsParse(r.0.receipts)
    ensures death == Survives ==> r.1.Returned?
  {
    if cleared.Err? then (f, Returned(Err(cleared.error))) else AfterLocked(f, cleared.value, targetsUnderLock, now, death)
  }

  // A whole promotion; the target authority is probed once before and once under the lock.
  function Promoted(f: Files, inputs: Inputs, candidateDigest: Digest, targetsUnderLock: Targets, death: Death): (Files, Outcome)
    requires ReceiptsParse(f.receipts)
  {
    AfterClearing(f, Clear(inputs, candidateDigest), targetsUnderLock, inputs.now, death)
  }
}
