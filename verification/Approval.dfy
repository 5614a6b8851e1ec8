// Approval challenges and their decisions: the event outbox a projector fills, and the archive
// that holds one terminal decision per event. Times are microseconds since an epoch.
module Approval {
  import opened Authority
  import opened Wrappers

  const SECOND := 1_000_000
  const MINUTE := 60 * SECOND
  const HOUR := 60 * MINUTE

  datatype DecisionAction = ApproveOffline | ApproveLive | Deny
  datatype Reason = OperatorApproved | OperatorApprovedLive | OperatorDenied

  datatype DecisionFields = DecisionFields(
    eventDigest: Digest, bound: Bound, binding: Digest, nonce: string, code: string,
    action: DecisionAction, reason: Reason, issuedAt: int, expiresAt: int)

  // Only a decision about a candidate can approve live execution, and it cannot approve less.
  predicate ActionFits(d: DecisionFields) {
    if d.bound.BoundEnvelope? then d.action != ApproveLive && d.reason != OperatorApprovedLive
    else d.action != ApproveOffline && d.reason != OperatorApproved
  }

  const DENIAL := DecisionFields(Raw(""), BoundEnvelope(Raw(""), Targets(Raw(""), Raw(""), "")), Raw(""), "", "", Deny,
                                 OperatorDenied, 0, 0)

  type Decision = d: DecisionFields | ActionFits(d) witness DENIAL

  // A signature is the key it was made with: it verifies under that key and no other.
  datatype Signed = Signed(decision: Decision, key: string)

  datatype DecisionError =
    | SignatureInvalid | AlreadyDecided | UnknownEvent | KindMismatch | BindingMismatch | ReasonMismatch
    | IssuedOutsideWindow | Expired

  // ---- Projection of challenges ----

  // Timestamps are written with whole seconds.
  function Stamp(t: int): int {
    t - t % SECOND
  }

  predicate SameSubject(a: Bound, b: Bound) {
    match a
    case BoundEnvelope(_, _) => b.BoundEnvelope? && a.envelopeDigest == b.envelopeDigest
    case BoundCandidate(_, _, _, _, _, _, _, _, _) => b.BoundCandidate? && a.candidateDigest == b.candidateDigest
  }

  // A stored envelope or candidate, with the nonce and code drawn for it. Envelopes that carry
  // compiled artifacts are skipped: they wait for their candidate.
  datatype Subject = Subject(bound: Bound, skipped: bool, nonce: string, code: string)

  function BoundOf(c: Candidate): Bound {
    BoundCandidate(OfCandidate(c), c.envelopeDigest, c.manifestDigest, c.artifactDigest, c.artifactSize, c.validationDigest,
                   c.canaryDigest, c.targets, c.scope)
  }

  function SubjectOfCandidate(c: Candidate, nonce: string, code: string): Subject {
    Subject(BoundOf(c), false, nonce, code)
  }

  function ChallengesOf(outbox: seq<Event>, bound: Bound): seq<Event> {
    if outbox == [] then [] else
    var last := outbox[|outbox| - 1];
    ChallengesOf(outbox[..|outbox| - 1], bound) + if SameSubject(last.bound, bound) then [last] else []
  }

  // No challenge yet, or exactly one that has expired.
  predicate MayChallenge(outbox: seq<Event>, subject: Subject, now: int) {
    var prior := ChallengesOf(outbox, subject.bound);
    !subject.skipped && (prior == [] || (|prior| == 1 && prior[0].challenge.expiresAt <= now))
  }

  function NewEvent(subject: Subject, now: int, ttl: int): Event {
    var expires := Stamp(now + ttl);
    Event(Stamp(now), subject.bound, Challenge(subject.nonce, subject.code, expires,
                                               OfBinding(subject.bound, subject.nonce, subject.code, expires)))
  }

  function Projected(outbox: seq<Event>, subjects: seq<Subject>, now: int, ttl: int): seq<Event> {
    if subjects == [] then outbox else
    var before := Projected(outbox, subjects[..|subjects| - 1], now, ttl);
    var subject := subjects[|subjects| - 1];
    if MayChallenge(before, subject, now) then before + [NewEvent(subject, now, ttl)] else before
  }

  predicate TtlOk(ttl: int) {
    5 * MINUTE <= ttl <= 48 * HOUR
  }

  lemma {:induction false} ChallengesOfMembers(outbox: seq<Event>, bound: Bound)
    ensures forall e :: e in ChallengesOf(outbox, bound) <==> e in outbox && SameSubject(e.bound, bound)
  {
    if outbox != [] {
      var n := |outbox| - 1;
      ChallengesOfMembers(outbox[..n], bound);
      assert outbox == outbox[..n] + [outbox[n]];
    }
  }

  // A challenge that may be issued differs from every event on record: its predecessor has
  // expired and it has not.
  lemma ANewChallengeIsNew(outbox: seq<Event>, subject: Subject, now: int, ttl: int)
    requires TtlOk(ttl) && MayChallenge(outbox, subject, now)
    ensures NewEvent(subject, now, ttl) !in outbox
  {
    ChallengesOfMembers(outbox, subject.bound);
    var event := NewEvent(subject, now, ttl);
    assert event in outbox <==> event in ChallengesOf(outbox, subject.bound);
  }

  // The challenge a subject gets, if any.
  function Issued(outbox: seq<Event>, subject: Subject, now: int, ttl: int): seq<Event> {
    if MayChallenge(outbox, subject, now) then [NewEvent(subject, now, ttl)] else []
  }

  lemma ProjectedStep(outbox: seq<Event>, subjects: seq<Subject>, i: nat, now: int, ttl: int)
    requires i < |subjects|
    ensures
      var before := Projected(outbox, subjects[..i], now, ttl);
      Projected(outbox, subjects[..i + 1], now, ttl) == before + Issued(before, subjects[i], now, ttl)
  {
    hide MayChallenge, NewEvent;
    assert subjects[..i + 1][..i] == subjects[..i];
  }

  lemma Regroup(a: seq<Event>, b: seq<Event>, c: seq<Event>)
    ensures a + b + c == a + (b + c)
  {
  }

  class EventOutbox {
    var events: seq<Event>

    constructor ()
      ensures events == []
    {
      events := [];
    }

    // Content-addressed: putting an event that is there changes nothing.
    method Put(event: Event)
      modifies this
      ensures events == if event in old(events) then old(events) else old(events) + [event]
    {
      if event !in events { events := events + [event]; }
    }

    method ProjectOne(subject: Subject, now: int, ttl: int) returns (issued: seq<Event>)
      requires TtlOk(ttl)
      modifies this
      ensures issued == Issued(old(events), subject, now, ttl) && events == old(events) + issued
    {
      issued := [];
      if MayChallenge(events, subject, now) {
        var event := NewEvent(subject, now, ttl);
        ANewChallengeIsNew(events, subject, now, ttl);
        hide MayChallenge, NewEvent;
        Put(event);
        issued := [event];
      }
    }

    // project_quarantine and project_execution_ready: one loop over the stored subjects.
    method Project(subjects: seq<Subject>, now: int, ttl: int) returns (r: Option<seq<Event>>)
      modifies this
      ensures r.Some? <==> TtlOk(ttl)
      ensures events == if TtlOk(ttl) then Projected(old(events), subjects, now, ttl) else old(events)
      ensures r.Some? ==> events == old(events) + r.value
    {
      if !TtlOk(ttl) { return None; }
      var projected: seq<Event> := [];
      var i := 0;
      ghost var start := events;
      assert Projected(start, subjects[..0], now, ttl) == start;
      hide Projected, Issued;
      while i < |subjects|
        invariant 0 <= i <= |subjects|
        invariant events == Projected(start, subjects[..i], now, ttl)
        invariant events == start + projected
      {
        ProjectedStep(start, subjects, i, now, ttl);
        var issued := ProjectOne(subjects[i], now, ttl);
        Regroup(start, projected, issued);
        projected := projected + issued;
        i := i + 1;
      }
      assert subjects[..i] == subjects;
      r := Some(projected);
    }
  }

  // ---- The decision archive ----

  function FindEvent(outbox: seq<Event>, digest: Digest): Result<Event, DecisionError> {
    if outbox == [] then Err(UnknownEvent)
    else if OfEvent(outbox[0]) == digest then Ok(outbox[0])
    else FindEvent(outbox[1..], digest)
  }

  function ExpectedReason(d: Decision): Reason {
    match d.action
    case ApproveOffline => OperatorApproved
    case ApproveLive => OperatorApprovedLive
    case Deny => OperatorDenied
  }

  // The bindings and the freshness of a decision that is not archived yet.
  function CheckNew(event: Event, d: Decision, now: int): Result<(), DecisionError> {
    if event.bound.BoundEnvelope? != d.bound.BoundEnvelope? then Err(KindMismatch)
    else if d.bound != event.bound
         || d.binding != event.challenge.binding
         || d.nonce != event.challenge.nonce
         || d.code != event.challenge.code
         || d.expiresAt != event.challenge.expiresAt then Err(BindingMismatch)
    else if d.reason != ExpectedReason(d) then Err(ReasonMismatch)
    else if d.issuedAt < event.createdAt || d.issuedAt > now + 5 * MINUTE then Err(IssuedOutsideWindow)
    else if now > d.expiresAt || d.issuedAt > d.expiresAt then Err(Expired)
    else Ok(())
  }

  // The first archived decision of the same event settles an import.
  function FirstForEvent(records: seq<Signed>, digest: Digest): Option<Signed> {
    if records == [] then None
    else if records[0].decision.eventDigest == digest then Some(records[0])
    else FirstForEvent(records[1..], digest)
  }

  predicate AllVerify(records: seq<Signed>, key: string) {
    forall s :: s in records ==> s.key == key
  }

  // The archive after an import.
  function Imported(records: seq<Signed>, outbox: seq<Event>, key: string, signed: Signed, now: int)
    : Result<seq<Signed>, DecisionError>
  {
    if signed.key != key || !AllVerify(records, key) then Err(SignatureInvalid)
    else
      var existing := FirstForEvent(records, signed.decision.eventDigest);
      if existing.Some? then (if existing.value == signed then Ok(records) else Err(AlreadyDecided))
      else
        var event :- FindEvent(outbox, signed.decision.eventDigest);
        var _ :- CheckNew(event, signed.decision, now);
        Ok(records + [signed])
  }

  class DecisionArchive {
    const key: string
    var records: seq<Signed>

    constructor (key: string)
      ensures this.key == key && records == []
    {
      this.key := key;
      records := [];
    }

    method FindEventIn(outbox: seq<Event>, digest: Digest) returns (r: Result<Event, DecisionError>)
      ensures r == FindEvent(outbox, digest)
    {
      var i := 0;
      while i < |outbox|
        invariant 0 <= i <= |outbox|
        invariant FindEvent(outbox, digest) == FindEvent(outbox[i..], digest)
      {
        if OfEvent(outbox[i]) == digest { return Ok(outbox[i]); }
        assert outbox[i..][1..] == outbox[i + 1..];
        i := i + 1;
      }
      r := Err(UnknownEvent);
    }

    method ImportSigned(outbox: seq<Event>, signed: Signed, now: int) returns (r: Result<(), DecisionError>)
      modifies this`records
      ensures r.Ok? == Imported(old(records), outbox, key, signed, now).Ok?
      ensures r.Ok? ==> records == Imported(old(records), outbox, key, signed, now).value
      ensures r.Err? ==> r.error == Imported(old(records), outbox, key, signed, now).error && records == old(records)
    {
      if signed.key != key { return Err(SignatureInvalid); }
      if !AllVerify(records, key) { return Err(SignatureInvalid); }
      var i := 0;
      while i < |records|
        invariant 0 <= i <= |records|
        invariant FirstForEvent(records, signed.decision.eventDigest) == FirstForEvent(records[i..], signed.decision.eventDigest)
      {
        if records[i].decision.eventDigest == signed.decision.eventDigest {
          if records[i] == signed { return Ok(()); }
          return Err(AlreadyDecided);
        }
        assert records[i..][1..] == records[i + 1..];
        i := i + 1;
      }
      var event :- FindEventIn(outbox, signed.decision.eventDigest);
      var _ :- CheckNew(event, signed.decision, now);
      records := records + [signed];
      r := Ok(());
    }
  }
}
