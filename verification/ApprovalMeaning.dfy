// What projecting and importing do over runs, in clocks, digests and windows: exactly when a
// decision enters the archive, and exactly when a subject is challenged and for how long.
module ApprovalMeaning {
  import opened Approval
  import opened ApprovalRuns
  import opened Authority
  import opened Wrappers

  const FIVE_MINUTES := 300_000_000
  const TWO_DAYS := 172_800_000_000

  // ----- Importing -----

  // The decision answers the event: it repeats the event's challenge and bindings, gives the reason
  // of its action, was issued within the event's window and no more than five minutes ahead of the
  // clock, and that window is still open.
  predicate Answers(e: Event, d: Decision, now: int) {
    && OfEvent(e) == d.eventDigest && d.bound == e.bound
    && d.binding == e.challenge.binding && d.nonce == e.challenge.nonce && d.code == e.challenge.code
    && d.expiresAt == e.challenge.expiresAt
    && (d.action == ApproveOffline ==> d.reason == OperatorApproved)
    && (d.action == ApproveLive ==> d.reason == OperatorApprovedLive)
    && (d.action == Deny ==> d.reason == OperatorDenied)
    && e.createdAt <= d.issuedAt <= e.challenge.expiresAt
    && d.issuedAt <= now + FIVE_MINUTES
    && now <= e.challenge.expiresAt
  }

  predicate Decided(w: World, e: Event) {
    exists s :: s in w.archive && s.decision.eventDigest == OfEvent(e)
  }

  // The decision of an event on record that has none yet, signed with the key, in time.
  predicate Admitted(w: World, key: string, signed: Signed, now: int) {
    signed.key == key && exists e :: e in w.outbox && !Decided(w, e) && Answers(e, signed.decision, now)
  }

  lemma CheckedIsAnswered(e: Event, d: Decision, now: int)
    requires OfEvent(e) == d.eventDigest
    ensures CheckNew(e, d, now).Ok? <==> Answers(e, d, now)
  {
  }

  lemma {:induction false} FindsIt(outbox: seq<Event>, e: Event)
    requires e in outbox
    ensures FindEvent(outbox, OfEvent(e)) == Ok(e)
  {
    if outbox[0] != e { FindsIt(outbox[1..], e); }
  }

  lemma ImportMeans(w: World, key: string, signed: Signed, now: int)
    requires Good(w, key)
    ensures Step(w, key, Import(signed, now)) ==
            if Admitted(w, key, signed, now) then w.(archive := w.archive + [signed]) else w
  {
    hide Ordered, AtMostTwo, WellFormedOutbox, CheckNew, FindEvent, FirstForEvent, Answers;
    var digest := signed.decision.eventDigest;
    FirstForEventExact(w.archive, digest);
    FoundEventIsThere(w.outbox, digest);
    ArchiveVerifies(w, key);
    forall e | e in w.outbox && OfEvent(e) == digest
      ensures FindEvent(w.outbox, digest) == Ok(e)
      ensures CheckNew(e, signed.decision, now).Ok? <==> Answers(e, signed.decision, now)
    {
      FindsIt(w.outbox, e);
      CheckedIsAnswered(e, signed.decision, now);
    }
    forall e | e in w.outbox && Answers(e, signed.decision, now)
      ensures OfEvent(e) == digest
    {
      AnswerNames(e, signed.decision, now);
    }
    hide Good;
  }

  lemma AnswerNames(e: Event, d: Decision, now: int)
    requires Answers(e, d, now)
    ensures OfEvent(e) == d.eventDigest
  {
  }

  lemma ArchiveVerifies(w: World, key: string)
    requires Good(w, key)
    ensures AllVerify(w.archive, key)
  {
    hide Ordered, AtMostTwo, WellFormedOutbox;
    forall s | s in w.archive ensures s.key == key { assert Backed(w.outbox, key, s); }
  }

  // In every run an import archives exactly the admitted decisions and otherwise changes nothing.
  lemma ImportedExactly(key: string, actions: seq<Action>, signed: Signed, now: int)
    ensures
      var w := Run(Empty, key, actions);
      Run(Empty, key, actions + [Import(signed, now)]) ==
      if Admitted(w, key, signed, now) then w.(archive := w.archive + [signed]) else w
  {
    RunStep(key, actions, Import(signed, now));
    EveryRunIsGood(key, actions);
    hide Run, Good, Admitted;
    ImportMeans(Run(Empty, key, actions), key, signed, now);
  }

  // Whatever the action: an archive that gets longer got it from an import while the event's window
  // was open, of a decision issued no more than five minutes ahead of the clock.
  lemma ArchiveGrowsOnlyInTime(key: string, actions: seq<Action>, a: Action)
    requires Run(Empty, key, actions + [a]).archive != Run(Empty, key, actions).archive
    ensures
      var w := Run(Empty, key, actions);
      && a.Import?
      && Run(Empty, key, actions + [a]).archive == w.archive + [a.signed]
      && a.signed.decision.issuedAt - FIVE_MINUTES <= a.now
      && exists e :: e in w.outbox && OfEvent(e) == a.signed.decision.eventDigest && !Decided(w, e) && a.now <= e.challenge.expiresAt
  {
    RunStep(key, actions, a);
    hide Run, Decided;
    if a.Import? { ImportedExactly(key, actions, a.signed, a.now); }
  }

  // So an event that is undecided when its window closes stays undecided.
  lemma {:induction false} UndecidedAtExpiryStaysUndecided(key: string, actions: seq<Action>, more: seq<Action>, e: Event)
    requires !Decided(Run(Empty, key, actions), e)
    requires forall a :: a in more && a.Import? ==> a.now > e.challenge.expiresAt
    ensures !Decided(Run(Empty, key, actions + more), e)
    decreases |more|
  {
    hide Run;
    if more == [] {
      assert actions + more == actions;
    } else {
      var n := |more| - 1;
      var before, last := actions + more[..n], more[n];
      UndecidedAtExpiryStaysUndecided(key, actions, more[..n], e);
      assert actions + more == before + [last];
      if Run(Empty, key, before + [last]).archive != Run(Empty, key, before).archive {
        ArchiveGrowsOnlyInTime(key, before, last);
        assert last in more;
      }
    }
  }

  // Which actions may answer an event depends on what it is about, and each of them has an answer.
  lemma AnswerableExactly(e: Event, action: DecisionAction, now: int)
    requires e.createdAt <= now <= e.challenge.expiresAt
    ensures (exists d: Decision :: Answers(e, d, now) && d.action == action) <==>
            if e.bound.BoundEnvelope? then action == ApproveOffline || action == Deny
            else action == ApproveLive || action == Deny
  {
    if if e.bound.BoundEnvelope? then action == ApproveOffline || action == Deny else action == ApproveLive || action == Deny {
      var reason := if action == Deny then OperatorDenied else if action == ApproveLive then OperatorApprovedLive else OperatorApproved;
      var d: Decision := DecisionFields(OfEvent(e), e.bound, e.challenge.binding, e.challenge.nonce, e.challenge.code, action, reason,
                                        now, e.challenge.expiresAt);
      assert Answers(e, d, now);
    }
  }

  // ----- Projecting -----

  // The same envelope, or the same candidate.
  predicate SameTarget(a: Bound, b: Bound) {
    || (a.BoundEnvelope? && b.BoundEnvelope? && a.envelopeDigest == b.envelopeDigest)
    || (a.BoundCandidate? && b.BoundCandidate? && a.candidateDigest == b.candidateDigest)
  }

  function PriorChallenges(outbox: seq<Event>, bound: Bound): set<nat> {
    set i: nat | i < |outbox| && SameTarget(outbox[i].bound, bound)
  }

  // The subject is not one that waits for its candidate, and has no challenge but one that is over.
  predicate IsChallenged(outbox: seq<Event>, subject: Subject, now: int) {
    && !subject.skipped
    && |PriorChallenges(outbox, subject.bound)| <= 1
    && forall i :: i in PriorChallenges(outbox, subject.bound) ==> outbox[i].challenge.expiresAt <= now
  }

  // Created now and open for the time to live, both in whole seconds, bound to what it is about.
  function ChallengeOf(subject: Subject, now: int, ttl: int): Event {
    var created, expires := now / 1_000_000 * 1_000_000, (now + ttl) / 1_000_000 * 1_000_000;
    Event(created, subject.bound,
          Challenge(subject.nonce, subject.code, expires, OfBinding(subject.bound, subject.nonce, subject.code, expires)))
  }

  lemma PriorStep(outbox: seq<Event>, bound: Bound)
    requires outbox != []
    ensures var n := |outbox| - 1;
            var before := PriorChallenges(outbox[..n], bound);
            n !in before && PriorChallenges(outbox, bound) == if SameTarget(outbox[n].bound, bound) then before + {n} else before
  {
    hide SameTarget;
  }

  lemma {:induction false} ChallengesAreCounted(outbox: seq<Event>, bound: Bound)
    ensures |ChallengesOf(outbox, bound)| == |PriorChallenges(outbox, bound)|
  {
    if outbox == [] {
      assert PriorChallenges(outbox, bound) == {};
    } else {
      ChallengesAreCounted(outbox[..|outbox| - 1], bound);
      SameSubjectMeans(outbox[|outbox| - 1].bound, bound);
      hide SameSubject, SameTarget, PriorChallenges;
      PriorStep(outbox, bound);
    }
  }

  lemma SameSubjectMeans(a: Bound, b: Bound)
    ensures SameSubject(a, b) <==> SameTarget(a, b)
  {
  }

  lemma MayChallengeMeans(outbox: seq<Event>, subject: Subject, now: int)
    ensures MayChallenge(outbox, subject, now) <==> IsChallenged(outbox, subject, now)
  {
    var bound := subject.bound;
    var prior, indices := ChallengesOf(outbox, bound), PriorChallenges(outbox, bound);
    ChallengesAreCounted(outbox, bound);
    ChallengesOfMembers(outbox, bound);
    forall e: Event ensures SameSubject(e.bound, bound) <==> SameTarget(e.bound, bound) { SameSubjectMeans(e.bound, bound); }
    hide ChallengesOf, SameSubject, SameTarget;
    assert forall i :: i in indices ==> outbox[i] in prior;
    assert forall e :: e in prior ==> exists i :: i in indices && outbox[i] == e by {
      forall e | e in prior
        ensures exists i :: i in indices && outbox[i] == e
      {
        var i :| 0 <= i < |outbox| && outbox[i] == e;
        assert i in indices;
      }
    }
    if |prior| == 1 { assert prior == [prior[0]]; }
  }

  lemma NewEventMeans(subject: Subject, now: int, ttl: int)
    ensures NewEvent(subject, now, ttl) == ChallengeOf(subject, now, ttl)
  {
  }

  lemma OneProjected(outbox: seq<Event>, subject: Subject, now: int, ttl: int)
    ensures Projected(outbox, [subject], now, ttl) ==
            if MayChallenge(outbox, subject, now) then outbox + [NewEvent(subject, now, ttl)] else outbox
  {
    hide MayChallenge, NewEvent;
    assert [subject][..0] == [];
  }

  // In every run a subject is challenged exactly when the time to live is between five minutes and
  // two days and its one challenge, if any, is over; the new challenge is open from now on for that
  // time.
  lemma ChallengedExactly(key: string, actions: seq<Action>, subject: Subject, now: int, ttl: int)
    ensures
      var w := Run(Empty, key, actions);
      Run(Empty, key, actions + [Project([subject], now, ttl)]) ==
      if FIVE_MINUTES <= ttl <= TWO_DAYS && IsChallenged(w.outbox, subject, now)
      then w.(outbox := w.outbox + [ChallengeOf(subject, now, ttl)]) else w
  {
    var w := Run(Empty, key, actions);
    RunStep(key, actions, Project([subject], now, ttl));
    OneProjected(w.outbox, subject, now, ttl);
    MayChallengeMeans(w.outbox, subject, now);
    NewEventMeans(subject, now, ttl);
    hide Run, Projected, MayChallenge, IsChallenged, NewEvent, ChallengeOf;
  }

  // Projecting several subjects is projecting them one after another at the same time.
  lemma ProjectsOneByOne(key: string, actions: seq<Action>, subjects: seq<Subject>, subject: Subject, now: int, ttl: int)
    ensures Run(Empty, key, actions + [Project(subjects + [subject], now, ttl)]) ==
            Run(Empty, key, actions + [Project(subjects, now, ttl), Project([subject], now, ttl)])
  {
    var w := Run(Empty, key, actions);
    var first, second := Project(subjects, now, ttl), Project([subject], now, ttl);
    RunStep(key, actions, Project(subjects + [subject], now, ttl));
    RunStep(key, actions, first);
    RunStep(key, actions + [first], second);
    assert actions + [first] + [second] == actions + [first, second];
    hide Run, MayChallenge, NewEvent;
    assert (subjects + [subject])[..|subjects|] == subjects;
    OneProjected(Projected(w.outbox, subjects, now, ttl), subject, now, ttl);
  }
}
