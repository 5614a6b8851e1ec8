// The approval lifecycle over any serial run of projector and importer, with arbitrary clock
// readings, subjects and decisions.
module ApprovalRuns {
  import opened Approval
  import opened Authority
  import opened Wrappers

  datatype World = World(outbox: seq<Event>, archive: seq<Signed>)

  datatype Action =
    | Project(subjects: seq<Subject>, now: int, ttl: int)
    | Import(signed: Signed, now: int)

  const Empty := World([], [])

  function Step(w: World, key: string, a: Action): World {
    match a
    case Project(subjects, now, ttl) =>
      if TtlOk(ttl) then w.(outbox := Projected(w.outbox, subjects, now, ttl)) else w
    case Import(signed, now) =>
      var r := Imported(w.archive, w.outbox, key, signed, now);
      if r.Ok? then w.(archive := r.value) else w
  }

  function Run(w: World, key: string, actions: seq<Action>): World {
    if actions == [] then w else Step(Run(w, key, actions[..|actions| - 1]), key, actions[|actions| - 1])
  }

  // A later challenge of the same subject starts when the earlier one is over.
  predicate Ordered(outbox: seq<Event>) {
    forall i, j :: 0 <= i < j < |outbox| && SameSubject(outbox[i].bound, outbox[j].bound) ==>
      outbox[i].challenge.expiresAt <= outbox[j].createdAt
  }

  predicate AtMostTwo(outbox: seq<Event>) {
    forall i, j, k :: 0 <= i < j < k < |outbox| && SameSubject(outbox[i].bound, outbox[j].bound) ==>
      !SameSubject(outbox[i].bound, outbox[k].bound)
  }

  predicate WellFormedOutbox(outbox: seq<Event>) {
    forall e :: e in outbox ==>
      && EventParses(e) && e.createdAt % SECOND == 0 && e.challenge.expiresAt % SECOND == 0
      && e.createdAt < e.challenge.expiresAt
  }

  // An archived decision was signed, refers to an event of the outbox, carries exactly that
  // event's bindings and was issued within its window.
  predicate Backed(outbox: seq<Event>, key: string, s: Signed) {
    var d := s.decision;
    s.key == key &&
    exists e :: e in outbox && OfEvent(e) == d.eventDigest && d.bound == e.bound && d.binding == e.challenge.binding
             && d.nonce == e.challenge.nonce && d.code == e.challenge.code && d.expiresAt == e.challenge.expiresAt
             && d.reason == ExpectedReason(d) && e.createdAt <= d.issuedAt <= d.expiresAt
  }

  predicate ArchiveOk(w: World, key: string) {
    && (forall s :: s in w.archive ==> Backed(w.outbox, key, s))
    && (forall i, j :: 0 <= i < j < |w.archive| ==> w.archive[i].decision.eventDigest != w.archive[j].decision.eventDigest)
  }

  predicate Good(w: World, key: string) {
    Ordered(w.outbox) && AtMostTwo(w.outbox) && WellFormedOutbox(w.outbox) && ArchiveOk(w, key)
  }

  lemma {:induction false} ChallengesCountPairs(outbox: seq<Event>, bound: Bound)
    ensures ChallengesOf(outbox, bound) == [] ==> forall i :: 0 <= i < |outbox| ==> !SameSubject(outbox[i].bound, bound)
    ensures |ChallengesOf(outbox, bound)| == 1 ==>
              forall i, j :: 0 <= i < j < |outbox| && SameSubject(outbox[i].bound, bound) ==> !SameSubject(outbox[j].bound, bound)
  {
    hide SameSubject;
    if outbox != [] {
      var n := |outbox| - 1;
      ChallengesCountPairs(outbox[..n], bound);
      ChallengesStep(outbox, bound);
      hide ChallengesOf;
      assert forall i :: 0 <= i < n ==> outbox[i] == outbox[..n][i];
    }
  }

  lemma ChallengesStep(outbox: seq<Event>, bound: Bound)
    requires outbox != []
    ensures var n := |outbox| - 1;
            ChallengesOf(outbox, bound) ==
            ChallengesOf(outbox[..n], bound) + if SameSubject(outbox[n].bound, bound) then [outbox[n]] else []
  {
    hide SameSubject;
  }

  lemma SubjectOfChallenge(outbox: seq<Event>, bound: Bound, i: nat)
    requires i < |outbox| && SameSubject(outbox[i].bound, bound)
    ensures outbox[i] in ChallengesOf(outbox, bound)
  {
    hide ChallengesOf;
    ChallengesOfMembers(outbox, bound);
  }

  lemma NewEventIsOrdered(outbox: seq<Event>, subject: Subject, now: int, ttl: int)
    requires TtlOk(ttl) && MayChallenge(outbox, subject, now) && Ordered(outbox) && WellFormedOutbox(outbox)
    ensures Ordered(outbox + [NewEvent(subject, now, ttl)])
  {
    hide ChallengesOf, SameSubject;
    var event := NewEvent(subject, now, ttl);
    forall i | 0 <= i < |outbox| && SameSubject(outbox[i].bound, event.bound)
      ensures outbox[i].challenge.expiresAt <= now
    {
      SubjectOfChallenge(outbox, subject.bound, i);
    }
    ExpiryIsStamped(outbox, now);
  }

  // Stamps are whole seconds: what has expired by now has expired by the stamp of now.
  lemma ExpiryIsStamped(outbox: seq<Event>, now: int)
    ensures forall e :: e in outbox && e.challenge.expiresAt <= now && e.challenge.expiresAt % SECOND == 0 ==>
              e.challenge.expiresAt <= Stamp(now)
  {
  }

  lemma NewEventIsSecond(outbox: seq<Event>, subject: Subject, now: int, ttl: int)
    requires MayChallenge(outbox, subject, now) && AtMostTwo(outbox)
    ensures AtMostTwo(outbox + [NewEvent(subject, now, ttl)])
  {
    ChallengesCountPairs(outbox, subject.bound);
    hide ChallengesOf;
    SubjectsCompose(outbox, subject.bound);
  }

  lemma SubjectsCompose(outbox: seq<Event>, bound: Bound)
    ensures forall i, j :: 0 <= i < j < |outbox| && SameSubject(outbox[i].bound, outbox[j].bound) && SameSubject(outbox[i].bound, bound) ==>
              SameSubject(outbox[j].bound, bound)
  {
  }

  lemma OneChallengeAdded(outbox: seq<Event>, subject: Subject, now: int, ttl: int)
    requires TtlOk(ttl) && MayChallenge(outbox, subject, now)
    requires Ordered(outbox) && AtMostTwo(outbox) && WellFormedOutbox(outbox)
    ensures var next := outbox + [NewEvent(subject, now, ttl)];
            Ordered(next) && AtMostTwo(next) && WellFormedOutbox(next)
  {
    NewEventIsOrdered(outbox, subject, now, ttl);
    NewEventIsSecond(outbox, subject, now, ttl);
    hide Ordered, AtMostTwo, MayChallenge;
  }

  lemma {:induction false} ProjectionKeeps(outbox: seq<Event>, subjects: seq<Subject>, now: int, ttl: int)
    requires TtlOk(ttl)
    requires Ordered(outbox) && AtMostTwo(outbox) && WellFormedOutbox(outbox)
    ensures var next := Projected(outbox, subjects, now, ttl);
            Ordered(next) && AtMostTwo(next) && WellFormedOutbox(next) && outbox <= next
    decreases |subjects|
  {
    if subjects != [] {
      hide Ordered, AtMostTwo, WellFormedOutbox;
      var n := |subjects| - 1;
      ProjectionKeeps(outbox, subjects[..n], now, ttl);
      var before := Projected(outbox, subjects[..n], now, ttl);
      if MayChallenge(before, subjects[n], now) { OneChallengeAdded(before, subjects[n], now, ttl); }
    }
  }

  lemma {:induction false} FoundEventIsThere(outbox: seq<Event>, digest: Digest)
    ensures FindEvent(outbox, digest).Ok? ==>
              FindEvent(outbox, digest).value in outbox && OfEvent(FindEvent(outbox, digest).value) == digest
    ensures (exists e :: e in outbox && OfEvent(e) == digest) ==> FindEvent(outbox, digest).Ok?
  {
    if outbox != [] {
      FoundEventIsThere(outbox[1..], digest);
      assert outbox == [outbox[0]] + outbox[1..];
    }
  }

  lemma {:induction false} FirstForEventExact(records: seq<Signed>, digest: Digest)
    ensures var r := FirstForEvent(records, digest);
            (r.Some? ==> r.value in records && r.value.decision.eventDigest == digest)
            && (r.None? ==> forall s :: s in records ==> s.decision.eventDigest != digest)
  {
    if records != [] {
      FirstForEventExact(records[1..], digest);
      assert records == [records[0]] + records[1..];
    }
  }

  // What an import adds is backed by the event it was checked against.
  lemma ImportedIsBacked(w: World, key: string, signed: Signed, now: int)
    requires Imported(w.archive, w.outbox, key, signed, now).Ok?
    requires FirstForEvent(w.archive, signed.decision.eventDigest).None?
    ensures Imported(w.archive, w.outbox, key, signed, now) == Ok(w.archive + [signed]) && Backed(w.outbox, key, signed)
  {
    FoundEventIsThere(w.outbox, signed.decision.eventDigest);
    hide FindEvent;
    var event := FindEvent(w.outbox, signed.decision.eventDigest).value;
    assert CheckNew(event, signed.decision, now).Ok?;
  }

  lemma SettledImportKeeps(w: World, key: string, signed: Signed, now: int)
    requires FirstForEvent(w.archive, signed.decision.eventDigest).Some?
    ensures Step(w, key, Import(signed, now)) == w
  {
  }

  lemma ImportKeeps(w: World, key: string, signed: Signed, now: int)
    requires Good(w, key)
    ensures Good(Step(w, key, Import(signed, now)), key)
  {
    hide Backed, Ordered, AtMostTwo, WellFormedOutbox, FirstForEvent;
    FirstForEventExact(w.archive, signed.decision.eventDigest);
    if FirstForEvent(w.archive, signed.decision.eventDigest).Some? {
      SettledImportKeeps(w, key, signed, now);
    } else if Imported(w.archive, w.outbox, key, signed, now).Ok? {
      ImportedIsBacked(w, key, signed, now);
      hide Imported;
    }
  }

  lemma BackedStays(outbox: seq<Event>, later: seq<Event>, key: string, s: Signed)
    requires Backed(outbox, key, s) && outbox <= later
    ensures Backed(later, key, s)
  {
    assert forall e :: e in outbox ==> e in later;
  }

  lemma StepGood(w: World, key: string, a: Action)
    requires Good(w, key)
    ensures Good(Step(w, key, a), key)
  {
    match a
    case Project(subjects, now, ttl) =>
      if TtlOk(ttl) {
        ProjectionKeeps(w.outbox, subjects, now, ttl);
        hide Ordered, AtMostTwo, WellFormedOutbox, Backed;
        forall s | s in w.archive ensures Backed(Projected(w.outbox, subjects, now, ttl), key, s) {
          BackedStays(w.outbox, Projected(w.outbox, subjects, now, ttl), key, s);
        }
      }
    case Import(signed, now) => ImportKeeps(w, key, signed, now);
  }

  lemma {:induction false} EveryRunIsGood(key: string, actions: seq<Action>)
    ensures Good(Run(Empty, key, actions), key)
  {
    if actions != [] {
      hide Good, Step;
      EveryRunIsGood(key, actions[..|actions| - 1]);
      StepGood(Run(Empty, key, actions[..|actions| - 1]), key, actions[|actions| - 1]);
    }
  }

  // Each envelope or candidate is challenged at most twice, and never twice at once: the second
  // challenge is created no earlier than the first expires.
  lemma AtMostOneReissue(key: string, actions: seq<Action>, i: nat, j: nat)
    requires var outbox := Run(Empty, key, actions).outbox;
             i < j < |outbox| && SameSubject(outbox[i].bound, outbox[j].bound)
    ensures var outbox := Run(Empty, key, actions).outbox;
            && outbox[i].challenge.expiresAt <= outbox[j].createdAt
            && forall k :: 0 <= k < |outbox| && SameSubject(outbox[i].bound, outbox[k].bound) ==> k == i || k == j
  {
    EveryRunIsGood(key, actions);
  }

  // An event has at most one archived decision, and it is the event's own.
  lemma OneBackedDecisionPerEvent(key: string, actions: seq<Action>, i: nat)
    requires i < |Run(Empty, key, actions).archive|
    ensures var w := Run(Empty, key, actions);
            && Backed(w.outbox, key, w.archive[i])
            && forall j :: 0 <= j < |w.archive| && w.archive[j].decision.eventDigest == w.archive[i].decision.eventDigest ==> j == i
  {
    EveryRunIsGood(key, actions);
  }

  // Importing an archived decision again succeeds at every later time and changes nothing; any
  // other decision of the same event is refused.
  lemma ReimportSettled(key: string, actions: seq<Action>, i: nat, signed: Signed, now: int)
    requires var w := Run(Empty, key, actions);
             i < |w.archive| && w.archive[i].decision.eventDigest == signed.decision.eventDigest && signed.key == key
    ensures var w := Run(Empty, key, actions);
            Imported(w.archive, w.outbox, key, signed, now) == if signed == w.archive[i] then Ok(w.archive) else Err(AlreadyDecided)
  {
    var w := Run(Empty, key, actions);
    EveryRunIsGood(key, actions);
    FirstForEventExact(w.archive, signed.decision.eventDigest);
    assert forall s :: s in w.archive ==> Backed(w.outbox, key, s);
  }

  // The projector does not look at decisions: a subject whose only challenge was answered is
  // challenged again once that challenge's time is over. The new challenge has no decision, and any
  // decision that fits it is archived beside the first.
  lemma AnsweredChallengeIsReissued(key: string, actions: seq<Action>, i: nat, subject: Subject, now: int, ttl: int,
                                    second: Signed, later: int)
    requires var w := Run(Empty, key, actions);
             var prior := ChallengesOf(w.outbox, subject.bound);
             && i < |w.archive| && |prior| == 1 && w.archive[i].decision.eventDigest == OfEvent(prior[0])
             && TtlOk(ttl) && !subject.skipped && prior[0].challenge.expiresAt <= now
    requires var event := NewEvent(subject, now, ttl);
             second.key == key && second.decision.eventDigest == OfEvent(event) && CheckNew(event, second.decision, later).Ok?
    ensures var w := Run(Empty, key, actions);
            var event := NewEvent(subject, now, ttl);
            var reissued := Run(Empty, key, actions + [Project([subject], now, ttl)]);
            var answered := Run(Empty, key, actions + [Project([subject], now, ttl), Import(second, later)]);
            && reissued == World(w.outbox + [event], w.archive)
            && FirstForEvent(reissued.archive, OfEvent(event)) == None
            && answered == World(w.outbox + [event], w.archive + [second])
  {
    hide Run, ChallengesOf, CheckNew, NewEvent, Backed, Good, Projected, MayChallenge;
    var w := Run(Empty, key, actions);
    var event := NewEvent(subject, now, ttl);
    var project, answer := Project([subject], now, ttl), Import(second, later);
    RunStep(key, actions, project);
    RunStep(key, actions + [project], answer);
    assert actions + [project] + [answer] == actions + [project, answer];
    ReissueStep(w.outbox, subject, now, ttl);
    UndecidedIsNew(key, actions, event);
    FoundAtEnd(w.outbox, event);
  }

  lemma RunStep(key: string, actions: seq<Action>, a: Action)
    ensures Run(Empty, key, actions + [a]) == Step(Run(Empty, key, actions), key, a)
  {
    hide Step;
    assert (actions + [a])[..|actions|] == actions;
  }

  lemma ReissueStep(outbox: seq<Event>, subject: Subject, now: int, ttl: int)
    requires TtlOk(ttl) && !subject.skipped
    requires |ChallengesOf(outbox, subject.bound)| == 1 && ChallengesOf(outbox, subject.bound)[0].challenge.expiresAt <= now
    ensures Projected(outbox, [subject], now, ttl) == outbox + [NewEvent(subject, now, ttl)]
    ensures NewEvent(subject, now, ttl) !in outbox
  {
    ANewChallengeIsNew(outbox, subject, now, ttl);
    hide NewEvent, ChallengesOf;
    assert [subject][..0] == [];
  }

  // In a reachable archive an event that is not in the outbox has no decision.
  lemma UndecidedIsNew(key: string, actions: seq<Action>, event: Event)
    requires event !in Run(Empty, key, actions).outbox
    ensures AllVerify(Run(Empty, key, actions).archive, key)
    ensures FirstForEvent(Run(Empty, key, actions).archive, OfEvent(event)) == None
  {
    hide Ordered, AtMostTwo, WellFormedOutbox, Run, FirstForEvent;
    var w := Run(Empty, key, actions);
    EveryRunIsGood(key, actions);
    FirstForEventExact(w.archive, OfEvent(event));
    assert forall s :: s in w.archive ==> Backed(w.outbox, key, s);
  }

  lemma {:induction false} FoundAtEnd(outbox: seq<Event>, event: Event)
    requires event !in outbox
    ensures FindEvent(outbox + [event], OfEvent(event)) == Ok(event)
  {
    if outbox == [] {
      assert outbox + [event] == [event];
    } else {
      assert (outbox + [event])[1..] == outbox[1..] + [event];
      FoundAtEnd(outbox[1..], event);
    }
  }
}
