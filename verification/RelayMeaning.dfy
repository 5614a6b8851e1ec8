// What the relay's single statements add up to: a delivery and a decision that nothing disturbs,
// each as one transition, and whom the monthly reserve is kept for.
module RelayMeaning {
  import opened Relay
  import opened RelaySafety
  import opened Wrappers

  // ----- Whom the reserve is kept for -----

  // Events that may use all 200 attempts of a month; the others stop at 180.
  predicate Urgent(kind: Kind) {
    || kind.ProposalQuarantined? || kind.ExecutionReady?
    || kind == CrashTriage(true) || kind == BudgetThreshold(true)
  }

  predicate Routine(kind: Kind) {
    kind == Informational || kind == CrashTriage(false) || kind == BudgetThreshold(false)
  }

  lemma UrgentOrRoutine(event: Event)
    ensures Urgent(event.kind) <==> !Routine(event.kind)
    ensures IsPriority(event) <==> Urgent(event.kind)
  {
  }

  function AttemptsOf(attempts: seq<Attempt>, month: MonthKey): set<nat> {
    set i: nat | i < |attempts| && attempts[i].month == month
  }

  function RoutineAttemptsOf(attempts: seq<Attempt>, month: MonthKey): set<nat> {
    set i: nat | i < |attempts| && attempts[i].month == month && Routine(attempts[i].event.kind)
  }

  lemma {:induction false} AttemptsAreCounted(attempts: seq<Attempt>, month: MonthKey)
    ensures AttemptsIn(attempts, month, false) == |AttemptsOf(attempts, month)|
  {
    if attempts == [] {
      assert AttemptsOf(attempts, month) == {};
    } else {
      var n := |attempts| - 1;
      AttemptsAreCounted(attempts[..n], month);
      var before := AttemptsOf(attempts[..n], month);
      assert AttemptsOf(attempts, month) == if attempts[n].month == month then before + {n} else before;
      assert n !in before;
    }
  }

  lemma {:induction false} RoutineAttemptsAreCounted(attempts: seq<Attempt>, month: MonthKey)
    ensures AttemptsIn(attempts, month, true) == |RoutineAttemptsOf(attempts, month)|
  {
    hide Routine, IsPriority;
    if attempts == [] {
      assert RoutineAttemptsOf(attempts, month) == {};
    } else {
      var n := |attempts| - 1;
      var last := attempts[n];
      RoutineAttemptsAreCounted(attempts[..n], month);
      UrgentOrRoutine(last.event);
      hide Urgent;
      var before := RoutineAttemptsOf(attempts[..n], month);
      assert RoutineAttemptsOf(attempts, month) ==
             if last.month == month && Routine(last.event.kind) then before + {n} else before;
      assert n !in before;
    }
  }

  // In every run a month has at most 200 attempts, and at most 180 for routine events.
  lemma ReserveIsForUrgentEvents(actions: seq<Action>, month: MonthKey)
    ensures |AttemptsOf(Run(Empty, actions).attempts, month)| <= 200
    ensures |RoutineAttemptsOf(Run(Empty, actions).attempts, month)| <= 180
  {
    var w := Run(Empty, actions);
    EveryRunIsSafe(actions);
    hide Run;
    assert MonthOk(w, month);
    AttemptsAreCounted(w.attempts, month);
    RoutineAttemptsAreCounted(w.attempts, month);
  }

  // In every run an urgent event is refused only with 200 attempts in the month, a routine one only
  // from 180 on.
  lemma RefusedOnlyAtTheLimit(actions: seq<Action>, i: nat, event: Event, month: MonthKey)
    requires var w := Run(Empty, actions); i < |w.requests| && w.requests[i] == Answered(event, Refused(month))
    ensures Urgent(event.kind) ==> |AttemptsOf(Run(Empty, actions).attempts, month)| == 200
    ensures Routine(event.kind) ==> 180 <= |AttemptsOf(Run(Empty, actions).attempts, month)|
  {
    var w := Run(Empty, actions);
    EveryRunIsSafe(actions);
    ReserveIsForUrgentEvents(actions, month);
    hide Run;
    assert MonthOk(w, month) && HolderOk(w, w.requests[i]) && Evidence(w, w.requests[i]);
    AttemptsAreCounted(w.attempts, month);
    RoutineAttemptsAreCounted(w.attempts, month);
    UrgentOrRoutine(event);
  }

  // In every run a healthy counting statement lets the event through exactly below its limit.
  lemma CountsExactlyBelowTheLimit(actions: seq<Action>, r: nat, event: Event, known: bool, month: MonthKey, env: Environment)
    requires var w := Run(Empty, actions); r < |w.requests| && w.requests[r] == Counting(event, known, month)
    requires env.fault == Healthy
    ensures
      var w, next := Run(Empty, actions), Run(Empty, actions + [Advance(r, env)]);
      && |next.requests| == |w.requests|
      && next.requests[r] == if |AttemptsOf(w.attempts, month)| < (if Urgent(event.kind) then 200 else 180)
                             then Sending(event, known, month) else Refusing(event, month)
  {
    var w := Run(Empty, actions);
    assert (actions + [Advance(r, env)])[..|actions|] == actions;
    EveryRunIsSafe(actions);
    assert MonthOk(w, month);
    AttemptsAreCounted(w.attempts, month);
    UrgentOrRoutine(event);
    assert AttemptLimit(event) == if Urgent(event.kind) then 200 else 180;
    hide Safe, MonthOk, IsPriority, Urgent, AttemptsIn, AttemptsOf, AttemptLimit;
    assert CountOf(w, month) == |AttemptsOf(w.attempts, month)| by { assert MonthCounted(w, month); }
  }

  predicate MonthCounted(w: World, month: MonthKey) {
    CountOf(w, month) == AttemptsIn(w.attempts, month, false)
  }

  // ----- An undisturbed request -----

  // The request at r takes n steps in the same environment.
  ghost function Onward(w: World, r: nat, env: Environment, n: nat): World
    decreases n
  {
    if n == 0 then w else Onward(Step(w, Advance(r, env)), r, env, n - 1)
  }

  function Repeat(a: Action, n: nat): seq<Action> {
    if n == 0 then [] else Repeat(a, n - 1) + [a]
  }

  lemma {:induction false} OnwardLast(w: World, r: nat, env: Environment, n: nat)
    requires n > 0
    ensures Onward(w, r, env, n) == Step(Onward(w, r, env, n - 1), Advance(r, env))
    decreases n
  {
    hide Step;
    if n > 1 { OnwardLast(Step(w, Advance(r, env)), r, env, n - 1); }
  }

  lemma {:induction false} RunIsOnward(actions: seq<Action>, r: nat, env: Environment, n: nat)
    ensures Run(Empty, actions + Repeat(Advance(r, env), n)) == Onward(Run(Empty, actions), r, env, n)
  {
    hide Step;
    if n == 0 {
      assert actions + [] == actions;
    } else {
      var all := actions + Repeat(Advance(r, env), n);
      RunIsOnward(actions, r, env, n - 1);
      OnwardLast(Run(Empty, actions), r, env, n);
      assert all[..|all| - 1] == actions + Repeat(Advance(r, env), n - 1);
    }
  }

  lemma {:induction false} AnsweredStays(w: World, r: nat, env: Environment, n: nat)
    requires r < |w.requests| && (w.requests[r].Answered? || w.requests[r].WebhookAnswered?)
    ensures Onward(w, r, env, n) == w
    decreases n
  {
    if n > 0 {
      assert Step(w, Advance(r, env)) == w;
      AnsweredStays(w, r, env, n - 1);
    }
  }

  function Ended(w: World, r: nat, event: Event, response: Response): World
    requires r < |w.requests|
  {
    w.(requests := w.requests[r := Answered(event, response)])
  }

  function WithRow(w: World, event: Event, delivery: DeliveryState, messageId: Option<MessageId>, status: FinalStatus): World {
    w.(events := w.events[event := EventRow(delivery, messageId, status, event in w.events && w.events[event].decided)])
  }

  // Working: the database answers, the host is not the delivery channel, the provider answers.
  predicate Working(env: Environment, outcome: Outcome) {
    env.fault == Healthy && !env.hostMode && env.answer == Some(outcome)
  }

  // What a claimed event comes to: refused at the limit, else counted, sent once and recorded by
  // the provider's answer. Without a clear answer it stays claimed.
  function SentOut(w: World, r: nat, event: Event, known: bool, month: MonthKey, outcome: Outcome): World
    requires r < |w.requests|
  {
    var count := if month in w.monthly then w.monthly[month] else 0;
    if count >= (if Urgent(event.kind) then 200 else 180)
    then Ended(WithRow(w, event, Failed, None, MonthlyRefusal(month)), r, event, Refused(month))
    else
      var sent := w.(monthly := w.monthly[month := count + 1], attempts := w.attempts + [Attempt(event, month)],
                     sends := w.sends + [Send(event, month, outcome)]);
      match outcome
      case SentAccepted(id) =>
        Ended(WithRow(sent, event, Accepted, Some(ProviderMessage(id)), NoStatus), r, event,
              if known then DuplicateAck else AcceptedAck)
      case SentRejected => Ended(WithRow(sent, event, Failed, None, ProviderRejected), r, event, RejectedAck)
      case SentUncertain => Ended(WithRow(sent, event, Claimed, None, NoStatus), r, event, Unavailable)
  }

  // A submission that nothing disturbs, as one transition.
  function DeliveredAlone(w: World, r: nat, event: Event, month: MonthKey, outcome: Outcome): World
    requires r < |w.requests|
  {
    if event !in w.events then
      if IsApprovalWithCode(event) && exists other :: other in w.events && SharesCode(event, other)
      then Ended(w, r, event, Conflict)
      else SentOut(w, r, event, false, month, outcome)
    else
      var row := w.events[event];
      match row.delivery
      case Pending => SentOut(w, r, event, true, month, outcome)
      case Claimed => Ended(w, r, event, Unavailable)
      case Failed =>
        if row.finalStatus == ProviderRejected then Ended(w, r, event, RejectedAck)
        else if row.finalStatus.MonthlyRefusal? then Ended(w, r, event, Refused(row.finalStatus.month))
        else Ended(w, r, event, Unavailable)
      case _ => Ended(w, r, event, DuplicateAck)
  }

  predicate IsApprovalWithCode(event: Event) {
    event.kind.ProposalQuarantined? || event.kind.ExecutionReady?
  }

  predicate SharesCode(a: Event, b: Event)
    requires IsApprovalWithCode(a)
  {
    IsApprovalWithCode(b) && a.kind.approval.code == b.kind.approval.code
  }

  lemma WithRowTwice(w: World, event: Event, delivery: DeliveryState, messageId: Option<MessageId>, status: FinalStatus,
                     delivery': DeliveryState, messageId': Option<MessageId>, status': FinalStatus)
    ensures WithRow(WithRow(w, event, delivery, messageId, status), event, delivery', messageId', status') ==
            WithRow(w, event, delivery', messageId', status')
  {
    var decided := event in w.events && w.events[event].decided;
    assert w.events[event := EventRow(delivery, messageId, status, decided)][event := EventRow(delivery', messageId', status', decided)]
        == w.events[event := EventRow(delivery', messageId', status', decided)];
  }

  // One step of a request, as the world after its statement.
  lemma Onwards(w: World, r: nat, env: Environment, n: nat, next: World)
    requires n > 0 && Step(w, Advance(r, env)) == next
    ensures Onward(w, r, env, n) == Onward(next, r, env, n - 1)
  {
    hide Step;
  }

  predicate JustClaimed(w: World, event: Event) {
    event in w.events && w.events[event] == EventRow(Claimed, None, NoStatus, w.events[event].decided)
  }

  lemma FromRefusing(w: World, r: nat, event: Event, month: MonthKey, env: Environment, n: nat)
    requires n > 0 && r < |w.requests| && w.requests[r] == Refusing(event, month) && env.fault == Healthy && JustClaimed(w, event)
    ensures Onward(w, r, env, n) == Ended(WithRow(w, event, Failed, None, MonthlyRefusal(month)), r, event, Refused(month))
  {
    hide Onward;
    var next := Ended(WithRow(w, event, Failed, None, MonthlyRefusal(month)), r, event, Refused(month));
    assert Step(w, Advance(r, env)) == next;
    hide Step;
    Onwards(w, r, env, n, next);
    AnsweredStays(next, r, env, n - 1);
  }

  lemma FromStoring(w: World, r: nat, event: Event, known: bool, id: string, env: Environment, n: nat)
    requires n > 0 && r < |w.requests| && w.requests[r] == Storing(event, known, id) && env.fault == Healthy && JustClaimed(w, event)
    ensures Onward(w, r, env, n) == Ended(WithRow(w, event, Accepted, Some(ProviderMessage(id)), NoStatus), r, event,
                                          if known then DuplicateAck else AcceptedAck)
  {
    hide Onward;
    var next := Ended(WithRow(w, event, Accepted, Some(ProviderMessage(id)), NoStatus), r, event,
                      if known then DuplicateAck else AcceptedAck);
    assert Step(w, Advance(r, env)) == next;
    hide Step;
    Onwards(w, r, env, n, next);
    AnsweredStays(next, r, env, n - 1);
  }

  lemma FromRejecting(w: World, r: nat, event: Event, env: Environment, n: nat)
    requires n > 0 && r < |w.requests| && w.requests[r] == Rejecting(event) && env.fault == Healthy && JustClaimed(w, event)
    ensures Onward(w, r, env, n) == Ended(WithRow(w, event, Failed, None, ProviderRejected), r, event, RejectedAck)
  {
    hide Onward;
    var next := Ended(WithRow(w, event, Failed, None, ProviderRejected), r, event, RejectedAck);
    assert Step(w, Advance(r, env)) == next;
    hide Step;
    Onwards(w, r, env, n, next);
    AnsweredStays(next, r, env, n - 1);
  }

  // What the provider's answer to the one send comes to.
  function Recorded(w: World, r: nat, event: Event, known: bool, outcome: Outcome): World
    requires r < |w.requests|
  {
    match outcome
    case SentAccepted(id) =>
      Ended(WithRow(w, event, Accepted, Some(ProviderMessage(id)), NoStatus), r, event, if known then DuplicateAck else AcceptedAck)
    case SentRejected => Ended(WithRow(w, event, Failed, None, ProviderRejected), r, event, RejectedAck)
    case SentUncertain => Ended(WithRow(w, event, Claimed, None, NoStatus), r, event, Unavailable)
  }

  lemma ClaimedAlready(w: World, event: Event)
    requires JustClaimed(w, event)
    ensures WithRow(w, event, Claimed, None, NoStatus) == w
  {
    assert w.events[event := w.events[event]] == w.events;
  }

  lemma FromSending(w: World, r: nat, event: Event, known: bool, month: MonthKey, env: Environment, outcome: Outcome, n: nat)
    requires n > 1 && r < |w.requests| && w.requests[r] == Sending(event, known, month)
    requires Working(env, outcome) && JustClaimed(w, event)
    ensures Onward(w, r, env, n) == Recorded(w.(sends := w.sends + [Send(event, month, outcome)]), r, event, known, outcome)
  {
    hide Onward;
    var sent := w.(sends := w.sends + [Send(event, month, outcome)]);
    var q := match outcome
             case SentAccepted(id) => Storing(event, known, id)
             case SentRejected => Rejecting(event)
             case SentUncertain => Answered(event, Unavailable);
    var next := sent.(requests := w.requests[r := q]);
    assert Step(w, Advance(r, env)) == next;
    hide Step;
    Onwards(w, r, env, n, next);
    ClaimedAlready(sent, event);
    match outcome
    case SentAccepted(id) => FromStoring(next, r, event, known, id, env, n - 1);
    case SentRejected => FromRejecting(next, r, event, env, n - 1);
    case SentUncertain => AnsweredStays(next, r, env, n - 1);
  }

  lemma FromCounting(w: World, r: nat, event: Event, known: bool, env: Environment, outcome: Outcome, n: nat)
    requires n > 2 && r < |w.requests| && w.requests[r] == Counting(event, known, env.month)
    requires Working(env, outcome) && JustClaimed(w, event)
    ensures Onward(w, r, env, n) == SentOut(w, r, event, known, env.month, outcome)
  {
    hide Onward;
    var month := env.month;
    var count := if month in w.monthly then w.monthly[month] else 0;
    CountingStep(w, r, event, known, env);
    hide Step, Urgent;
    if count >= (if Urgent(event.kind) then 200 else 180) {
      var next := w.(requests := w.requests[r := Refusing(event, month)]);
      Onwards(w, r, env, n, next);
      FromRefusing(next, r, event, month, env, n - 1);
    } else {
      var next := w.(monthly := w.monthly[month := count + 1], attempts := w.attempts + [Attempt(event, month)],
                     requests := w.requests[r := Sending(event, known, month)]);
      Onwards(w, r, env, n, next);
      FromSending(next, r, event, known, month, env, outcome, n - 1);
    }
  }

  lemma CountingStep(w: World, r: nat, event: Event, known: bool, env: Environment)
    requires r < |w.requests| && w.requests[r] == Counting(event, known, env.month) && env.fault == Healthy
    ensures
      var count := if env.month in w.monthly then w.monthly[env.month] else 0;
      Step(w, Advance(r, env)) ==
      if count >= (if Urgent(event.kind) then 200 else 180)
      then w.(requests := w.requests[r := Refusing(event, env.month)])
      else w.(monthly := w.monthly[env.month := count + 1], attempts := w.attempts + [Attempt(event, env.month)],
              requests := w.requests[r := Sending(event, known, env.month)])
  {
    UrgentOrRoutine(event);
    hide IsPriority, Urgent;
  }

  predicate JustPending(w: World, event: Event) {
    event in w.events && w.events[event] == EventRow(Pending, None, NoStatus, w.events[event].decided)
  }

  lemma FromClaiming(w: World, r: nat, event: Event, known: bool, env: Environment, outcome: Outcome, n: nat)
    requires n > 3 && r < |w.requests| && w.requests[r] == Claiming(event, known) && Working(env, outcome)
    requires Matches(w, event, Pending) ==> JustPending(w, event)
    ensures Onward(w, r, env, n) ==
            if Matches(w, event, Pending) then SentOut(w, r, event, known, env.month, outcome) else Ended(w, r, event, Unavailable)
  {
    hide Onward;
    if Matches(w, event, Pending) {
      var next := WithRow(w, event, Claimed, None, NoStatus).(requests := w.requests[r := Counting(event, known, env.month)]);
      assert Step(w, Advance(r, env)) == next;
      hide Step;
      Onwards(w, r, env, n, next);
      FromCounting(next, r, event, known, env, outcome, n - 1);
      RowIsReplaced(w, next, r, Counting(event, known, env.month), event, Claimed, known, env.month, outcome);
    } else {
      var next := Ended(w, r, event, Unavailable);
      assert Step(w, Advance(r, env)) == next;
      hide Step;
      Onwards(w, r, env, n, next);
      AnsweredStays(next, r, env, n - 1);
    }
  }

  // A row written on the way leaves no trace in the end.
  lemma RowIsReplaced(w: World, next: World, r: nat, q: Request, event: Event, delivery: DeliveryState, known: bool,
                      month: MonthKey, outcome: Outcome)
    requires r < |w.requests|
    requires next == WithRow(w, event, delivery, None, NoStatus).(requests := w.requests[r := q])
    ensures SentOut(next, r, event, known, month, outcome) == SentOut(w, r, event, known, month, outcome)
  {
    hide Urgent, WithRow, Ended;
    var count := if month in w.monthly then w.monthly[month] else 0;
    assert next.monthly == w.monthly && next.attempts == w.attempts && next.sends == w.sends by { SameBooks(w, event, delivery); }
    if count >= (if Urgent(event.kind) then 200 else 180) {
      EndsAlike(w, next, r, q, event, delivery, Failed, None, MonthlyRefusal(month), Refused(month));
    } else {
      var sent := w.(monthly := w.monthly[month := count + 1], attempts := w.attempts + [Attempt(event, month)],
                     sends := w.sends + [Send(event, month, outcome)]);
      var sent' := next.(monthly := w.monthly[month := count + 1], attempts := w.attempts + [Attempt(event, month)],
                         sends := w.sends + [Send(event, month, outcome)]);
      BooksApart(w, event, delivery, sent);
      match outcome
      case SentAccepted(id) =>
        EndsAlike(sent, sent', r, q, event, delivery, Accepted, Some(ProviderMessage(id)), NoStatus,
                  if known then DuplicateAck else AcceptedAck);
      case SentRejected => EndsAlike(sent, sent', r, q, event, delivery, Failed, None, ProviderRejected, RejectedAck);
      case SentUncertain => EndsAlike(sent, sent', r, q, event, delivery, Claimed, None, NoStatus, Unavailable);
    }
  }

  lemma SameBooks(w: World, event: Event, delivery: DeliveryState)
    ensures var next := WithRow(w, event, delivery, None, NoStatus);
            next.monthly == w.monthly && next.attempts == w.attempts && next.sends == w.sends
  {
  }

  lemma BooksApart(w: World, event: Event, delivery: DeliveryState, sent: World)
    requires sent == w.(monthly := sent.monthly, attempts := sent.attempts, sends := sent.sends)
    ensures WithRow(sent, event, delivery, None, NoStatus) ==
            WithRow(w, event, delivery, None, NoStatus).(monthly := sent.monthly, attempts := sent.attempts, sends := sent.sends)
  {
  }

  lemma EndsAlike(w: World, next: World, r: nat, q: Request, event: Event, before: DeliveryState,
                  delivery: DeliveryState, messageId: Option<MessageId>, status: FinalStatus, response: Response)
    requires r < |w.requests| && next == WithRow(w, event, before, None, NoStatus).(requests := w.requests[r := q])
    ensures |next.requests| == |w.requests|
    ensures Ended(WithRow(next, event, delivery, messageId, status), r, event, response) ==
            Ended(WithRow(w, event, delivery, messageId, status), r, event, response)
  {
    WithRowTwice(w, event, before, None, NoStatus, delivery, messageId, status);
    assert w.requests[r := q][r := Answered(event, response)] == w.requests[r := Answered(event, response)];
  }

  lemma FromInserting(w: World, r: nat, event: Event, env: Environment, outcome: Outcome, n: nat)
    requires n > 4 && r < |w.requests| && w.requests[r] == Inserting(event) && Working(env, outcome) && event !in w.events
    ensures Onward(w, r, env, n) == DeliveredAlone(w, r, event, env.month, outcome)
  {
    hide Onward;
    CodesClashExactly(w, event);
    if CanInsert(w, event) {
      var next := WithRow(w, event, Pending, None, NoStatus).(requests := w.requests[r := Claiming(event, false)]);
      assert Step(w, Advance(r, env)) == next;
      hide Step, CanInsert;
      Onwards(w, r, env, n, next);
      FromClaiming(next, r, event, false, env, outcome, n - 1);
      RowIsReplaced(w, next, r, Claiming(event, false), event, Pending, false, env.month, outcome);
    } else {
      var next := Ended(w, r, event, Conflict);
      assert Step(w, Advance(r, env)) == next;
      hide Step, CanInsert;
      Onwards(w, r, env, n, next);
      AnsweredStays(next, r, env, n - 1);
    }
  }

  lemma CodesClashExactly(w: World, event: Event)
    requires event !in w.events
    ensures CanInsert(w, event) <==> !(IsApprovalWithCode(event) && exists other :: other in w.events && SharesCode(event, other))
  {
  }

  lemma SameRequestsReplaced(w: World, r: nat, q: Request, event: Event, known: bool, month: MonthKey, outcome: Outcome)
    requires r < |w.requests|
    ensures SentOut(w.(requests := w.requests[r := q]), r, event, known, month, outcome) ==
            SentOut(w, r, event, known, month, outcome)
    ensures forall response :: Ended(w.(requests := w.requests[r := q]), r, event, response) == Ended(w, r, event, response)
  {
    hide Urgent;
    assert forall response :: w.requests[r := q][r := Answered(event, response)] == w.requests[r := Answered(event, response)];
  }

  lemma FromSelecting(w: World, r: nat, event: Event, env: Environment, outcome: Outcome)
    requires r < |w.requests| && w.requests[r] == Selecting(event) && Working(env, outcome) && RowsOk(w)
    ensures Onward(w, r, env, 6) == DeliveredAlone(w, r, event, env.month, outcome)
  {
    hide Onward;
    var q := AfterSelect(w, event, false);
    var next := w.(requests := w.requests[r := q]);
    assert Step(w, Advance(r, env)) == next;
    if event in w.events { assert RowOk(w, event); }
    hide Step, Unsent, SentAs, MonthFull, RowsOk;
    Onwards(w, r, env, 6, next);
    SameRequestsReplaced(w, r, q, event, true, env.month, outcome);
    if event !in w.events {
      SameRequestsReplaced(w, r, q, event, false, env.month, outcome);
      FromInserting(next, r, event, env, outcome, 5);
    } else if q.Claiming? {
      FromClaiming(next, r, event, true, env, outcome, 5);
    } else {
      AnsweredStays(next, r, env, 5);
    }
  }

  // In every run: a submission whose statements nothing disturbs comes to exactly one transition.
  lemma UndisturbedDelivery(actions: seq<Action>, event: Event, env: Environment, outcome: Outcome)
    requires Working(env, outcome)
    ensures
      var submitted := Run(Empty, actions + [Submit(event)]);
      var r := |submitted.requests| - 1;
      && r >= 0
      && Run(Empty, actions + [Submit(event)] + Repeat(Advance(r, env), 6)) == DeliveredAlone(submitted, r, event, env.month, outcome)
  {
    var before, submitted := Run(Empty, actions), Run(Empty, actions + [Submit(event)]);
    assert (actions + [Submit(event)])[..|actions|] == actions;
    assert submitted == before.(requests := before.requests + [Selecting(event)]);
    EveryRunIsSafe(actions + [Submit(event)]);
    var r := |submitted.requests| - 1;
    hide Run, Onward, DeliveredAlone;
    FromSelecting(submitted, r, event, env, outcome);
    RunIsOnward(actions + [Submit(event)], r, env, 6);
  }

  // ----- The host as the delivery channel -----

  // A submission that is only registered, as one transition: never counted and never sent.
  function RegisteredAlone(w: World, r: nat, event: Event): World
    requires r < |w.requests|
  {
    var registered := WithRow(w, event, Accepted, Some(HostReceipt), NoStatus);
    if event !in w.events then
      if IsApprovalWithCode(event) && exists other :: other in w.events && SharesCode(event, other)
      then Ended(w, r, event, Conflict)
      else Ended(registered, r, event, AcceptedAck)
    else
      var row := w.events[event];
      match row.delivery
      case Pending => Ended(registered, r, event, DuplicateAck)
      case Claimed => Ended(w, r, event, Unavailable)
      case Failed =>
        if row.finalStatus == ProviderRejected then Ended(w, r, event, RejectedAck)
        else if row.finalStatus.MonthlyRefusal? then Ended(w, r, event, Refused(row.finalStatus.month))
        else Ended(w, r, event, Unavailable)
      case _ => Ended(w, r, event, DuplicateAck)
  }

  lemma FromRegistering(w: World, r: nat, event: Event, known: bool, env: Environment, n: nat)
    requires n > 0 && r < |w.requests| && w.requests[r] == Registering(event, known) && env.fault == Healthy
    requires Matches(w, event, Pending) ==> JustPending(w, event)
    ensures Onward(w, r, env, n) ==
            if Matches(w, event, Pending)
            then Ended(WithRow(w, event, Accepted, Some(HostReceipt), NoStatus), r, event, if known then DuplicateAck else AcceptedAck)
            else Ended(w, r, event, Unavailable)
  {
    hide Onward;
    var next := if Matches(w, event, Pending)
                then Ended(WithRow(w, event, Accepted, Some(HostReceipt), NoStatus), r, event,
                           if known then DuplicateAck else AcceptedAck)
                else Ended(w, r, event, Unavailable);
    assert Step(w, Advance(r, env)) == next;
    hide Step;
    Onwards(w, r, env, n, next);
    AnsweredStays(next, r, env, n - 1);
  }

  lemma HostInserting(w: World, r: nat, event: Event, env: Environment)
    requires r < |w.requests| && w.requests[r] == Inserting(event) && event !in w.events
    requires env.fault == Healthy && env.hostMode
    ensures Onward(w, r, env, 2) == RegisteredAlone(w, r, event)
  {
    hide Onward;
    CodesClashExactly(w, event);
    if CanInsert(w, event) {
      var q := Registering(event, false);
      var next := WithRow(w, event, Pending, None, NoStatus).(requests := w.requests[r := q]);
      assert Step(w, Advance(r, env)) == next;
      hide Step, CanInsert;
      Onwards(w, r, env, 2, next);
      FromRegistering(next, r, event, false, env, 1);
      EndsAlike(w, next, r, q, event, Pending, Accepted, Some(HostReceipt), NoStatus, AcceptedAck);
    } else {
      var next := Ended(w, r, event, Conflict);
      assert Step(w, Advance(r, env)) == next;
      hide Step, CanInsert;
      Onwards(w, r, env, 2, next);
      AnsweredStays(next, r, env, 1);
    }
  }

  lemma HostSelecting(w: World, r: nat, event: Event, env: Environment)
    requires r < |w.requests| && w.requests[r] == Selecting(event) && RowsOk(w) && env.fault == Healthy && env.hostMode
    ensures Onward(w, r, env, 3) == RegisteredAlone(w, r, event)
  {
    hide Onward;
    var q := AfterSelect(w, event, true);
    var next := w.(requests := w.requests[r := q]);
    assert Step(w, Advance(r, env)) == next;
    if event in w.events { assert RowOk(w, event); }
    hide Step, Unsent, SentAs, MonthFull, RowsOk;
    Onwards(w, r, env, 3, next);
    assert forall response :: w.requests[r := q][r := Answered(event, response)] == w.requests[r := Answered(event, response)];
    if event !in w.events {
      HostInserting(next, r, event, env);
    } else if q.Registering? {
      FromRegistering(next, r, event, true, env, 2);
    } else {
      AnsweredStays(next, r, env, 2);
    }
  }

  lemma UndisturbedRegistration(actions: seq<Action>, event: Event, env: Environment)
    requires env.fault == Healthy && env.hostMode
    ensures
      var submitted := Run(Empty, actions + [Submit(event)]);
      var r := |submitted.requests| - 1;
      && r >= 0
      && Run(Empty, actions + [Submit(event)] + Repeat(Advance(r, env), 3)) == RegisteredAlone(submitted, r, event)
  {
    var before, submitted := Run(Empty, actions), Run(Empty, actions + [Submit(event)]);
    assert (actions + [Submit(event)])[..|actions|] == actions;
    assert submitted == before.(requests := before.requests + [Selecting(event)]);
    EveryRunIsSafe(actions + [Submit(event)]);
    var r := |submitted.requests| - 1;
    hide Run, Onward, RegisteredAlone;
    HostSelecting(submitted, r, event, env);
    RunIsOnward(actions + [Submit(event)], r, env, 3);
  }

  // ----- An undisturbed decision -----

  // The event the code names may be decided by the command now.
  predicate MayBeDecided(w: World, event: Event, code: string, command: Command, now: int) {
    && event in w.events && !w.events[event].decided
    && match event.kind
       case ProposalQuarantined(approval) =>
         approval.code == code && now <= approval.expiresAt && (command == Approve || command == Deny)
       case ExecutionReady(approval) =>
         approval.code == code && now <= approval.expiresAt && (command == Execute || command == Deny)
       case _ => false
  }

  // The webhook is marked and the request ends.
  function Marked(w: World, r: nat, webhook: string, response: Response): World
    requires r < |w.requests|
  {
    w.(webhooks := w.webhooks + {webhook}, requests := w.requests[r := WebhookAnswered(webhook, response)])
  }

  function DecidedBy(w: World, r: nat, webhook: string, decision: Decision): World
    requires r < |w.requests| && decision.event in w.events
  {
    Marked(w, r, webhook, DecisionRecorded).(
      decisions := w.decisions + [decision],
      events := w.events[decision.event := w.events[decision.event].(decided := true)])
  }

  lemma FoundMeans(w: World, code: string, command: Command, now: int)
    requires CodesUnique(w)
    ensures FoundByCode(w, code).Some? && Decidable(w, FoundByCode(w, code).value, command, now) ==>
              MayBeDecided(w, FoundByCode(w, code).value, code, command, now)
    ensures forall event :: MayBeDecided(w, event, code, command, now) ==>
              FoundByCode(w, code) == Some(event) && Decidable(w, event, command, now)
  {
    forall event | MayBeDecided(w, event, code, command, now)
      ensures FoundByCode(w, code) == Some(event) && Decidable(w, event, command, now)
    {
      assert event in WithCode(w, code);
    }
  }

  lemma FromReplaying(w: World, r: nat, webhook: string, code: string, command: Command, env: Environment)
    requires r < |w.requests| && w.requests[r] == Replaying(webhook, code, command) && env.fault == Healthy
    requires CodesUnique(w) && DecisionsOk(w)
    ensures webhook in w.webhooks ==>
              Onward(w, r, env, 3) == w.(requests := w.requests[r := WebhookAnswered(webhook, WebhookDuplicate)])
    ensures webhook !in w.webhooks ==>
              forall event :: MayBeDecided(w, event, code, command, env.now) ==>
                Onward(w, r, env, 3) == DecidedBy(w, r, webhook, Decision(event, command, env.now))
    ensures webhook !in w.webhooks && (forall event :: !MayBeDecided(w, event, code, command, env.now)) ==>
              Onward(w, r, env, 3) == Marked(w, r, webhook, WebhookIgnored)
  {
    hide Onward, MayBeDecided, FoundByCode, Decidable;
    FoundMeans(w, code, command, env.now);
    if webhook in w.webhooks {
      var next := w.(requests := w.requests[r := WebhookAnswered(webhook, WebhookDuplicate)]);
      assert Step(w, Advance(r, env)) == next;
      hide Step;
      Onwards(w, r, env, 3, next);
      AnsweredStays(next, r, env, 2);
    } else {
      var next := w.(requests := w.requests[r := LookingUp(webhook, code, command)]);
      assert Step(w, Advance(r, env)) == next;
      FromLookingUp(w, next, r, webhook, code, command, env);
      hide Step;
      Onwards(w, r, env, 3, next);
    }
  }

  lemma FromLookingUp(w: World, next: World, r: nat, webhook: string, code: string, command: Command, env: Environment)
    requires r < |w.requests| && next == w.(requests := w.requests[r := LookingUp(webhook, code, command)])
    requires env.fault == Healthy && webhook !in w.webhooks && CodesUnique(w) && DecisionsOk(w)
    ensures
      var found := FoundByCode(w, code);
      Onward(next, r, env, 2) ==
      if found.Some? && Decidable(w, found.value, command, env.now)
      then DecidedBy(w, r, webhook, Decision(found.value, command, env.now))
      else Marked(w, r, webhook, WebhookIgnored)
  {
    hide Onward, FoundByCode, Marked, DecidedBy;
    var found := FoundByCode(w, code);
    assert FoundByCode(next, code) == found by { SameFound(w, next, code); }
    var q := if found.Some? && Decidable(w, found.value, command, env.now)
             then Deciding(webhook, Decision(found.value, command, env.now)) else Ignoring(webhook);
    var third := w.(requests := w.requests[r := q]);
    assert Step(next, Advance(r, env)) == third by {
      assert w.requests[r := LookingUp(webhook, code, command)][r := q] == w.requests[r := q];
    }
    Onwards(next, r, env, 2, third);
    if q.Deciding? { DecidingStep(w, third, r, webhook, q.decision, env); } else { IgnoringStep(w, third, r, webhook, env); }
  }

  lemma SameFound(w: World, next: World, code: string)
    requires next.events == w.events && CodesUnique(w)
    ensures FoundByCode(next, code) == FoundByCode(w, code)
  {
    assert WithCode(next, code) == WithCode(w, code);
    forall a, b | a in WithCode(w, code) && b in WithCode(w, code) ensures a == b {
    }
  }

  lemma IgnoringStep(w: World, next: World, r: nat, webhook: string, env: Environment)
    requires r < |w.requests| && next == w.(requests := w.requests[r := Ignoring(webhook)])
    requires env.fault == Healthy && webhook !in w.webhooks
    ensures Onward(next, r, env, 1) == Marked(w, r, webhook, WebhookIgnored)
  {
    var response := WebhookAnswered(webhook, WebhookIgnored);
    assert w.requests[r := Ignoring(webhook)][r := response] == w.requests[r := response];
    assert Onward(Step(next, Advance(r, env)), r, env, 0) == Step(next, Advance(r, env));
  }

  lemma DecidingStep(w: World, next: World, r: nat, webhook: string, decision: Decision, env: Environment)
    requires r < |w.requests| && next == w.(requests := w.requests[r := Deciding(webhook, decision)])
    requires env.fault == Healthy && webhook !in w.webhooks && DecisionsOk(w)
    requires decision.event in w.events && !w.events[decision.event].decided
    ensures Onward(next, r, env, 1) == DecidedBy(w, r, webhook, decision)
  {
    var response := WebhookAnswered(webhook, DecisionRecorded);
    assert w.requests[r := Deciding(webhook, decision)][r := response] == w.requests[r := response];
    assert BatchCommits(next, webhook, decision) by { assert !HasDecision(w, decision.event); }
    assert Onward(Step(next, Advance(r, env)), r, env, 0) == Step(next, Advance(r, env));
    hide DecisionsOk, Onward;
  }

  // In every run: a command whose statements nothing disturbs records its decision exactly when the
  // code names an undecided event whose time has not passed and which takes that command; any other
  // new webhook is marked and ignored, and a known one is answered as a duplicate.
  lemma UndisturbedDecision(actions: seq<Action>, webhook: string, code: string, command: Command, env: Environment)
    requires env.fault == Healthy
    ensures
      var delivered := Run(Empty, actions + [Deliver(webhook, code, command)]);
      var r := |delivered.requests| - 1;
      && r >= 0
      && var final := Run(Empty, actions + [Deliver(webhook, code, command)] + Repeat(Advance(r, env), 3));
         && (webhook in delivered.webhooks ==>
               final == delivered.(requests := delivered.requests[r := WebhookAnswered(webhook, WebhookDuplicate)]))
         && (webhook !in delivered.webhooks ==>
               forall event :: MayBeDecided(delivered, event, code, command, env.now) ==>
                 final == DecidedBy(delivered, r, webhook, Decision(event, command, env.now)))
         && (webhook !in delivered.webhooks && (forall event :: !MayBeDecided(delivered, event, code, command, env.now)) ==>
               final == Marked(delivered, r, webhook, WebhookIgnored))
  {
    var action := Deliver(webhook, code, command);
    var before, delivered := Run(Empty, actions), Run(Empty, actions + [action]);
    assert (actions + [action])[..|actions|] == actions;
    assert delivered == before.(requests := before.requests + [Replaying(webhook, code, command)]);
    EveryRunIsSafe(actions + [action]);
    var r := |delivered.requests| - 1;
    hide Run, Onward, Marked, DecidedBy, MayBeDecided;
    FromReplaying(delivered, r, webhook, code, command, env);
    RunIsOnward(actions + [action], r, env, 3);
  }

  // ----- Webhooks are used up -----

  // A step marks webhooks only ever, and each decision it records takes a webhook not marked before.
  ghost predicate UsesWebhooks(w: World, next: World) {
    && w.webhooks <= next.webhooks
    && (next.decisions == w.decisions || exists webhook, decision ::
          webhook !in w.webhooks && next.webhooks == w.webhooks + {webhook} && next.decisions == w.decisions + [decision])
  }

  lemma DecidingUsesWebhook(w: World, r: nat, webhook: string, decision: Decision, env: Environment)
    requires r < |w.requests|
    ensures UsesWebhooks(w, StepDeciding(w, r, webhook, decision, env))
  {
    if env.fault != FailBefore && BatchCommits(w, webhook, decision) {
      var next := StepDeciding(w, r, webhook, decision, env);
      assert webhook !in w.webhooks && next.webhooks == w.webhooks + {webhook} && next.decisions == w.decisions + [decision];
    }
  }

  lemma StepUsesWebhooks(w: World, a: Action)
    ensures UsesWebhooks(w, Step(w, a))
  {
    if a.Advance? && a.request < |w.requests| && w.requests[a.request].Deciding? {
      DecidingUsesWebhook(w, a.request, w.requests[a.request].webhook, w.requests[a.request].decision, a.env);
      hide UsesWebhooks, StepDeciding;
    } else {
      assert Step(w, a).decisions == w.decisions && w.webhooks <= Step(w, a).webhooks by { hide FoundByCode, Decidable, CanInsert; }
      hide Step;
    }
  }

  // In every run each recorded decision has used up a webhook of its own.
  lemma {:induction false} DecisionsUseUpWebhooks(actions: seq<Action>)
    ensures |Run(Empty, actions).decisions| <= |Run(Empty, actions).webhooks|
  {
    if actions != [] {
      var before, last := Run(Empty, actions[..|actions| - 1]), actions[|actions| - 1];
      DecisionsUseUpWebhooks(actions[..|actions| - 1]);
      StepUsesWebhooks(before, last);
      hide Step;
      SubsetIsSmaller(before.webhooks, Step(before, last).webhooks);
    }
  }

  // ----- Statements that fail -----

  // The database without the requests.
  predicate SameDatabase(a: World, b: World) {
    && a.events == b.events && a.monthly == b.monthly && a.webhooks == b.webhooks && a.decisions == b.decisions
    && a.attempts == b.attempts && a.sends == b.sends
  }

  // No acknowledgement, refusal or decision: a temporary failure, or a statement that clears up.
  predicate GivesUp(q: Request) {
    match q
    case Answered(_, response) => response == Unavailable || response == Conflict
    case WebhookAnswered(_, response) => response == Unavailable
    case Reverting(_) => true
    case Rechecking(_) => true
    case _ => false
  }

  // A database statement that throws never lets its request go on, whether or not it took effect;
  // when it did not, the database is as it was, and when it did, as if it had not thrown.
  lemma FailedStatements(w: World, r: nat, env: Environment)
    requires r < |w.requests| && env.fault != Healthy
    requires !w.requests[r].Sending? && !w.requests[r].Answered? && !w.requests[r].WebhookAnswered?
    ensures |AdvanceStep(w, r, env).requests| == |w.requests| && GivesUp(AdvanceStep(w, r, env).requests[r])
    ensures env.fault == FailBefore ==> SameDatabase(AdvanceStep(w, r, env), w)
    ensures env.fault == FailAfter ==> SameDatabase(AdvanceStep(w, r, env), AdvanceStep(w, r, env.(fault := Healthy)))
  {
    var q := w.requests[r];
    hide AdvanceStep, SameDatabase, GivesUp;
    if q.Selecting? || q.Inserting? || q.Registering? || q.Claiming? || q.Storing? || q.Rejecting? {
      FailedDelivery(w, r, env);
    } else if q.Counting? || q.Reverting? || q.Refusing? {
      FailedCounting(w, r, env);
    } else {
      FailedWebhook(w, r, env);
    }
  }

  predicate FailsCleanly(w: World, r: nat, failed: World, healthy: World, fault: Fault) {
    && r < |failed.requests| == |w.requests| && GivesUp(failed.requests[r])
    && (fault == FailBefore ==> SameDatabase(failed, w))
    && (fault == FailAfter ==> SameDatabase(failed, healthy))
  }

  lemma FailedDelivery(w: World, r: nat, env: Environment)
    requires r < |w.requests| && env.fault != Healthy
    requires var q := w.requests[r];
             q.Selecting? || q.Inserting? || q.Registering? || q.Claiming? || q.Storing? || q.Rejecting?
    ensures FailsCleanly(w, r, AdvanceStep(w, r, env), AdvanceStep(w, r, env.(fault := Healthy)), env.fault)
  {
    hide CanInsert, AfterSelect, StepCounting, StepReverting, StepRefusing, StepSending, StepReplaying, StepLookingUp, StepIgnoring,
      StepDeciding, StepRechecking;
  }

  lemma FailedCounting(w: World, r: nat, env: Environment)
    requires r < |w.requests| && env.fault != Healthy
    requires var q := w.requests[r]; q.Counting? || q.Reverting? || q.Refusing?
    ensures FailsCleanly(w, r, AdvanceStep(w, r, env), AdvanceStep(w, r, env.(fault := Healthy)), env.fault)
  {
    hide StepSelecting, StepInserting, StepRegistering, StepClaiming, StepStoring, StepRejecting, StepSending, StepReplaying,
      StepLookingUp, StepIgnoring, StepDeciding, StepRechecking, MayCount;
  }

  lemma FailedWebhook(w: World, r: nat, env: Environment)
    requires r < |w.requests| && env.fault != Healthy
    requires var q := w.requests[r];
             q.Replaying? || q.LookingUp? || q.Ignoring? || q.Deciding? || q.Rechecking?
    ensures FailsCleanly(w, r, AdvanceStep(w, r, env), AdvanceStep(w, r, env.(fault := Healthy)), env.fault)
  {
    hide FoundByCode, Decidable, BatchCommits, StepSelecting, StepInserting, StepRegistering, StepClaiming, StepStoring,
      StepRejecting, StepSending, StepCounting, StepReverting, StepRefusing;
  }
}
