// What every interleaving of the relay keeps: an event is handed to the provider at most once,
// sends never exceed the counted attempts, attempts never exceed their limits, and every answer
// is backed by the database.
module RelaySafety {
  import opened Wrappers
  import opened Relay

  // The event a request holds the claim of.
  function Holder(q: Request): Option<Event> {
    match q
    case Counting(event, _, _) => Some(event)
    case Reverting(event) => Some(event)
    case Refusing(event, _) => Some(event)
    case Sending(event, _, _) => Some(event)
    case Storing(event, _, _) => Some(event)
    case Rejecting(event) => Some(event)
    case _ => None
  }

  predicate BeforeSend(q: Request) {
    q.Counting? || q.Reverting? || q.Refusing? || q.Sending?
  }

  predicate Unsent(w: World, event: Event) {
    forall s :: s in w.sends ==> s.event != event
  }

  predicate SentAs(w: World, event: Event, outcome: Outcome) {
    exists s :: s in w.sends && s.event == event && s.outcome == outcome
  }

  predicate MonthFull(w: World, event: Event, month: MonthKey) {
    AttemptLimit(event) <= CountOf(w, month)
  }

  predicate OneHolder(w: World) {
    forall i, j :: 0 <= i < j < |w.requests| && Holder(w.requests[i]).Some? ==>
      Holder(w.requests[i]) != Holder(w.requests[j])
  }

  predicate HolderOk(w: World, q: Request) {
    Holder(q).Some? ==>
      Matches(w, Holder(q).value, Claimed) && (BeforeSend(q) ==> Unsent(w, Holder(q).value))
  }

  predicate DecisionOk(w: World, d: Decision) {
    && d.event in w.events
    && IsApproval(d.event)
    && CommandFits(d.event, d.command)
    && d.checkedAt <= d.event.kind.approval.expiresAt
  }

  predicate Handed(w: World, event: Event) {
    event in w.events && w.events[event].messageId.Some?
  }

  // What the database says when a request stands where it stands.
  predicate Evidence(w: World, q: Request) {
    match q
    case Storing(event, _, message) => SentAs(w, event, SentAccepted(message))
    case Rejecting(event) => SentAs(w, event, SentRejected)
    case Refusing(event, month) => MonthFull(w, event, month)
    case Deciding(_, decision) => DecisionOk(w, decision)
    case Answered(event, AcceptedAck) => Handed(w, event)
    case Answered(event, DuplicateAck) => Handed(w, event)
    case Answered(event, RejectedAck) => SentAs(w, event, SentRejected)
    case Answered(event, Refused(month)) => MonthFull(w, event, month)
    case WebhookAnswered(webhook, DecisionRecorded) => webhook in w.webhooks
    case WebhookAnswered(webhook, WebhookDuplicate) => webhook in w.webhooks
    case WebhookAnswered(webhook, WebhookIgnored) => webhook in w.webhooks
    case _ => true
  }

  predicate RequestsOk(w: World) {
    forall i :: 0 <= i < |w.requests| ==> HolderOk(w, w.requests[i]) && Evidence(w, w.requests[i])
  }

  predicate RowOk(w: World, event: Event)
    requires event in w.events
  {
    var row := w.events[event];
    && (row.delivery == Pending || row.delivery == Claimed ==> row.messageId == None && row.finalStatus == NoStatus)
    && (row.delivery == Pending ==> Unsent(w, event))
    && (row.delivery == Accepted || row.delivery == Delivered ==> row.messageId.Some?)
    && (row.messageId == Some(HostReceipt) ==> Unsent(w, event))
    && (row.messageId.Some? && row.messageId.value.ProviderMessage? ==> SentAs(w, event, SentAccepted(row.messageId.value.id)))
    && (row.finalStatus == ProviderRejected ==> SentAs(w, event, SentRejected))
    && (row.finalStatus.MonthlyRefusal? ==> MonthFull(w, event, row.finalStatus.month))
  }

  predicate RowsOk(w: World) {
    forall event :: event in w.events ==> RowOk(w, event)
  }

  predicate SendsOk(w: World) {
    && (forall i, j :: 0 <= i < j < |w.sends| ==> w.sends[i].event != w.sends[j].event)
    && (forall s :: s in w.sends ==> s.event in w.events)
  }

  predicate CodesUnique(w: World) {
    forall a, b :: a in w.events && b in w.events && IsApproval(a) && IsApproval(b) && a.kind.approval.code == b.kind.approval.code ==>
      a == b
  }

  predicate HasDecision(w: World, event: Event) {
    exists d :: d in w.decisions && d.event == event
  }

  predicate DecisionsOk(w: World) {
    && (forall i, j :: 0 <= i < j < |w.decisions| ==> w.decisions[i].event != w.decisions[j].event)
    && (forall d :: d in w.decisions ==> DecisionOk(w, d))
    && (forall event :: event in w.events ==> (w.events[event].decided <==> HasDecision(w, event)))
  }

  // Attempts, sends and requests about to send in a month; of every event, or of the ordinary
  // ones only.
  predicate Tallied(event: Event, ordinaryOnly: bool) {
    ordinaryOnly ==> !IsPriority(event)
  }

  function AttemptsIn(s: seq<Attempt>, month: MonthKey, ordinaryOnly: bool): nat {
    if s == [] then 0 else
    var last := s[|s| - 1];
    AttemptsIn(s[..|s| - 1], month, ordinaryOnly) + (if last.month == month && Tallied(last.event, ordinaryOnly) then 1 else 0)
  }

  function SendsIn(s: seq<Send>, month: MonthKey, ordinaryOnly: bool): nat {
    if s == [] then 0 else
    var last := s[|s| - 1];
    SendsIn(s[..|s| - 1], month, ordinaryOnly) + (if last.month == month && Tallied(last.event, ordinaryOnly) then 1 else 0)
  }

  predicate AboutToSend(q: Request, month: MonthKey, ordinaryOnly: bool) {
    q.Sending? && q.month == month && Tallied(q.event, ordinaryOnly)
  }

  function SendingIn(s: seq<Request>, month: MonthKey, ordinaryOnly: bool): nat {
    if s == [] then 0 else
    SendingIn(s[..|s| - 1], month, ordinaryOnly) + (if AboutToSend(s[|s| - 1], month, ordinaryOnly) then 1 else 0)
  }

  predicate MonthOk(w: World, month: MonthKey) {
    && AttemptsIn(w.attempts, month, false) == CountOf(w, month) <= MONTHLY_SMS_LIMIT
    && AttemptsIn(w.attempts, month, true) <= MONTHLY_SMS_LIMIT - PRIORITY_SMS_RESERVE
    && AttemptsIn(w.attempts, month, true) <= AttemptsIn(w.attempts, month, false)
    && SendsIn(w.sends, month, false) + SendingIn(w.requests, month, false) <= AttemptsIn(w.attempts, month, false)
    && SendsIn(w.sends, month, true) + SendingIn(w.requests, month, true) <= AttemptsIn(w.attempts, month, true)
  }

  ghost predicate MonthsOk(w: World) {
    forall month :: MonthOk(w, month)
  }

  ghost predicate Safe(w: World) {
    && OneHolder(w)
    && RequestsOk(w)
    && RowsOk(w)
    && SendsOk(w)
    && CodesUnique(w)
    && DecisionsOk(w)
    && MonthsOk(w)
  }

  // ---- What one step leaves alone ----

  ghost predicate Evolves(w: World, next: World) {
    && (forall e :: e in w.events ==>
          e in next.events && (w.events[e].messageId.Some? ==> next.events[e].messageId == w.events[e].messageId))
    && (forall s :: s in w.sends ==> s in next.sends)
    && (forall month :: CountOf(w, month) <= CountOf(next, month))
    && w.webhooks <= next.webhooks
  }

  // Claims held by others than the request at r keep their row and their unsent event.
  ghost predicate OthersUndisturbed(w: World, next: World, r: nat)
    requires r < |w.requests|
  {
    forall e :: Matches(w, e, Claimed) && Holder(w.requests[r]) != Some(e) ==>
      Matches(next, e, Claimed) && (Unsent(w, e) ==> Unsent(next, e))
  }

  predicate MayHold(w: World, r: nat, q: Request)
    requires r < |w.requests|
  {
    Holder(q).Some? ==> Holder(w.requests[r]) == Holder(q) || Matches(w, Holder(q).value, Pending)
  }

  lemma EvidenceKept(w: World, next: World, q: Request)
    requires Evolves(w, next) && Evidence(w, q)
    ensures Evidence(next, q)
  {
    match q
    case Refusing(event, month) => assert CountOf(w, month) <= CountOf(next, month);
    case Answered(event, Refused(month)) => assert CountOf(w, month) <= CountOf(next, month);
    case _ =>
  }

  lemma RequestsKept(w: World, next: World, r: nat, q: Request)
    requires OneHolder(w) && RequestsOk(w) && r < |w.requests|
    requires next.requests == w.requests[r := q]
    requires Evolves(w, next) && OthersUndisturbed(w, next, r) && MayHold(w, r, q)
    requires HolderOk(next, q) && Evidence(next, q)
    ensures OneHolder(next) && RequestsOk(next)
  {
    hide Evidence, Evolves;
    forall i | 0 <= i < |w.requests| && i != r
      ensures HolderOk(next, w.requests[i]) && Evidence(next, w.requests[i])
      ensures Holder(q).Some? ==> Holder(w.requests[i]) != Holder(q)
    {
      assert HolderOk(w, w.requests[i]) && Evidence(w, w.requests[i]);
      EvidenceKept(w, next, w.requests[i]);
    }
  }

  lemma {:induction false} SendingAfterUpdate(s: seq<Request>, r: nat, q: Request, month: MonthKey, ordinaryOnly: bool)
    requires r < |s|
    ensures SendingIn(s[r := q], month, ordinaryOnly) ==
            SendingIn(s, month, ordinaryOnly)
            - (if AboutToSend(s[r], month, ordinaryOnly) then 1 else 0)
            + (if AboutToSend(q, month, ordinaryOnly) then 1 else 0)
  {
    var n := |s| - 1;
    if r == n {
      assert s[r := q][..n] == s[..n];
    } else {
      SendingAfterUpdate(s[..n], r, q, month, ordinaryOnly);
      assert s[r := q][..n] == s[..n][r := q];
    }
  }

  // A step that neither counts nor sends, and does not start or finish a send.
  lemma MonthsKept(w: World, next: World, r: nat, q: Request)
    requires MonthsOk(w) && r < |w.requests|
    requires next.requests == w.requests[r := q] && next.attempts == w.attempts && next.sends == w.sends
    requires next.monthly == w.monthly && !q.Sending?
    ensures MonthsOk(next)
  {
    forall month
      ensures MonthOk(next, month)
    {
      assert MonthOk(w, month);
      SendingAfterUpdate(w.requests, r, q, month, false);
      SendingAfterUpdate(w.requests, r, q, month, true);
    }
  }

  lemma DecisionsKept(w: World, next: World)
    requires DecisionsOk(w) && next.decisions == w.decisions
    requires forall e :: e in w.events ==> e in next.events && next.events[e].decided == w.events[e].decided
    requires forall e :: e in next.events && e !in w.events ==> !next.events[e].decided
    ensures DecisionsOk(next)
  {
    forall d | d in w.decisions ensures DecisionOk(next, d) { assert DecisionOk(w, d); }
    forall e | e in next.events
      ensures next.events[e].decided <==> HasDecision(next, e)
    {
      assert HasDecision(next, e) <==> HasDecision(w, e);
    }
  }

  // A row nobody touched stays right while counts grow.
  lemma RowsKept(w: World, next: World, touched: set<Event>)
    requires RowsOk(w) && next.sends == w.sends
    requires forall month :: CountOf(w, month) <= CountOf(next, month)
    requires forall e :: e in next.events && e !in touched ==> e in w.events && next.events[e] == w.events[e]
    requires forall e :: e in next.events && e in touched ==> RowOk(next, e)
    ensures RowsOk(next)
  {
    forall e | e in next.events ensures RowOk(next, e) {
      if e !in touched { assert RowOk(w, e); }
    }
  }

  lemma SendsAndCodesKept(w: World, next: World)
    requires SendsOk(w) && CodesUnique(w) && next.sends == w.sends
    requires forall e :: e in next.events <==> e in w.events
    ensures SendsOk(next) && CodesUnique(next)
  {
  }

  lemma SendsAndCodesAfterInsert(w: World, next: World, event: Event)
    requires SendsOk(w) && CodesUnique(w) && CanInsert(w, event)
    requires next.sends == w.sends && next.events == w.events[event := NewRow]
    ensures SendsOk(next) && CodesUnique(next)
  {
  }

  lemma SendsAndCodesAfterSend(w: World, next: World, send: Send)
    requires SendsOk(w) && CodesUnique(w) && send.event in w.events && Unsent(w, send.event)
    requires next.sends == w.sends + [send] && next.events == w.events
    ensures SendsOk(next) && CodesUnique(next)
  {
    forall i, j | 0 <= i < j < |next.sends|
      ensures next.sends[i].event != next.sends[j].event
    {
      assert next.sends[i] == w.sends[i] && w.sends[i] in w.sends;
    }
  }

  // ---- Single steps ----

  lemma OnlyRequestMoves(w: World, r: nat, q: Request)
    requires Safe(w) && r < |w.requests|
    requires MayHold(w, r, q) && HolderOk(w, q) && Evidence(w, q) && !q.Sending?
    ensures Safe(Goto(w, r, q))
  {
    hide Evidence, OneHolder, RequestsOk, RowsOk, SendsOk, CodesUnique, DecisionsOk, MonthsOk;
    var next := Goto(w, r, q);
    RequestsKept(w, next, r, q) by {
      assert HolderOk(next, q);
      assert Evidence(next, q) by { EvidenceKept(w, next, q); }
    }
    MonthsKept(w, next, r, q);
    RowsKept(w, next, {});
    DecisionsKept(w, next);
    SendsAndCodesKept(w, next);
  }

  lemma RowMoveEvolves(w: World, next: World, r: nat, event: Event, row: EventRow)
    requires r < |w.requests| && event in w.events && RowOk(w, event)
    requires w.events[event].delivery == Pending || (w.events[event].delivery == Claimed && Holder(w.requests[r]) == Some(event))
    requires next.events == w.events[event := row]
    requires next.sends == w.sends && next.monthly == w.monthly && next.webhooks == w.webhooks
    ensures Evolves(w, next) && OthersUndisturbed(w, next, r)
  {
  }

  // A row may change when nobody else relies on it: it is pending, or the request at r holds it.
  lemma OneRowMoves(w: World, r: nat, event: Event, row: EventRow, q: Request)
    requires Safe(w) && r < |w.requests| && event in w.events
    requires var was := w.events[event];
             && (was.delivery == Pending || (was.delivery == Claimed && Holder(w.requests[r]) == Some(event)))
             && row.decided == was.decided
    requires Holder(q) == None || Holder(q) == Some(event)
    requires var next := Goto(SetRow(w, event, row), r, q);
             HolderOk(next, q) && Evidence(next, q) && RowOk(next, event) && !q.Sending?
    ensures Safe(Goto(SetRow(w, event, row), r, q))
  {
    var next := Goto(SetRow(w, event, row), r, q);
    assert RowOk(w, event);
    hide Evidence, OneHolder, RequestsOk, RowsOk, SendsOk, CodesUnique, DecisionsOk, MonthsOk;
    RequestsKept(w, next, r, q) by { RowMoveEvolves(w, next, r, event, row); }
    hide RowOk;
    MonthsKept(w, next, r, q);
    RowsKept(w, next, {event});
    DecisionsKept(w, next);
    SendsAndCodesKept(w, next);
  }

  lemma NewRowOk(w: World, next: World, event: Event)
    requires SendsOk(w) && event !in w.events && next.sends == w.sends
    requires event in next.events && next.events[event] == NewRow
    ensures RowOk(next, event)
  {
  }

  lemma InsertSafe(w: World, r: nat, event: Event, q: Request)
    requires Safe(w) && r < |w.requests| && CanInsert(w, event)
    requires Holder(q) == None && HolderOk(Goto(SetRow(w, event, NewRow), r, q), q) && Evidence(Goto(SetRow(w, event, NewRow), r, q), q)
    ensures Safe(Goto(SetRow(w, event, NewRow), r, q))
  {
    hide Evidence, OneHolder, RequestsOk, RowsOk, SendsOk, CodesUnique, DecisionsOk, MonthsOk;
    var next := Goto(SetRow(w, event, NewRow), r, q);
    RequestsKept(w, next, r, q) by { assert Evolves(w, next); }
    MonthsKept(w, next, r, q);
    assert RowOk(next, event) by { NewRowOk(w, next, event); }
    hide RowOk;
    RowsKept(w, next, {event});
    DecisionsKept(w, next);
    SendsAndCodesAfterInsert(w, next, event);
  }

  lemma AfterSelectHolds(w: World, r: nat, event: Event, hostMode: bool)
    requires RowsOk(w) && r < |w.requests|
    ensures var q := AfterSelect(w, event, hostMode); MayHold(w, r, q) && HolderOk(w, q) && Evidence(w, q) && !q.Sending?
  {
    if event in w.events { assert RowOk(w, event); }
  }

  lemma SelectingSafe(w: World, r: nat, event: Event, env: Environment)
    requires Safe(w) && r < |w.requests|
    ensures Safe(StepSelecting(w, r, event, env))
  {
    AfterSelectHolds(w, r, event, env.hostMode);
    AnswerHoldsNothing(w, event);
    hide OneHolder, RequestsOk, RowsOk, SendsOk, CodesUnique, DecisionsOk, MonthsOk, AfterSelect, HolderOk, Evidence;
    OnlyRequestMoves(w, r, if env.fault == Healthy then AfterSelect(w, event, env.hostMode) else Answered(event, Unavailable));
  }

  lemma InsertingSafe(w: World, r: nat, event: Event, env: Environment)
    requires Safe(w) && r < |w.requests|
    ensures Safe(StepInserting(w, r, event, env))
  {
    hide Safe, Goto;
    var q := if env.fault != Healthy || !CanInsert(w, event) then Answered(event, Conflict)
             else if env.hostMode then Registering(event, false)
             else Claiming(event, false);
    if env.fault != FailBefore && CanInsert(w, event) {
      InsertSafe(w, r, event, q);
    } else {
      OnlyRequestMoves(w, r, q);
    }
  }

  lemma AnswerHoldsNothing(w: World, event: Event)
    ensures HolderOk(w, Answered(event, Unavailable)) && Evidence(w, Answered(event, Unavailable))
  {
  }

  lemma GotoKeeps(w: World, r: nat, event: Event, q: Request)
    requires r < |w.requests| && event in w.events && RowOk(w, event) && HolderOk(w, q) && Evidence(w, q)
    ensures RowOk(Goto(w, r, q), event) && HolderOk(Goto(w, r, q), q) && Evidence(Goto(w, r, q), q)
  {
    EvidenceKept(w, Goto(w, r, q), q);
  }

  // The guarded updates of a pending or claimed row.
  lemma GuardedSafe(w: World, r: nat, event: Event, state: DeliveryState, row: EventRow, fault: Fault, changed: Request)
    requires Safe(w) && r < |w.requests|
    requires state == Pending || (state == Claimed && Holder(w.requests[r]) == Some(event))
    requires (Holder(changed) == None || Holder(changed) == Some(event)) && !changed.Sending?
    requires Matches(w, event, state) ==>
               var next := SetRow(w, event, row);
               && row.decided == w.events[event].decided && RowOk(next, event)
               && HolderOk(next, changed) && Evidence(next, changed)
    ensures Safe(Guarded(w, r, event, state, row, fault, changed))
  {
    hide Safe, RowOk, HolderOk, Evidence;
    var q := if fault == Healthy && Matches(w, event, state) then changed else Answered(event, Unavailable);
    AnswerHoldsNothing(SetRow(w, event, row), event);
    AnswerHoldsNothing(w, event);
    if fault != FailBefore && Matches(w, event, state) {
      GotoKeeps(SetRow(w, event, row), r, event, q);
      OneRowMoves(w, r, event, row, q);
    } else {
      OnlyRequestMoves(w, r, q);
    }
  }

  lemma RegisteringSafe(w: World, r: nat, event: Event, known: bool, env: Environment)
    requires Safe(w) && r < |w.requests|
    ensures Safe(StepRegistering(w, r, event, known, env))
  {
    var row := RowOf(w, event).(messageId := Some(HostReceipt), delivery := Accepted);
    if Matches(w, event, Pending) { assert RowOk(w, event); }
    GuardedSafe(w, r, event, Pending, row, env.fault, Answered(event, Acknowledgement(known)));
  }

  lemma ClaimingSafe(w: World, r: nat, event: Event, known: bool, env: Environment)
    requires Safe(w) && r < |w.requests|
    ensures Safe(StepClaiming(w, r, event, known, env))
  {
    if Matches(w, event, Pending) { assert RowOk(w, event); }
    GuardedSafe(w, r, event, Pending, RowOf(w, event).(delivery := Claimed), env.fault, Counting(event, known, env.month));
  }

  lemma RevertingSafe(w: World, r: nat, event: Event, env: Environment)
    requires Safe(w) && r < |w.requests| && w.requests[r] == Reverting(event)
    ensures Safe(StepReverting(w, r, event, env))
  {
    hide OneHolder, SendsOk, CodesUnique, DecisionsOk, MonthsOk;
    assert HolderOk(w, w.requests[r]) && RowOk(w, event);
    GuardedSafe(w, r, event, Claimed, RowOf(w, event).(delivery := Pending), env.fault, Answered(event, Unavailable));
  }

  lemma RefusingSafe(w: World, r: nat, event: Event, month: MonthKey, env: Environment)
    requires Safe(w) && r < |w.requests| && w.requests[r] == Refusing(event, month)
    ensures Safe(StepRefusing(w, r, event, month, env))
  {
    hide OneHolder, SendsOk, CodesUnique, DecisionsOk, MonthsOk;
    assert HolderOk(w, w.requests[r]) && Evidence(w, w.requests[r]) && RowOk(w, event);
    var row := RowOf(w, event).(delivery := Failed, finalStatus := MonthlyRefusal(month));
    GuardedSafe(w, r, event, Claimed, row, env.fault, Answered(event, Refused(month)));
  }

  lemma StoringSafe(w: World, r: nat, event: Event, known: bool, message: string, env: Environment)
    requires Safe(w) && r < |w.requests| && w.requests[r] == Storing(event, known, message)
    ensures Safe(StepStoring(w, r, event, known, message, env))
  {
    hide OneHolder, SendsOk, CodesUnique, DecisionsOk, MonthsOk;
    assert HolderOk(w, w.requests[r]) && Evidence(w, w.requests[r]) && RowOk(w, event);
    var row := RowOf(w, event).(messageId := Some(ProviderMessage(message)), delivery := Accepted);
    GuardedSafe(w, r, event, Claimed, row, env.fault, Answered(event, Acknowledgement(known)));
  }

  lemma RejectingSafe(w: World, r: nat, event: Event, env: Environment)
    requires Safe(w) && r < |w.requests| && w.requests[r] == Rejecting(event)
    ensures Safe(StepRejecting(w, r, event, env))
  {
    hide OneHolder, SendsOk, CodesUnique, DecisionsOk, MonthsOk;
    assert HolderOk(w, w.requests[r]) && Evidence(w, w.requests[r]) && RowOk(w, event);
    hide RequestsOk, RowsOk, OneHolder;
    var row := RowOf(w, event).(delivery := Failed, finalStatus := ProviderRejected);
    GuardedSafe(w, r, event, Claimed, row, env.fault, Answered(event, RejectedAck));
  }

  // Counting: the month's tally grows by this attempt, which leaves room for one more send.
  lemma CountedMonths(w: World, r: nat, event: Event, month: MonthKey, q: Request)
    requires MonthsOk(w) && r < |w.requests| && !w.requests[r].Sending? && MayCount(w, event, month)
    requires q.Sending? ==> q.event == event && q.month == month
    ensures MonthsOk(Goto(Counted(w, event, month), r, q))
  {
    var next := Goto(Counted(w, event, month), r, q);
    forall m
      ensures MonthOk(next, m)
    {
      assert MonthOk(w, m);
      assert next.attempts[..|w.attempts|] == w.attempts;
      SendingAfterUpdate(w.requests, r, q, m, false);
      SendingAfterUpdate(w.requests, r, q, m, true);
    }
  }

  lemma CountingSafe(w: World, r: nat, event: Event, known: bool, month: MonthKey, env: Environment)
    requires Safe(w) && r < |w.requests| && w.requests[r] == Counting(event, known, month)
    ensures Safe(StepCounting(w, r, event, known, month, env))
  {
    assert HolderOk(w, w.requests[r]);
    if env.fault == FailBefore || !MayCount(w, event, month) {
      hide Safe;
      OnlyRequestMoves(w, r, if env.fault != Healthy then Reverting(event) else Refusing(event, month));
    } else {
      var q := if env.fault != Healthy then Reverting(event) else Sending(event, known, month);
      CountedMonths(w, r, event, month, q);
      AttemptLeavesRest(w, r, event, month, q);
    }
  }

  lemma AttemptNeedsNothing(w: World, q: Request)
    requires q.Reverting? || q.Sending?
    ensures Evidence(w, q)
  {
  }

  lemma AttemptLeavesRest(w: World, r: nat, event: Event, month: MonthKey, q: Request)
    requires Safe(w) && r < |w.requests| && Holder(w.requests[r]) == Some(event)
    requires q == Reverting(event) || (q.Sending? && q.event == event)
    requires Matches(w, event, Claimed) && Unsent(w, event)
    requires MonthsOk(Goto(Counted(w, event, month), r, q))
    ensures Safe(Goto(Counted(w, event, month), r, q))
  {
    hide Evidence, OneHolder, RequestsOk, RowsOk, SendsOk, CodesUnique, DecisionsOk, MonthsOk;
    var next := Goto(Counted(w, event, month), r, q);
    RequestsKept(w, next, r, q) by {
      assert Evolves(w, next) && OthersUndisturbed(w, next, r);
      AttemptNeedsNothing(next, q);
    }
    RowsKept(w, next, {});
    DecisionsKept(w, next);
    SendsAndCodesKept(w, next);
  }

  function AfterSend(event: Event, known: bool, outcome: Outcome): Request {
    match outcome
    case SentAccepted(id) => Storing(event, known, id)
    case SentRejected => Rejecting(event)
    case SentUncertain => Answered(event, Unavailable)
  }

  lemma SendingMonths(w: World, r: nat, event: Event, known: bool, month: MonthKey, outcome: Outcome)
    requires MonthsOk(w) && r < |w.requests| && w.requests[r] == Sending(event, known, month)
    ensures MonthsOk(Goto(w.(sends := w.sends + [Send(event, month, outcome)]), r, AfterSend(event, known, outcome)))
  {
    var q := AfterSend(event, known, outcome);
    var next := Goto(w.(sends := w.sends + [Send(event, month, outcome)]), r, q);
    forall m
      ensures MonthOk(next, m)
    {
      assert MonthOk(w, m);
      assert next.sends[..|w.sends|] == w.sends;
      SendingAfterUpdate(w.requests, r, q, m, false);
      SendingAfterUpdate(w.requests, r, q, m, true);
    }
  }

  lemma SendingSafe(w: World, r: nat, event: Event, known: bool, month: MonthKey, env: Environment)
    requires Safe(w) && r < |w.requests| && w.requests[r] == Sending(event, known, month)
    ensures Safe(StepSending(w, r, event, known, month, env))
  {
    assert HolderOk(w, w.requests[r]);
    match env.answer
    case None => OnlyRequestMoves(w, r, Answered(event, Unavailable));
    case Some(outcome) =>
      SendingMonths(w, r, event, known, month, outcome);
      SendLeavesRest(w, r, event, month, outcome, AfterSend(event, known, outcome));
  }

  lemma SendEvolves(w: World, next: World, r: nat, send: Send, q: Request)
    requires r < |w.requests| && Holder(w.requests[r]) == Some(send.event) && Matches(w, send.event, Claimed)
    requires q == AfterSend(send.event, true, send.outcome) || q == AfterSend(send.event, false, send.outcome)
    requires next == Goto(w.(sends := w.sends + [send]), r, q)
    ensures Evolves(w, next) && OthersUndisturbed(w, next, r) && HolderOk(next, q) && Evidence(next, q)
  {
    assert send in next.sends;
    assert forall s :: s in w.sends ==> s in next.sends;
  }

  lemma SendLeavesRest(w: World, r: nat, event: Event, month: MonthKey, outcome: Outcome, q: Request)
    requires Safe(w) && r < |w.requests| && Holder(w.requests[r]) == Some(event)
    requires q == AfterSend(event, true, outcome) || q == AfterSend(event, false, outcome)
    requires Matches(w, event, Claimed) && Unsent(w, event)
    requires MonthsOk(Goto(w.(sends := w.sends + [Send(event, month, outcome)]), r, q))
    ensures Safe(Goto(w.(sends := w.sends + [Send(event, month, outcome)]), r, q))
  {
    hide MonthsOk, OneHolder, RequestsOk, SendsOk, CodesUnique, DecisionsOk;
    var send := Send(event, month, outcome);
    var next := Goto(w.(sends := w.sends + [send]), r, q);
    assert RowOk(w, event);
    RequestsKept(w, next, r, q) by { SendEvolves(w, next, r, send, q); }
    forall e | e in w.events ensures RowOk(next, e) { SentRowKept(w, next, send, e); }
    DecisionsKept(w, next);
    SendsAndCodesAfterSend(w, next, send);
  }

  lemma SentRowKept(w: World, next: World, send: Send, e: Event)
    requires e in w.events && RowOk(w, e) && Matches(w, send.event, Claimed)
    requires next.events == w.events && next.monthly == w.monthly && next.sends == w.sends + [send]
    requires RowOk(w, send.event)
    ensures RowOk(next, e)
  {
    assert forall s :: s in w.sends ==> s in next.sends;
  }

  // ---- Webhooks ----

  lemma WebhookMarked(w: World, r: nat, webhook: string, q: Request)
    requires Safe(w) && r < |w.requests| && Holder(q) == None && !q.Sending? && HolderOk(w, q)
    requires Evidence(w.(webhooks := w.webhooks + {webhook}), q)
    ensures Safe(Goto(w.(webhooks := w.webhooks + {webhook}), r, q))
  {
    hide Evidence, OneHolder, RequestsOk, RowsOk, SendsOk, CodesUnique, DecisionsOk, MonthsOk;
    var marked := w.(webhooks := w.webhooks + {webhook});
    var next := Goto(marked, r, q);
    RequestsKept(w, next, r, q) by {
      assert Evolves(w, next);
      assert Evidence(next, q) by { EvidenceKept(marked, next, q); }
    }
    MonthsKept(w, next, r, q);
    RowsKept(w, next, {});
    DecisionsKept(w, next);
    SendsAndCodesKept(w, next);
  }

  lemma WebhookStepsSafe(w: World, r: nat, webhook: string, code: string, command: Command, env: Environment)
    requires Safe(w) && r < |w.requests|
    ensures Safe(StepReplaying(w, r, webhook, code, command, env))
    ensures Safe(StepLookingUp(w, r, webhook, code, command, env))
    ensures Safe(StepRechecking(w, r, webhook, env))
    ensures Safe(StepIgnoring(w, r, webhook, env))
  {
    hide Safe;
    OnlyRequestMoves(w, r,
                     if env.fault != Healthy then WebhookAnswered(webhook, Unavailable)
                     else if webhook in w.webhooks then WebhookAnswered(webhook, WebhookDuplicate)
                     else LookingUp(webhook, code, command));
    var found := FoundByCode(w, code);
    OnlyRequestMoves(w, r,
                     if env.fault != Healthy then WebhookAnswered(webhook, Unavailable)
                     else if found.Some? && Decidable(w, found.value, command, env.now)
                     then Deciding(webhook, Decision(found.value, command, env.now))
                     else Ignoring(webhook));
    OnlyRequestMoves(w, r, WebhookAnswered(webhook, if env.fault == Healthy && webhook in w.webhooks then WebhookDuplicate
                                                    else Unavailable));
    if env.fault == FailBefore {
      OnlyRequestMoves(w, r, WebhookAnswered(webhook, Unavailable));
    } else {
      WebhookMarked(w, r, webhook,
                    if env.fault != Healthy then WebhookAnswered(webhook, Unavailable)
                    else if webhook in w.webhooks then WebhookAnswered(webhook, WebhookDuplicate)
                    else WebhookAnswered(webhook, WebhookIgnored));
    }
  }

  // A batch that commits always changes all three rows, so a committed decision is never
  // reported as a failure of the exactly-once check.
  lemma CommittedBatchChangesAllRows(w: World, webhook: string, decision: Decision)
    requires Safe(w) && BatchCommits(w, webhook, decision)
    ensures Undecided(w, decision.event)
  {
    assert w.events[decision.event].decided <==> HasDecision(w, decision.event);
  }

  lemma DecidingSafe(w: World, r: nat, webhook: string, decision: Decision, env: Environment)
    requires Safe(w) && r < |w.requests| && w.requests[r] == Deciding(webhook, decision)
    ensures Safe(StepDeciding(w, r, webhook, decision, env))
  {
    assert Evidence(w, w.requests[r]);
    if env.fault != FailBefore && BatchCommits(w, webhook, decision) {
      CommittedBatchChangesAllRows(w, webhook, decision);
      DecisionLeavesRest(w, r, webhook, decision,
                         if env.fault == Healthy then WebhookAnswered(webhook, DecisionRecorded) else Rechecking(webhook));
    } else {
      OnlyRequestMoves(w, r, Rechecking(webhook));
    }
  }

  lemma DecisionLeavesRest(w: World, r: nat, webhook: string, decision: Decision, q: Request)
    requires Safe(w) && r < |w.requests| && BatchCommits(w, webhook, decision) && Undecided(w, decision.event)
    requires DecisionOk(w, decision)
    requires q == WebhookAnswered(webhook, DecisionRecorded) || q == Rechecking(webhook)
    ensures Safe(Goto(Decide(w, webhook, decision), r, q))
  {
    hide MonthsOk, DecisionsOk, SendsOk, CodesUnique, DecisionOk, OneHolder, RequestsOk;
    var next := Goto(Decide(w, webhook, decision), r, q);
    RequestsKept(w, next, r, q) by { DecisionEvolves(w, next, r, decision); }
    MonthsKept(w, next, r, q);
    forall e | e in next.events ensures RowOk(next, e) { DecidedRowKept(w, next, decision, e); }
    hide RowOk;
    DecisionAdded(w, next, decision);
    SendsAndCodesKept(w, next);
  }

  lemma DecisionEvolves(w: World, next: World, r: nat, decision: Decision)
    requires r < |w.requests| && decision.event in w.events && next.sends == w.sends && next.monthly == w.monthly
    requires next.events == w.events[decision.event := w.events[decision.event].(decided := true)]
    requires w.webhooks <= next.webhooks
    ensures Evolves(w, next) && OthersUndisturbed(w, next, r)
  {
  }

  lemma DecidedRowKept(w: World, next: World, decision: Decision, e: Event)
    requires RowsOk(w) && decision.event in w.events && next.sends == w.sends && next.monthly == w.monthly
    requires next.events == w.events[decision.event := w.events[decision.event].(decided := true)] && e in next.events
    ensures RowOk(next, e)
  {
    assert RowOk(w, e);
  }

  lemma DecisionAdded(w: World, next: World, decision: Decision)
    requires DecisionsOk(w) && Undecided(w, decision.event) && DecisionOk(w, decision)
    requires forall d :: d in w.decisions ==> d.event != decision.event
    requires next.events == w.events[decision.event := w.events[decision.event].(decided := true)]
    requires next.decisions == w.decisions + [decision]
    ensures DecisionsOk(next)
  {
    forall d | d in next.decisions ensures DecisionOk(next, d) { assert d in w.decisions || d == decision; assert DecisionOk(w, d); }
    assert decision in next.decisions;
    forall e | e in next.events
      ensures next.events[e].decided <==> HasDecision(next, e)
    {
      if e != decision.event {
        assert HasDecision(next, e) <==> HasDecision(w, e) by {
          assert forall d :: d in w.decisions ==> d in next.decisions;
          assert forall d :: d in next.decisions ==> d in w.decisions || d == decision;
        }
      }
    }
  }

  // ---- Whole runs ----

  lemma ArrivalRequests(w: World, q: Request)
    requires OneHolder(w) && RequestsOk(w) && (q.Selecting? || q.Replaying?)
    ensures OneHolder(w.(requests := w.requests + [q])) && RequestsOk(w.(requests := w.requests + [q]))
  {
    hide Evidence, Unsent;
    var next := w.(requests := w.requests + [q]);
    assert Evidence(next, q) by { ArrivalNeedsNothing(next, q); }
    forall i | 0 <= i < |w.requests|
      ensures HolderOk(next, w.requests[i]) && Evidence(next, w.requests[i])
    {
      assert HolderOk(w, w.requests[i]) && Evidence(w, w.requests[i]);
      assert Holder(w.requests[i]).Some? ==> Unsent(w, Holder(w.requests[i]).value) == Unsent(next, Holder(w.requests[i]).value) by {
        SameSends(w, next);
      }
      EvidenceKept(w, next, w.requests[i]);
    }
  }

  lemma ArrivalNeedsNothing(w: World, q: Request)
    requires q.Selecting? || q.Replaying?
    ensures Evidence(w, q)
  {
  }

  lemma SameSends(w: World, next: World)
    requires next.sends == w.sends
    ensures forall e :: Unsent(w, e) == Unsent(next, e)
  {
  }

  lemma ArrivalSafe(w: World, q: Request)
    requires Safe(w) && (q.Selecting? || q.Replaying?)
    ensures Safe(w.(requests := w.requests + [q]))
  {
    var next := w.(requests := w.requests + [q]);
    ArrivalRequests(w, q);
    hide OneHolder, RequestsOk;
    assert next.requests[..|w.requests|] == w.requests;
    forall month ensures MonthOk(next, month) { assert MonthOk(w, month); }
    hide MonthOk;
    RowsKept(w, next, {});
    DecisionsKept(w, next);
  }

  lemma FinaliseRows(w: World, webhook: string, message: MessageId, delivered: bool)
    requires RowsOk(w)
    ensures RowsOk(FinaliseStep(w, webhook, message, delivered))
  {
    var next := FinaliseStep(w, webhook, message, delivered);
    forall e | e in w.events ensures RowOk(next, e) { assert RowOk(w, e); }
  }

  lemma FinaliseRequests(w: World, webhook: string, message: MessageId, delivered: bool)
    requires RowsOk(w) && RequestsOk(w)
    ensures RequestsOk(FinaliseStep(w, webhook, message, delivered))
  {
    hide Evidence;
    var next := FinaliseStep(w, webhook, message, delivered);
    assert Evolves(w, next);
    forall i | 0 <= i < |next.requests|
      ensures HolderOk(next, next.requests[i]) && Evidence(next, next.requests[i])
    {
      assert HolderOk(w, w.requests[i]) && Evidence(w, w.requests[i]);
      EvidenceKept(w, next, w.requests[i]);
      if Holder(w.requests[i]).Some? { assert RowOk(w, Holder(w.requests[i]).value); }
    }
  }

  lemma SameHolders(w: World, next: World)
    requires OneHolder(w) && next.requests == w.requests
    ensures OneHolder(next)
  {
  }

  lemma FinaliseSafe(w: World, webhook: string, message: MessageId, delivered: bool)
    requires Safe(w)
    ensures Safe(FinaliseStep(w, webhook, message, delivered))
  {
    var next := FinaliseStep(w, webhook, message, delivered);
    FinaliseRows(w, webhook, message, delivered);
    FinaliseRequests(w, webhook, message, delivered);
    hide RowsOk, RequestsOk, OneHolder, SendsOk, CodesUnique, DecisionsOk;
    assert OneHolder(next) by { SameHolders(w, next); }
    forall month ensures MonthOk(next, month) { assert MonthOk(w, month); }
    DecisionsKept(w, next);
    SendsAndCodesKept(w, next);
  }

  lemma DeliveryStepSafe(w: World, r: nat, env: Environment)
    requires Safe(w) && r < |w.requests| && Holder(w.requests[r]).Some?
    ensures Safe(AdvanceStep(w, r, env))
  {
    hide Safe, StepCounting, StepReverting, StepRefusing, StepSending, StepStoring, StepRejecting;
    match w.requests[r]
    case Counting(event, known, month) => CountingSafe(w, r, event, known, month, env);
    case Reverting(event) => RevertingSafe(w, r, event, env);
    case Refusing(event, month) => RefusingSafe(w, r, event, month, env);
    case Sending(event, known, month) => SendingSafe(w, r, event, known, month, env);
    case Storing(event, known, message) => StoringSafe(w, r, event, known, message, env);
    case Rejecting(event) => RejectingSafe(w, r, event, env);
  }

  lemma OtherStepSafe(w: World, r: nat, env: Environment)
    requires Safe(w) && r < |w.requests| && Holder(w.requests[r]).None?
    ensures Safe(AdvanceStep(w, r, env))
  {
    hide Safe, StepSelecting, StepInserting, StepRegistering, StepClaiming;
    hide StepReplaying, StepLookingUp, StepIgnoring, StepDeciding, StepRechecking;
    match w.requests[r]
    case Selecting(event) => SelectingSafe(w, r, event, env);
    case Inserting(event) => InsertingSafe(w, r, event, env);
    case Registering(event, known) => RegisteringSafe(w, r, event, known, env);
    case Claiming(event, known) => ClaimingSafe(w, r, event, known, env);
    case Replaying(webhook, code, command) => WebhookStepsSafe(w, r, webhook, code, command, env);
    case LookingUp(webhook, code, command) => WebhookStepsSafe(w, r, webhook, code, command, env);
    case Ignoring(webhook) => WebhookStepsSafe(w, r, webhook, [], Deny, env);
    case Rechecking(webhook) => WebhookStepsSafe(w, r, webhook, [], Deny, env);
    case Deciding(webhook, decision) => DecidingSafe(w, r, webhook, decision, env);
    case Answered(_, _) =>
    case WebhookAnswered(_, _) =>
  }

  // Every step of every request, arrival and delivery report keeps the relay safe.
  lemma StepSafe(w: World, a: Action)
    requires Safe(w)
    ensures Safe(Step(w, a))
  {
    hide Safe, FinaliseStep, AdvanceStep;
    match a
    case Submit(event) => ArrivalSafe(w, Selecting(event));
    case Deliver(webhook, code, command) => ArrivalSafe(w, Replaying(webhook, code, command));
    case Finalise(webhook, message, delivered) => FinaliseSafe(w, webhook, message, delivered);
    case Advance(r, env) =>
      if r < |w.requests| {
        if Holder(w.requests[r]).Some? { DeliveryStepSafe(w, r, env); } else { OtherStepSafe(w, r, env); }
      }
  }

  lemma {:induction false} EveryRunIsSafe(actions: seq<Action>)
    ensures Safe(Run(Empty, actions))
  {
    if actions == [] {
      assert SendingIn(Empty.requests, "", false) == 0;
    } else {
      hide Safe, Step;
      EveryRunIsSafe(actions[..|actions| - 1]);
      StepSafe(Run(Empty, actions[..|actions| - 1]), actions[|actions| - 1]);
    }
  }

  // ---- What a safe relay promises ----

  // However often an event is submitted, and whatever fails, it is sent at most once.
  lemma SentAtMostOnce(actions: seq<Action>, i: nat, j: nat)
    requires i < j < |Run(Empty, actions).sends|
    ensures var w := Run(Empty, actions); w.sends[i].event != w.sends[j].event
  {
    EveryRunIsSafe(actions);
  }

  // Sends are bounded by counted attempts, which keep the last slots for priority events.
  lemma MonthlyLimits(actions: seq<Action>, month: MonthKey)
    ensures var w := Run(Empty, actions);
            && SendsIn(w.sends, month, false) <= CountOf(w, month) == AttemptsIn(w.attempts, month, false) <= 200
            && SendsIn(w.sends, month, true) <= AttemptsIn(w.attempts, month, true) <= 180
  {
    EveryRunIsSafe(actions);
    assert MonthOk(Run(Empty, actions), month);
  }

  // A priority event is refused only in a month of 200 attempts, at least 20 of them for
  // priority events; any other event only when at most the reserve is left.
  lemma RefusalsKeepTheReserve(actions: seq<Action>, i: nat, event: Event, month: MonthKey)
    requires var w := Run(Empty, actions); i < |w.requests| && w.requests[i] == Answered(event, Refused(month))
    ensures var w := Run(Empty, actions);
            if IsPriority(event)
            then CountOf(w, month) == 200 && AttemptsIn(w.attempts, month, false) - AttemptsIn(w.attempts, month, true) >= 20
            else CountOf(w, month) >= 180
  {
    var w := Run(Empty, actions);
    EveryRunIsSafe(actions);
    assert Evidence(w, w.requests[i]);
    assert MonthOk(w, month);
  }

  // What each acknowledgement means: the host registered the event, or the provider accepted
  // exactly one send of it; a rejection was the provider's, of the only send.
  predicate AcceptedOnce(w: World, event: Event) {
    && event in w.events
    && match w.events[event].messageId
       case Some(HostReceipt) => Unsent(w, event)
       case Some(ProviderMessage(id)) => SentAs(w, event, SentAccepted(id))
       case None => false
  }

  lemma AcknowledgementsAreTrue(actions: seq<Action>, i: nat, event: Event, response: Response)
    requires var w := Run(Empty, actions); i < |w.requests| && w.requests[i] == Answered(event, response)
    ensures response == AcceptedAck || response == DuplicateAck ==> AcceptedOnce(Run(Empty, actions), event)
    ensures response == RejectedAck ==> SentAs(Run(Empty, actions), event, SentRejected)
  {
    var w := Run(Empty, actions);
    EveryRunIsSafe(actions);
    assert Evidence(w, w.requests[i]);
    if event in w.events { assert RowOk(w, event); }
  }

  // An event's state and the decision log agree: decided exactly when it has its one decision,
  // which was taken in time and fits the event's kind.
  lemma DecisionsMatchEvents(actions: seq<Action>, event: Event)
    requires event in Run(Empty, actions).events
    ensures var w := Run(Empty, actions);
            w.events[event].decided <==> exists k :: 0 <= k < |w.decisions| && w.decisions[k].event == event
    ensures var w := Run(Empty, actions);
            forall k :: 0 <= k < |w.decisions| && w.decisions[k].event == event ==>
              && CommandFits(event, w.decisions[k].command)
              && w.decisions[k].checkedAt <= event.kind.approval.expiresAt
              && (forall l :: 0 <= l < |w.decisions| && w.decisions[l].event == event ==> l == k)
  {
    var w := Run(Empty, actions);
    EveryRunIsSafe(actions);
    assert w.events[event].decided <==> HasDecision(w, event);
    forall k | 0 <= k < |w.decisions| && w.decisions[k].event == event
      ensures DecisionOk(w, w.decisions[k])
    {
      assert w.decisions[k] in w.decisions;
    }
  }

  // A human code names at most one event, so the decision is taken on the event that shows it.
  lemma CodeNamesOneEvent(actions: seq<Action>, code: string)
    ensures var w := Run(Empty, actions);
            match FoundByCode(w, code)
            case Some(event) => WithCode(w, code) == {event}
            case None => WithCode(w, code) == {}
  {
    EveryRunIsSafe(actions);
  }

  // A delivery report that overtakes the storing of its message id is lost: its webhook is used
  // up, so the event stays accepted however often that report is repeated.
  lemma EarlyReportIsLost(w: World, r: nat, event: Event, known: bool, message: string, webhook: string, delivered: bool, env: Environment)
    requires Safe(w) && r < |w.requests| && w.requests[r] == Storing(event, known, message)
    requires env.fault == Healthy
    ensures var reported := FinaliseStep(w, webhook, ProviderMessage(message), delivered);
            var stored := AdvanceStep(reported, r, env);
            && event in stored.events && stored.events[event].delivery == Accepted
            && stored.events[event].messageId == Some(ProviderMessage(message))
            && FinaliseStep(stored, webhook, ProviderMessage(message), delivered) == stored
  {
    hide OneHolder, SendsOk, CodesUnique, DecisionsOk, MonthsOk, Evidence;
    assert HolderOk(w, w.requests[r]) && RowOk(w, event);
  }

  // The row a report asks for.
  predicate ReportedAs(row: EventRow, delivered: bool) {
    row.delivery == (if delivered then Delivered else Failed) && row.finalStatus == Finalised(delivered)
  }

  // In every reachable state a report changes an event's row exactly when its webhook is new, the
  // row stores that message id already, and the row does not say the same yet; a row it changes
  // was handed over, so a report never touches a pending or claimed event.
  lemma ReportTakesEffectExactly(actions: seq<Action>, webhook: string, message: MessageId, delivered: bool, event: Event)
    requires event in Run(Empty, actions).events
    ensures var w := Run(Empty, actions);
            var before, after := w.events[event], FinaliseStep(w, webhook, message, delivered).events[event];
            && (after != before <==> webhook !in w.webhooks && before.messageId == Some(message) && !ReportedAs(before, delivered))
            && (after != before ==> ReportedAs(after, delivered) && before.delivery in {Accepted, Delivered, Failed})
            && after.messageId == before.messageId && after.decided == before.decided
  {
    EveryRunIsSafe(actions);
    hide Run;
    assert RowOk(Run(Empty, actions), event);
  }
}
