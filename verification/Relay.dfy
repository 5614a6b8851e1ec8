// The notification relay: concurrent requests over one shared database. Every statement, and
// every batch, is one atomic step; between steps any other request may run, a statement may
// throw before or after taking effect, and a request may stop for good at any point.
module Relay {
  import opened Wrappers

  const MONTHLY_SMS_LIMIT := 200
  const PRIORITY_SMS_RESERVE := 20

  datatype Approval = Approval(code: string, expiresAt: int)
  datatype Kind =
    | ProposalQuarantined(approval: Approval)
    | ExecutionReady(approval: Approval)
    | CrashTriage(potentialHighValue: bool)
    | BudgetThreshold(critical: bool)
    | Informational

  // An event stands for its digest, which is computed from all of its content.
  datatype Event = Event(id: string, kind: Kind)

  predicate IsApproval(event: Event) {
    event.kind.ProposalQuarantined? || event.kind.ExecutionReady?
  }

  predicate IsPriority(event: Event) {
    match event.kind
    case ProposalQuarantined(_) => true
    case ExecutionReady(_) => true
    case CrashTriage(potentialHighValue) => potentialHighValue
    case BudgetThreshold(critical) => critical
    case Informational => false
  }

  type MonthKey = string

  datatype DeliveryState = Pending | Claimed | Accepted | Delivered | Failed
  datatype MessageId = HostReceipt | ProviderMessage(id: string)

  // The month of a refusal is not stored by the relay; it is kept here for the proofs.
  datatype FinalStatus =
    | NoStatus
    | ProviderRejected
    | MonthlyRefusal(month: MonthKey)
    | Finalised(delivered: bool)

  datatype EventRow = EventRow(delivery: DeliveryState, messageId: Option<MessageId>, finalStatus: FinalStatus, decided: bool)

  datatype Command = Approve | Execute | Deny
  datatype Decision = Decision(event: Event, command: Command, checkedAt: int)

  datatype Response =
    | AcceptedAck | DuplicateAck | RejectedAck          // 200 and 201 acknowledgements
    | Refused(month: MonthKey)                          // 429
    | Conflict | Unavailable                            // 409, 500 and 503
    | DecisionRecorded | WebhookIgnored | WebhookDuplicate

  // Where a request stands: the statement it executes next.
  datatype Request =
    | Selecting(event: Event)
    | Inserting(event: Event)
    | Registering(event: Event, known: bool)
    | Claiming(event: Event, known: bool)
    | Counting(event: Event, known: bool, month: MonthKey)
    | Reverting(event: Event)
    | Refusing(event: Event, month: MonthKey)
    | Sending(event: Event, known: bool, month: MonthKey)
    | Storing(event: Event, known: bool, message: string)
    | Rejecting(event: Event)
    | Replaying(webhook: string, code: string, command: Command)
    | LookingUp(webhook: string, code: string, command: Command)
    | Ignoring(webhook: string)
    | Deciding(webhook: string, decision: Decision)
    | Rechecking(webhook: string)
    | Answered(event: Event, response: Response)
    | WebhookAnswered(webhook: string, response: Response)

  datatype Outcome = SentAccepted(id: string) | SentRejected | SentUncertain

  datatype Attempt = Attempt(event: Event, month: MonthKey)
  datatype Send = Send(event: Event, month: MonthKey, outcome: Outcome)

  // The database and the requests in flight; and, for the proofs, every counted attempt and
  // every call to the provider.
  datatype World = World(
    events: map<Event, EventRow>, monthly: map<MonthKey, nat>, webhooks: set<string>, decisions: seq<Decision>,
    requests: seq<Request>, attempts: seq<Attempt>, sends: seq<Send>)

  datatype Fault = Healthy | FailBefore | FailAfter

  // What a step cannot determine: faults, configuration, clock and the provider's answer.
  datatype Environment = Environment(fault: Fault, hostMode: bool, month: MonthKey, now: int, answer: Option<Outcome>)

  datatype Action =
    | Submit(event: Event)
    | Deliver(webhook: string, code: string, command: Command)
    | Finalise(webhook: string, message: MessageId, delivered: bool)
    | Advance(request: nat, env: Environment)

  const NewRow := EventRow(Pending, None, NoStatus, false)
  const Empty := World(map[], map[], {}, [], [], [], [])

  function AttemptLimit(event: Event): nat {
    if IsPriority(event) then MONTHLY_SMS_LIMIT else MONTHLY_SMS_LIMIT - PRIORITY_SMS_RESERVE
  }

  function CountOf(w: World, month: MonthKey): nat {
    if month in w.monthly then w.monthly[month] else 0
  }

  // WHERE event_digest = ? AND delivery_state = ?
  predicate Matches(w: World, event: Event, state: DeliveryState) {
    event in w.events && w.events[event].delivery == state
  }

  function SetRow(w: World, event: Event, row: EventRow): World {
    w.(events := w.events[event := row])
  }

  function Goto(w: World, r: nat, next: Request): World
    requires r < |w.requests|
  {
    w.(requests := w.requests[r := next])
  }

  // An UPDATE guarded by the delivery state; unless it reports exactly one change, the request
  // ends with a temporary failure.
  function Guarded(w: World, r: nat, event: Event, state: DeliveryState, row: EventRow, fault: Fault, changed: Request): World
    requires r < |w.requests|
  {
    var effect := if fault != FailBefore && Matches(w, event, state) then SetRow(w, event, row) else w;
    Goto(effect, r, if fault == Healthy && Matches(w, event, state) then changed else Answered(event, Unavailable))
  }

  function RowOf(w: World, event: Event): EventRow {
    if event in w.events then w.events[event] else NewRow
  }

  function AfterSelect(w: World, event: Event, hostMode: bool): Request {
    if event !in w.events then Inserting(event) else
    var row := w.events[event];
    if row.messageId.Some? && (row.delivery == Accepted || row.delivery == Delivered) then Answered(event, DuplicateAck)
    else if row.delivery == Failed && row.finalStatus == ProviderRejected then Answered(event, RejectedAck)
    else if row.delivery == Failed && row.finalStatus.MonthlyRefusal? then Answered(event, Refused(row.finalStatus.month))
    else if hostMode then Registering(event, true)
    else Claiming(event, true)
  }

  function StepSelecting(w: World, r: nat, event: Event, env: Environment): World
    requires r < |w.requests|
  {
    Goto(w, r, if env.fault == Healthy then AfterSelect(w, event, env.hostMode) else Answered(event, Unavailable))
  }

  // The digest is the primary key and human codes are unique.
  predicate CanInsert(w: World, event: Event) {
    && event !in w.events
    && (IsApproval(event) ==> forall other :: other in w.events && IsApproval(other) ==>
                                other.kind.approval.code != event.kind.approval.code)
  }

  function StepInserting(w: World, r: nat, event: Event, env: Environment): World
    requires r < |w.requests|
  {
    var effect := if env.fault != FailBefore && CanInsert(w, event) then SetRow(w, event, NewRow) else w;
    Goto(effect, r,
         if env.fault != Healthy || !CanInsert(w, event) then Answered(event, Conflict)
         else if env.hostMode then Registering(event, false)
         else Claiming(event, false))
  }

  function Acknowledgement(known: bool): Response {
    if known then DuplicateAck else AcceptedAck
  }

  function StepRegistering(w: World, r: nat, event: Event, known: bool, env: Environment): World
    requires r < |w.requests|
  {
    var row := RowOf(w, event).(messageId := Some(HostReceipt), delivery := Accepted);
    Guarded(w, r, event, Pending, row, env.fault, Answered(event, Acknowledgement(known)))
  }

  function StepClaiming(w: World, r: nat, event: Event, known: bool, env: Environment): World
    requires r < |w.requests|
  {
    var row := RowOf(w, event).(delivery := Claimed);
    Guarded(w, r, event, Pending, row, env.fault, Counting(event, known, env.month))
  }

  // A month's first attempt is inserted; later ones increment the count while it is below the limit.
  predicate MayCount(w: World, event: Event, month: MonthKey) {
    month !in w.monthly || w.monthly[month] < AttemptLimit(event)
  }

  function Counted(w: World, event: Event, month: MonthKey): World {
    if MayCount(w, event, month)
    then w.(monthly := w.monthly[month := CountOf(w, month) + 1], attempts := w.attempts + [Attempt(event, month)])
    else w
  }

  function StepCounting(w: World, r: nat, event: Event, known: bool, month: MonthKey, env: Environment): World
    requires r < |w.requests|
  {
    Goto(if env.fault == FailBefore then w else Counted(w, event, month), r,
         if env.fault != Healthy then Reverting(event)
         else if MayCount(w, event, month) then Sending(event, known, month)
         else Refusing(event, month))
  }

  function StepReverting(w: World, r: nat, event: Event, env: Environment): World
    requires r < |w.requests|
  {
    var row := RowOf(w, event).(delivery := Pending);
    Guarded(w, r, event, Claimed, row, env.fault, Answered(event, Unavailable))
  }

  function StepRefusing(w: World, r: nat, event: Event, month: MonthKey, env: Environment): World
    requires r < |w.requests|
  {
    var row := RowOf(w, event).(delivery := Failed, finalStatus := MonthlyRefusal(month));
    Guarded(w, r, event, Claimed, row, env.fault, Answered(event, Refused(month)))
  }

  // Without an answer the provider was never called.
  function StepSending(w: World, r: nat, event: Event, known: bool, month: MonthKey, env: Environment): World
    requires r < |w.requests|
  {
    match env.answer
    case None => Goto(w, r, Answered(event, Unavailable))
    case Some(outcome) =>
      Goto(w.(sends := w.sends + [Send(event, month, outcome)]), r,
           match outcome
           case SentAccepted(id) => Storing(event, known, id)
           case SentRejected => Rejecting(event)
           case SentUncertain => Answered(event, Unavailable))
  }

  function StepStoring(w: World, r: nat, event: Event, known: bool, message: string, env: Environment): World
    requires r < |w.requests|
  {
    var row := RowOf(w, event).(messageId := Some(ProviderMessage(message)), delivery := Accepted);
    Guarded(w, r, event, Claimed, row, env.fault, Answered(event, Acknowledgement(known)))
  }

  function StepRejecting(w: World, r: nat, event: Event, env: Environment): World
    requires r < |w.requests|
  {
    var row := RowOf(w, event).(delivery := Failed, finalStatus := ProviderRejected);
    Guarded(w, r, event, Claimed, row, env.fault, Answered(event, RejectedAck))
  }

  function StepReplaying(w: World, r: nat, webhook: string, code: string, command: Command, env: Environment): World
    requires r < |w.requests|
  {
    Goto(w, r,
         if env.fault != Healthy then WebhookAnswered(webhook, Unavailable)
         else if webhook in w.webhooks then WebhookAnswered(webhook, WebhookDuplicate)
         else LookingUp(webhook, code, command))
  }

  function WithCode(w: World, code: string): set<Event> {
    set e | e in w.events && IsApproval(e) && e.kind.approval.code == code
  }

  // WHERE human_code = ?
  ghost function FoundByCode(w: World, code: string): Option<Event> {
    if WithCode(w, code) == {} then None else
    var e :| e in WithCode(w, code);
    Some(e)
  }

  predicate CommandFits(event: Event, command: Command) {
    match event.kind
    case ProposalQuarantined(_) => command != Execute
    case ExecutionReady(_) => command != Approve
    case _ => false
  }

  predicate Decidable(w: World, event: Event, command: Command, now: int) {
    && event in w.events
    && IsApproval(event)
    && !w.events[event].decided
    && now <= event.kind.approval.expiresAt
    && CommandFits(event, command)
  }

  ghost function StepLookingUp(w: World, r: nat, webhook: string, code: string, command: Command, env: Environment): World
    requires r < |w.requests|
  {
    var found := FoundByCode(w, code);
    Goto(w, r,
         if env.fault != Healthy then WebhookAnswered(webhook, Unavailable)
         else if found.Some? && Decidable(w, found.value, command, env.now)
         then Deciding(webhook, Decision(found.value, command, env.now))
         else Ignoring(webhook))
  }

  function StepIgnoring(w: World, r: nat, webhook: string, env: Environment): World
    requires r < |w.requests|
  {
    var effect := if env.fault == FailBefore then w else w.(webhooks := w.webhooks + {webhook});
    Goto(effect, r,
         if env.fault != Healthy then WebhookAnswered(webhook, Unavailable)
         else if webhook in w.webhooks then WebhookAnswered(webhook, WebhookDuplicate)
         else WebhookAnswered(webhook, WebhookIgnored))
  }

  // One decision per event, of a known event; a violated key rolls the whole batch back.
  predicate BatchCommits(w: World, webhook: string, decision: Decision) {
    && webhook !in w.webhooks
    && decision.event in w.events
    && (forall d :: d in w.decisions ==> d.event != decision.event)
  }

  predicate Undecided(w: World, event: Event) {
    event in w.events && !w.events[event].decided
  }

  // The batch: mark the webhook, append the decision, and mark the event where it is undecided.
  function Decide(w: World, webhook: string, decision: Decision): World {
    var inserted := w.(webhooks := w.webhooks + {webhook}, decisions := w.decisions + [decision]);
    if Undecided(w, decision.event)
    then SetRow(inserted, decision.event, w.events[decision.event].(decided := true))
    else inserted
  }

  // Anything but one change by each of the three statements is treated as a failure.
  function StepDeciding(w: World, r: nat, webhook: string, decision: Decision, env: Environment): World
    requires r < |w.requests|
  {
    var commits := env.fault != FailBefore && BatchCommits(w, webhook, decision);
    Goto(if commits then Decide(w, webhook, decision) else w, r,
         if commits && env.fault == Healthy && Undecided(w, decision.event)
         then WebhookAnswered(webhook, DecisionRecorded)
         else Rechecking(webhook))
  }

  function StepRechecking(w: World, r: nat, webhook: string, env: Environment): World
    requires r < |w.requests|
  {
    Goto(w, r, WebhookAnswered(webhook, if env.fault == Healthy && webhook in w.webhooks then WebhookDuplicate else Unavailable))
  }

  // The delivery report of a message: every row holding that message id is updated.
  function FinaliseStep(w: World, webhook: string, message: MessageId, delivered: bool): World {
    if webhook in w.webhooks then w else
    w.(webhooks := w.webhooks + {webhook},
       events := map e | e in w.events :: FinalRow(RowOf(w, e), message, delivered))
  }

  function FinalRow(row: EventRow, message: MessageId, delivered: bool): EventRow {
    if row.messageId == Some(message)
    then row.(delivery := if delivered then Delivered else Failed, finalStatus := Finalised(delivered))
    else row
  }

  ghost function AdvanceStep(w: World, r: nat, env: Environment): World
    requires r < |w.requests|
  {
    match w.requests[r]
    case Selecting(event) => StepSelecting(w, r, event, env)
    case Inserting(event) => StepInserting(w, r, event, env)
    case Registering(event, known) => StepRegistering(w, r, event, known, env)
    case Claiming(event, known) => StepClaiming(w, r, event, known, env)
    case Counting(event, known, month) => StepCounting(w, r, event, known, month, env)
    case Reverting(event) => StepReverting(w, r, event, env)
    case Refusing(event, month) => StepRefusing(w, r, event, month, env)
    case Sending(event, known, month) => StepSending(w, r, event, known, month, env)
    case Storing(event, known, message) => StepStoring(w, r, event, known, message, env)
    case Rejecting(event) => StepRejecting(w, r, event, env)
    case Replaying(webhook, code, command) => StepReplaying(w, r, webhook, code, command, env)
    case LookingUp(webhook, code, command) => StepLookingUp(w, r, webhook, code, command, env)
    case Ignoring(webhook) => StepIgnoring(w, r, webhook, env)
    case Deciding(webhook, decision) => StepDeciding(w, r, webhook, decision, env)
    case Rechecking(webhook) => StepRechecking(w, r, webhook, env)
    case Answered(_, _) => w
    case WebhookAnswered(_, _) => w
  }

  ghost function Step(w: World, a: Action): World {
    match a
    case Submit(event) => w.(requests := w.requests + [Selecting(event)])
    case Deliver(webhook, code, command) => w.(requests := w.requests + [Replaying(webhook, code, command)])
    case Finalise(webhook, message, delivered) => FinaliseStep(w, webhook, message, delivered)
    case Advance(r, env) => if r < |w.requests| then AdvanceStep(w, r, env) else w
  }

  ghost function Run(w: World, actions: seq<Action>): World {
    if actions == [] then w else Step(Run(w, actions[..|actions| - 1]), actions[|actions| - 1])
  }
}
