// Provider calls against the ledger: reserve, call, then settle or abandon; and planner failover
// over a list of providers, while other processes keep using the same ledger.
module Pipeline {
  import opened Wrappers
  import opened Pricing
  import opened Instants
  import opened Ledger
  import opened LedgerAccounts
  import opened LedgerRuns
  import opened LedgerFacts

  // How a provider call can end.
  datatype ProviderOutcome =
    | Declined                                    // a refusal or a non-retryable HTTP error
    | RetryableError                              // a retryable HTTP error
    | Uncertain(providerError: bool)              // any other failure, of the provider or not
    | Answered(usage: Option<ReportedUsage>, oversized: bool)

  // One provider attempt, with what other processes do to the ledger during the call.
  datatype Attempt = Attempt(
    request: ReserveRequest, id: string, killSwitch: bool, inputTooLarge: bool,
    outcome: ProviderOutcome, meanwhile: seq<LedgerOp>, closedAt: Instant)

  datatype CallError = InputRejected | OutputRejected | BudgetFailure(error: BudgetError) | ProviderFailure | OtherFailure
                     | NoPlanner

  function ApplyAll(rows: seq<Row>, config: Config, ops: seq<LedgerOp>): seq<Row>
    decreases ops
  {
    if ops == [] then rows else ApplyAll(Apply(rows, config, ops[0]), config, ops[1..])
  }

  // The event that closes the attempt's reservation.
  function ClosingOp(attempt: Attempt): LedgerOp {
    match attempt.outcome
    case Declined => CloseOp(attempt.id, Settle, Some(ReportedUsage(0, 0, 0)), attempt.closedAt)
    case RetryableError => CloseOp(attempt.id, Abandon, None, attempt.closedAt)
    case Uncertain(_) => CloseOp(attempt.id, Abandon, None, attempt.closedAt)
    case Answered(usage, _) => CloseOp(attempt.id, Settle, usage, attempt.closedAt)
  }

  function CallResult(attempt: Attempt, closed: Result<Row, BudgetError>): Result<Row, CallError> {
    if closed.Err? then Err(BudgetFailure(closed.error))
    else match attempt.outcome
      case Declined => Err(ProviderFailure)
      case RetryableError => Err(ProviderFailure)
      case Uncertain(providerError) => Err(if providerError then ProviderFailure else OtherFailure)
      case Answered(_, oversized) => if oversized then Err(OutputRejected) else Ok(closed.value)
  }

  datatype CallEffect = CallEffect(rows: seq<Row>, result: Result<Row, CallError>)

  predicate Granted(rows: seq<Row>, config: Config, attempt: Attempt) {
    !attempt.inputTooLarge && ReserveOutcome(rows, config, attempt.request, attempt.killSwitch).Ok?
  }

  // The ledger when the provider call returns.
  function DuringCall(rows: seq<Row>, config: Config, attempt: Attempt): seq<Row> {
    ApplyAll(rows + [ReserveRow(attempt.request, attempt.id)], config, attempt.meanwhile)
  }

  function CallSpec(rows: seq<Row>, config: Config, attempt: Attempt): CallEffect {
    if attempt.inputTooLarge then CallEffect(rows, Err(InputRejected))
    else
      match ReserveOutcome(rows, config, attempt.request, attempt.killSwitch)
      case Err(error) => CallEffect(rows, Err(BudgetFailure(error)))
      case Ok(_) =>
        var during, op := DuringCall(rows, config, attempt), ClosingOp(attempt);
        match CloseOutcome(during, attempt.id)
        case Ok(reserve) =>
          var event := TerminalRow(reserve, op.kind, op.usage, op.now);
          CallEffect(during + [event], CallResult(attempt, Ok(event)))
        case Err(error) => CallEffect(during, CallResult(attempt, Err(error)))
  }

  // The failures after which the next provider is tried.
  predicate FailsOver(error: CallError) {
    error == ProviderFailure || error == BudgetFailure(QuotaExceeded)
  }

  function PlannerSpec(rows: seq<Row>, config: Config, attempts: seq<Attempt>, lastError: CallError): CallEffect
    decreases attempts
  {
    if attempts == [] then CallEffect(rows, Err(lastError))
    else
      var first := CallSpec(rows, config, attempts[0]);
      if first.result.Err? && FailsOver(first.result.error)
      then PlannerSpec(first.rows, config, attempts[1..], first.result.error) else first
  }

  // ----- The calls -----

  // Other processes' transactions while the provider is working.
  method OthersProceed(ledger: BudgetLedger, ops: seq<LedgerOp>)
    modifies ledger
    ensures ledger.rows == ApplyAll(old(ledger.rows), ledger.config, ops)
  {
    assert ops[0..] == ops;
    for i := 0 to |ops|
      invariant ApplyAll(old(ledger.rows), ledger.config, ops) == ApplyAll(ledger.rows, ledger.config, ops[i..])
    {
      assert ops[i..][1..] == ops[i + 1..];
      ledger.rows := Apply(ledger.rows, ledger.config, ops[i]);
    }
  }

  method Call(ledger: BudgetLedger, attempt: Attempt) returns (r: Result<Row, CallError>)
    modifies ledger
    ensures CallEffect(ledger.rows, r) == CallSpec(old(ledger.rows), ledger.config, attempt)
  {
    hide ReserveOutcome, CloseOutcome, ApplyAll, TerminalRow, ReserveRow;
    if attempt.inputTooLarge { return Err(InputRejected); }
    var reservation := ledger.ReserveCost(attempt.request, attempt.id, attempt.killSwitch);
    if reservation.Err? { return Err(BudgetFailure(reservation.error)); }
    OthersProceed(ledger, attempt.meanwhile);
    var closed;
    match attempt.outcome {
      case Declined =>
        closed := ledger.Close(attempt.id, Settle, Some(ReportedUsage(0, 0, 0)), attempt.closedAt);
        return Err(if closed.Err? then BudgetFailure(closed.error) else ProviderFailure);
      case RetryableError =>
        closed := ledger.Close(attempt.id, Abandon, None, attempt.closedAt);
        return Err(if closed.Err? then BudgetFailure(closed.error) else ProviderFailure);
      case Uncertain(providerError) =>
        closed := ledger.Close(attempt.id, Abandon, None, attempt.closedAt);
        return Err(if closed.Err? then BudgetFailure(closed.error)
                   else if providerError then ProviderFailure else OtherFailure);
      case Answered(usage, oversized) =>
        closed := ledger.Close(attempt.id, Settle, usage, attempt.closedAt);
        if closed.Err? { return Err(BudgetFailure(closed.error)); }
        if oversized { return Err(OutputRejected); }
        return Ok(closed.value);
    }
  }

  method CallPlanner(ledger: BudgetLedger, attempts: seq<Attempt>) returns (r: Result<Row, CallError>)
    modifies ledger
    ensures CallEffect(ledger.rows, r) == PlannerSpec(old(ledger.rows), ledger.config, attempts, NoPlanner)
  {
    hide CallSpec;
    var lastError := NoPlanner;
    assert attempts[0..] == attempts;
    for i := 0 to |attempts|
      invariant PlannerSpec(old(ledger.rows), ledger.config, attempts, NoPlanner)
             == PlannerSpec(ledger.rows, ledger.config, attempts[i..], lastError)
    {
      assert attempts[i..][1..] == attempts[i + 1..];
      var result := Call(ledger, attempts[i]);
      if result.Ok? || !FailsOver(result.error) { return result; }
      lastError := result.error;
    }
    return Err(lastError);
  }

  // ----- Accounting -----

  predicate AdmissibleAll(rows: seq<Row>, config: Config, ops: seq<LedgerOp>)
    decreases ops
  {
    ops == [] || (Admissible(rows, ops[0]) && AdmissibleAll(Apply(rows, config, ops[0]), config, ops[1..]))
  }

  // Fresh identifiers, for this attempt and for whatever other processes reserve meanwhile.
  predicate AdmissibleAttempt(rows: seq<Row>, config: Config, attempt: Attempt) {
    && !HasReserve(rows, attempt.id) && !HasTerminal(rows, attempt.id)
    && (Granted(rows, config, attempt) ==>
          AdmissibleAll(rows + [ReserveRow(attempt.request, attempt.id)], config, attempt.meanwhile))
  }

  predicate AdmissiblePlan(rows: seq<Row>, config: Config, attempts: seq<Attempt>)
    decreases attempts
  {
    attempts == []
    || (AdmissibleAttempt(rows, config, attempts[0])
        && AdmissiblePlan(CallSpec(rows, config, attempts[0]).rows, config, attempts[1..]))
  }

  lemma {:induction false} OthersKeepLedger(rows: seq<Row>, config: Config, ops: seq<LedgerOp>)
    requires LedgerInvariant(rows, config) && AdmissibleAll(rows, config, ops)
    ensures LedgerInvariant(ApplyAll(rows, config, ops), config)
    ensures AccountsExtend(Accounts(rows), Accounts(ApplyAll(rows, config, ops)))
    decreases ops
  {
    hide LedgerInvariant, Apply, Admissible, Accounts;
    if ops != [] {
      StepKeepsInvariant(rows, config, ops[0]);
      StepExtendsAccounts(rows, config, ops[0]);
      OthersKeepLedger(Apply(rows, config, ops[0]), config, ops[1..]);
    }
  }

  // What an attempt's reservation is charged when nobody else closes it.
  function ChargeOf(attempt: Attempt): nat {
    match attempt.outcome
    case Declined => 0
    case RetryableError => attempt.request.amount
    case Uncertain(_) => attempt.request.amount
    case Answered(usage, _) =>
      if usage.Some? && ValidUsage(usage.value)
      then Quote(attempt.request.policy, usage.value.input, usage.value.output, usage.value.cached)
      else attempt.request.amount
  }

  // The new account a granted attempt leaves: closed, by this call or by another process during it.
  predicate LeavesClosed(rows: seq<Row>, config: Config, attempt: Attempt, after: seq<Row>) {
    var k := |Accounts(rows)|;
    && k < |Accounts(after)|
    && Accounts(after)[k].reserve == ReserveRow(attempt.request, attempt.id)
    && Accounts(after)[k].closed.Some?
    && (!HasTerminal(DuringCall(rows, config, attempt), attempt.id) ==>
          Accounts(after)[k].closed.value.amount == ChargeOf(attempt))
  }

  lemma NothingCostsNothing(policy: PricingPolicy)
    ensures Quote(policy, 0, 0, 0) == 0
  {
    NothingIsFree(policy.inputRate);
    NothingIsFree(policy.cachedRate);
    NothingIsFree(policy.outputRate);
  }

  lemma ClosingCharge(attempt: Attempt, op: LedgerOp)
    requires op == ClosingOp(attempt)
    ensures TerminalRow(ReserveRow(attempt.request, attempt.id), op.kind, op.usage, op.now).amount == ChargeOf(attempt)
  {
    hide Quote, IsoFormat, MonthKey;
    NothingCostsNothing(attempt.request.policy);
  }

  // A call either reserves nothing and leaves the ledger alone, or leaves its own reservation
  // closed: at zero for a clean decline, at the full reserve for an uncertain failure or unusable
  // usage, at the quote of the usage otherwise, unless another process closed it meanwhile.
  lemma CallClosesItsReservation(rows: seq<Row>, config: Config, attempt: Attempt)
    requires LedgerInvariant(rows, config) && AdmissibleAttempt(rows, config, attempt)
    ensures
      var after := CallSpec(rows, config, attempt).rows;
      && LedgerInvariant(after, config)
      && AccountsExtend(Accounts(rows), Accounts(after))
      && (if Granted(rows, config, attempt) then LeavesClosed(rows, config, attempt, after) else after == rows)
  {
    if Granted(rows, config, attempt) {
      GrantedCallCloses(rows, config, attempt);
    } else {
      hide LedgerInvariant, Accounts, ReserveOutcome;
    }
  }

  lemma OpenedIsExtended(before: seq<Account>, reserve: Row, after: seq<Account>)
    requires AccountsExtend(before + [Account(reserve, None)], after)
    ensures AccountsExtend(before, after) && |before| < |after| && after[|before|].reserve == reserve
  {
    var longer := before + [Account(reserve, None)];
    assert longer[|before|] == Account(reserve, None);
    forall k | 0 <= k < |before|
      ensures after[k].reserve == before[k].reserve && (before[k].closed.Some? ==> after[k].closed == before[k].closed)
    {
      assert longer[k] == before[k];
    }
  }

  // A granted reservation follows the log as one more open account.
  lemma GrantedOpens(rows: seq<Row>, config: Config, attempt: Attempt)
    requires LedgerInvariant(rows, config) && Granted(rows, config, attempt)
    requires !HasReserve(rows, attempt.id) && !HasTerminal(rows, attempt.id)
    ensures
      var reserve := ReserveRow(attempt.request, attempt.id);
      && LedgerInvariant(rows + [reserve], config)
      && Accounts(rows + [reserve]) == Accounts(rows) + [Account(reserve, None)]
  {
    InvariantIsValid(rows, config);
    GrantedReserveFollows(rows, config, attempt.request, attempt.id, attempt.killSwitch);
    ReserveKeepsInvariant(rows, config, attempt.request, attempt.id, attempt.killSwitch);
    hide LedgerInvariant, ReserveOutcome, RowFollows, ValidLog, HasReserve, HasTerminal, IsoFormat, MonthKey, Accounts;
    ValidLogOfAppend(rows, ReserveRow(attempt.request, attempt.id));
  }

  lemma ReservationOpensAccount(rows: seq<Row>, config: Config, attempt: Attempt)
    requires LedgerInvariant(rows, config) && AdmissibleAttempt(rows, config, attempt) && Granted(rows, config, attempt)
    ensures
      var reserve := ReserveRow(attempt.request, attempt.id);
      var during := DuringCall(rows, config, attempt);
      && LedgerInvariant(during, config)
      && AccountsExtend(Accounts(rows), Accounts(during))
      && |Accounts(rows)| < |Accounts(during)|
      && Accounts(during)[|Accounts(rows)|].reserve == reserve
  {
    hide LedgerInvariant, Granted, HasReserve, HasTerminal, Accounts, AccountsExtend, ReserveRow, AdmissibleAll, ApplyAll;
    var reserve := ReserveRow(attempt.request, attempt.id);
    GrantedOpens(rows, config, attempt);
    OthersKeepLedger(rows + [reserve], config, attempt.meanwhile);
    OpenedIsExtended(Accounts(rows), reserve, Accounts(DuringCall(rows, config, attempt)));
  }

  // A granted call ends with one closing transaction on the ledger as it then stands.
  lemma GrantedCallEnds(rows: seq<Row>, config: Config, attempt: Attempt)
    requires Granted(rows, config, attempt)
    ensures CallSpec(rows, config, attempt).rows == Apply(DuringCall(rows, config, attempt), config, ClosingOp(attempt))
    ensures ClosingOp(attempt).CloseOp? && ClosingOp(attempt).kind != Reserve && ClosingOp(attempt).target == attempt.id
  {
    hide ReserveOutcome, CloseOutcome, DuringCall, TerminalRow;
  }

  lemma GrantedCallCloses(rows: seq<Row>, config: Config, attempt: Attempt)
    requires LedgerInvariant(rows, config) && AdmissibleAttempt(rows, config, attempt) && Granted(rows, config, attempt)
    ensures
      var after := CallSpec(rows, config, attempt).rows;
      && LedgerInvariant(after, config)
      && AccountsExtend(Accounts(rows), Accounts(after))
      && LeavesClosed(rows, config, attempt, after)
  {
    var k, during, op := |Accounts(rows)|, DuringCall(rows, config, attempt), ClosingOp(attempt);
    var after := CallSpec(rows, config, attempt).rows;
    ReservationOpensAccount(rows, config, attempt);
    GrantedCallEnds(rows, config, attempt);
    hide LedgerInvariant, Accounts, CallSpec, Apply, AdmissibleAttempt, Granted, DuringCall, ClosingOp, ReserveRow,
      HasTerminal, AccountsExtend;
    StepKeepsInvariant(during, config, op);
    StepExtendsAccounts(during, config, op);
    ExtendsTransitive(Accounts(rows), Accounts(during), Accounts(after));
    InvariantIsValid(during, config);
    ClosingClosesAccount(during, config, attempt, k);
  }

  // The closing transaction closes the attempt's account, unless it is closed already.
  lemma ClosingClosesAccount(during: seq<Row>, config: Config, attempt: Attempt, k: nat)
    requires ValidLog(during) && k < |Accounts(during)|
    requires Accounts(during)[k].reserve == ReserveRow(attempt.request, attempt.id)
    ensures
      var after := Apply(during, config, ClosingOp(attempt));
      && k < |Accounts(after)| && Accounts(after)[k].closed.Some?
      && Accounts(after)[k].reserve == ReserveRow(attempt.request, attempt.id)
      && (!HasTerminal(during, attempt.id) ==> Accounts(after)[k].closed.value.amount == ChargeOf(attempt))
  {
    hide HasReserve, HasTerminal, FirstReserve, Accounts, ValidLog, TerminalRow, ReserveRow, ChargeOf;
    AccountsMatchLog(during);
    ReserveRowId(attempt);
    var account, op := Accounts(during)[k], ClosingOp(attempt);
    assert AccountMatches(during, account);
    if !HasTerminal(during, attempt.id) {
      var event := TerminalRow(account.reserve, op.kind, op.usage, op.now);
      ClosingCharge(attempt, op);
      ClosedByEvent(during, k, event, op);
    }
  }

  lemma ReserveRowId(attempt: Attempt)
    ensures ReserveRow(attempt.request, attempt.id).reservationId == attempt.id
  {
  }

  lemma ClosedByEvent(rows: seq<Row>, k: nat, event: Row, op: LedgerOp)
    requires ValidLog(rows) && k < |Accounts(rows)| && op.CloseOp? && op.kind != Reserve
    requires AccountMatches(rows, Accounts(rows)[k]) && Accounts(rows)[k].closed.None?
    requires event == TerminalRow(Accounts(rows)[k].reserve, op.kind, op.usage, op.now)
    ensures Accounts(rows + [event]) == CloseAccount(Accounts(rows), event)
    ensures Accounts(rows + [event])[k] == Account(Accounts(rows)[k].reserve, Some(event))
  {
    hide HasReserve, HasTerminal, FirstReserve, IsoFormat, Quote, ValidLog;
    assert RowFollows(rows, event);
    hide RowFollows, Accounts;
    ValidLogOfAppend(rows, event);
  }

  lemma ExtendsTransitive(a: seq<Account>, b: seq<Account>, c: seq<Account>)
    requires AccountsExtend(a, b) && AccountsExtend(b, c)
    ensures AccountsExtend(a, c)
  {
  }

  // How many attempts are made before an answer or a failure that does not fail over.
  function PlannerTried(rows: seq<Row>, config: Config, attempts: seq<Attempt>): nat
    decreases attempts
  {
    if attempts == [] then 0
    else
      var first := CallSpec(rows, config, attempts[0]);
      if first.result.Err? && FailsOver(first.result.error) then 1 + PlannerTried(first.rows, config, attempts[1..]) else 1
  }

  // The ledger just before attempt i.
  function StateBefore(rows: seq<Row>, config: Config, attempts: seq<Attempt>, i: nat): seq<Row>
    requires i <= |attempts|
    decreases i
  {
    if i == 0 then rows else StateBefore(CallSpec(rows, config, attempts[0]).rows, config, attempts[1..], i - 1)
  }

  lemma LeavesClosedSurvives(rows: seq<Row>, config: Config, attempt: Attempt, after: seq<Row>, later: seq<Row>)
    requires LeavesClosed(rows, config, attempt, after) && AccountsExtend(Accounts(after), Accounts(later))
    ensures LeavesClosed(rows, config, attempt, later)
  {
    hide Accounts, DuringCall, HasTerminal, ChargeOf, ReserveRow;
  }

  // When the planner returns or raises, every reservation it opened, at whichever provider, is
  // closed, with the charge its outcome calls for; earlier accounts are untouched.
  lemma {:induction false} PlannerClosesEveryReservation(
    rows: seq<Row>, config: Config, attempts: seq<Attempt>, lastError: CallError)
    requires LedgerInvariant(rows, config) && AdmissiblePlan(rows, config, attempts)
    ensures PlannerTried(rows, config, attempts) <= |attempts|
    ensures
      var after := PlannerSpec(rows, config, attempts, lastError).rows;
      && LedgerInvariant(after, config)
      && AccountsExtend(Accounts(rows), Accounts(after))
      && forall i :: (0 <= i < PlannerTried(rows, config, attempts)
                      && Granted(StateBefore(rows, config, attempts, i), config, attempts[i])) ==>
           LeavesClosed(StateBefore(rows, config, attempts, i), config, attempts[i], after)
    decreases attempts
  {
    hide LedgerInvariant, Accounts, CallSpec, AccountsExtend, AdmissibleAttempt, LeavesClosed, Granted;
    if attempts == [] {
      NothingExtends(Accounts(rows));
    } else {
      var first := CallSpec(rows, config, attempts[0]);
      CallClosesItsReservation(rows, config, attempts[0]);
      if first.result.Err? && FailsOver(first.result.error) {
        PlannerClosesEveryReservation(first.rows, config, attempts[1..], first.result.error);
        var after := PlannerSpec(rows, config, attempts, lastError).rows;
        assert after == PlannerSpec(first.rows, config, attempts[1..], first.result.error).rows;
        ExtendsTransitive(Accounts(rows), Accounts(first.rows), Accounts(after));
        forall i | 0 <= i < PlannerTried(rows, config, attempts)
                   && Granted(StateBefore(rows, config, attempts, i), config, attempts[i])
          ensures LeavesClosed(StateBefore(rows, config, attempts, i), config, attempts[i], after)
        {
          if i == 0 {
            LeavesClosedSurvives(rows, config, attempts[0], first.rows, after);
          } else {
            assert attempts[i] == attempts[1..][i - 1];
            assert StateBefore(rows, config, attempts, i) == StateBefore(first.rows, config, attempts[1..], i - 1);
          }
        }
      }
    }
  }

  predicate ProviderFault(outcome: ProviderOutcome) {
    match outcome
    case Declined => true
    case RetryableError => true
    case Uncertain(providerError) => providerError
    case Answered(_, _) => false
  }

  // The provider's own quota is used up; or its call was paid for, it failed by its own fault, and
  // no other process had closed the reservation by then.
  predicate MovesOn(rows: seq<Row>, config: Config, attempt: Attempt) {
    !attempt.inputTooLarge &&
    match ReserveOutcome(rows, config, attempt.request, attempt.killSwitch)
    case Err(error) => error == QuotaExceeded
    case Ok(_) => ProviderFault(attempt.outcome) && CloseOutcome(DuringCall(rows, config, attempt), attempt.id).Ok?
  }

  lemma FailsOverExactly(rows: seq<Row>, config: Config, attempt: Attempt)
    ensures
      var result := CallSpec(rows, config, attempt).result;
      result.Err? && FailsOver(result.error) <==> MovesOn(rows, config, attempt)
  {
    hide ReserveOutcome, DuringCall, HasReserve, HasTerminal, TerminalRow;
  }

  // The planner's effect and answer are those of one attempt, made on the ledger that the attempts
  // before it left: each of those moved on, and that one is the last or did not.
  lemma {:induction false} OnlyProviderFailuresFailOver(
    rows: seq<Row>, config: Config, attempts: seq<Attempt>, lastError: CallError) returns (n: nat)
    requires attempts != []
    ensures n < |attempts|
    ensures PlannerSpec(rows, config, attempts, lastError) == CallSpec(StateBefore(rows, config, attempts, n), config, attempts[n])
    ensures forall i :: 0 <= i < n ==> MovesOn(StateBefore(rows, config, attempts, i), config, attempts[i])
    ensures n + 1 < |attempts| ==> !MovesOn(StateBefore(rows, config, attempts, n), config, attempts[n])
    decreases attempts
  {
    hide CallSpec, MovesOn;
    var first := CallSpec(rows, config, attempts[0]);
    FailsOverExactly(rows, config, attempts[0]);
    if MovesOn(rows, config, attempts[0]) && |attempts| > 1 {
      var rest := OnlyProviderFailuresFailOver(first.rows, config, attempts[1..], first.result.error);
      n := rest + 1;
      forall i | 0 < i <= n
        ensures StateBefore(rows, config, attempts, i) == StateBefore(first.rows, config, attempts[1..], i - 1)
        ensures attempts[i] == attempts[1..][i - 1]
      {
      }
    } else {
      n := 0;
      if |attempts| == 1 { assert attempts[1..] == []; }
    }
  }
}
