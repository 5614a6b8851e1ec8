// What the ledger's rows mean over its runs, in tokens, rates, dates and texts: what every
// settlement cost, and exactly when a reservation is granted.
module LedgerMeaning {
  import opened Calendar
  import opened Instants
  import opened Ledger
  import opened LedgerAccounts
  import opened LedgerRuns
  import opened Pricing
  import opened Wrappers

  // ----- Prices -----

  // The amount covers the tokens at the policy's three rates, with less than three microdollars of
  // rounding.
  predicate Prices(policy: PricingPolicy, usage: Usage, amount: nat) {
    && usage.cached <= usage.input
    && var exact := (usage.input - usage.cached) * policy.inputRate + usage.cached * policy.cachedRate
                    + usage.output * policy.outputRate;
       exact <= amount * 1_000_000 < exact + 3_000_000
  }

  // A terminal row of a reservation: for its request and its month, and charged by the tokens it
  // records, or in full without any.
  predicate Terminates(reserve: Row, row: Row) {
    && reserve.kind == Reserve && row.reservationId == reserve.reservationId
    && row.month == reserve.month && row.provider == reserve.provider && row.model == reserve.model
    && row.requestKey == reserve.requestKey && row.policy == reserve.policy
    && match row.usage
       case Some(usage) => Prices(reserve.policy, usage, row.amount)
       case None => row.amount == reserve.amount
  }

  lemma ChargedByPrices(reserve: Row, row: Row)
    requires ChargedBy(reserve, row)
    ensures match row.usage
            case Some(usage) => Prices(reserve.policy, usage, row.amount)
            case None => row.amount == reserve.amount
  {
    hide Quote;
    if row.usage.Some? { QuoteExact(reserve.policy, row.usage.value.input, row.usage.value.output, row.usage.value.cached); }
  }

  lemma {:induction false} FirstReserveIsThere(rows: seq<Row>, id: string) returns (j: nat)
    requires HasReserve(rows, id)
    ensures j < |rows| && rows[j] == FirstReserve(rows, id)
    ensures rows[j].kind == Reserve && rows[j].reservationId == id
  {
    hide HasReserve, FirstReserve;
    FirstReserveHasId(rows, id);
    FirstReserveUnfold(rows, id);
    var n := LastIndex(rows, id);
    if HasReserve(rows[..n], id) { j := FirstReserveIsThere(rows[..n], id); } else { j := n; }
  }

  lemma LastIndex(rows: seq<Row>, id: string) returns (n: nat)
    requires HasReserve(rows, id)
    ensures n == |rows| - 1
  {
    n := |rows| - 1;
  }

  lemma {:induction false} ValidLogAt(rows: seq<Row>, i: nat)
    requires ValidLog(rows) && i < |rows|
    ensures RowFollows(rows[..i], rows[i])
  {
    hide RowFollows;
    var n := |rows| - 1;
    if i < n {
      ValidLogAt(rows[..n], i);
      assert rows[..n][..i] == rows[..i];
    }
  }

  // In every run each terminal row belongs to an earlier reservation and costs what its tokens cost.
  lemma EveryTerminalIsPriced(config: Config, ops: seq<LedgerOp>, i: nat)
    requires AdmissibleRun(config, ops) && i < |Run(config, ops)| && Run(config, ops)[i].kind != Reserve
    ensures exists j :: 0 <= j < i && Terminates(Run(config, ops)[j], Run(config, ops)[i])
  {
    var rows := Run(config, ops);
    hide Run, AdmissibleRun, LedgerInvariant;
    EveryRunKeepsInvariant(config, ops);
    InvariantIsValid(rows, config);
    ValidLogAt(rows, i);
    hide ValidLog, HasReserve, HasTerminal, FirstReserve;
    var j := FirstReserveIsThere(rows[..i], rows[i].reservationId);
    ChargedByPrices(rows[j], rows[i]);
    hide RowFollows, ChargedBy;
    assert Terminates(rows[j], rows[i]);
  }

  // ----- Closing -----

  // The tokens a settlement records: those reported, when they can be priced.
  predicate Usable(usage: ReportedUsage) {
    0 <= usage.cached <= usage.input && 0 <= usage.output
  }

  // No row but reservations carries the id.
  predicate OpenAt(rows: seq<Row>, j: nat) {
    && j < |rows| && rows[j].kind == Reserve
    && forall i :: 0 <= i < |rows| && rows[i].reservationId == rows[j].reservationId ==> rows[i].kind == Reserve
  }

  lemma OpenIsFirst(rows: seq<Row>, j: nat)
    requires ValidLog(rows) && OpenAt(rows, j)
    ensures HasReserve(rows, rows[j].reservationId) && !HasTerminal(rows, rows[j].reservationId)
    ensures FirstReserve(rows, rows[j].reservationId) == rows[j]
  {
    var id := rows[j].reservationId;
    assert HasReserve(rows, id);
    var first := FirstReserveIsThere(rows, id);
    OneReserve(rows, first, j);
  }

  lemma LaterReserveIsNew(rows: seq<Row>, i: nat, j: nat)
    requires ValidLog(rows) && i < j < |rows| && rows[i].kind == rows[j].kind == Reserve
    ensures rows[i].reservationId != rows[j].reservationId
    ensures !SameRequest(rows[i], rows[j].month, rows[j].provider, rows[j].model, rows[j].requestKey)
  {
    ValidLogAt(rows, j);
    assert rows[..j][i] == rows[i];
  }

  lemma OneReserve(rows: seq<Row>, i: nat, j: nat)
    requires ValidLog(rows) && i < |rows| && j < |rows| && rows[i].kind == rows[j].kind == Reserve
    requires rows[i].reservationId == rows[j].reservationId
    ensures i == j
  {
    if i < j { LaterReserveIsNew(rows, i, j); }
    if j < i { LaterReserveIsNew(rows, j, i); }
  }

  // No two reservations of a run have the same id, or the same request key for the same model in
  // the same month.
  lemma NoRequestTwice(config: Config, ops: seq<LedgerOp>, i: nat, j: nat)
    requires AdmissibleRun(config, ops) && i < j < |Run(config, ops)|
    requires Run(config, ops)[i].kind == Run(config, ops)[j].kind == Reserve
    ensures var a, b := Run(config, ops)[i], Run(config, ops)[j];
            && a.reservationId != b.reservationId
            && (a.month != b.month || a.provider != b.provider || a.model != b.model || a.requestKey != b.requestKey)
  {
    EveryRunKeepsInvariant(config, ops);
    hide Run, AdmissibleRun;
    LaterReserveIsNew(Run(config, ops), i, j);
  }

  // Closing an open reservation appends one row at its time. A settlement records and prices the
  // reported tokens when they are usable; without them, and for an abandonment, it charges in full.
  lemma ClosingAppends(config: Config, ops: seq<LedgerOp>, j: nat, kind: Kind, usage: Option<ReportedUsage>, now: Instant)
    requires AdmissibleRun(config, ops) && OpenAt(Run(config, ops), j) && kind != Reserve
    ensures
      var rows := Run(config, ops);
      var after := Run(config, ops + [CloseOp(rows[j].reservationId, kind, usage, now)]);
      && |after| == |rows| + 1 && after[..|rows|] == rows
      && var row := after[|rows|];
         && Terminates(rows[j], row) && row.kind == kind && row.occurredAt == IsoFormat(now)
         && (kind == Settle && usage.Some? && Usable(usage.value) ==>
               row.usage == Some(Usage(usage.value.input, usage.value.output, usage.value.cached)))
         && (kind != Settle || usage.None? || !Usable(usage.value) ==> row.usage == None)
  {
    var rows := Run(config, ops);
    var id := rows[j].reservationId;
    var op := CloseOp(id, kind, usage, now);
    RunAppended(config, ops, op);
    hide Run, AdmissibleRun, LedgerInvariant, IsoFormat;
    EveryRunKeepsInvariant(config, ops);
    InvariantIsValid(rows, config);
    OpenIsFirst(rows, j);
    hide ValidLog, HasReserve, HasTerminal, FirstReserve, Quote;
    var row := TerminalRow(rows[j], kind, usage, now);
    ChargedByPrices(rows[j], row);
    assert Run(config, ops + [op]) == rows + [row];
    assert Terminates(rows[j], row);
  }

  lemma RunAppended(config: Config, ops: seq<LedgerOp>, op: LedgerOp)
    ensures Run(config, ops + [op]) == Apply(Run(config, ops), config, op)
  {
    hide Apply;
    assert (ops + [op])[..|ops|] == ops;
  }

  // Closing anything else changes nothing.
  lemma OnlyOpenReservationsClose(config: Config, ops: seq<LedgerOp>, target: string, kind: Kind, usage: Option<ReportedUsage>,
                                  now: Instant)
    requires AdmissibleRun(config, ops) && kind != Reserve
    requires forall j :: 0 <= j < |Run(config, ops)| && Run(config, ops)[j].reservationId == target ==> !OpenAt(Run(config, ops), j)
    ensures Run(config, ops + [CloseOp(target, kind, usage, now)]) == Run(config, ops)
  {
    var rows := Run(config, ops);
    RunAppended(config, ops, CloseOp(target, kind, usage, now));
    hide Run, AdmissibleRun;
    OpenMeans(rows, target);
  }

  lemma OpenMeans(rows: seq<Row>, id: string)
    ensures HasReserve(rows, id) && !HasTerminal(rows, id) ==>
              exists j :: 0 <= j < |rows| && rows[j].reservationId == id && OpenAt(rows, j)
  {
    if HasReserve(rows, id) && !HasTerminal(rows, id) {
      var j := FirstReserveIsThere(rows, id);
      assert OpenAt(rows, j);
    }
  }

  // ----- Granting -----

  predicate ProperDate(d: Date) {
    1 <= d.month <= 12 && 1 <= d.day <= 31
  }

  // Dates in the order of these numbers.
  function DateCode(year: nat, month: nat, day: nat): nat {
    year * 10_000 + month * 100 + day
  }

  // A call of the model in the month.
  predicate IsCall(row: Row, month: string, request: ReserveRequest) {
    row.kind == Reserve && row.month == month && row.provider == request.provider && row.model == request.model
  }

  function Calls(rows: seq<Row>, month: string, request: ReserveRequest): set<nat> {
    set i: nat | i < |rows| && IsCall(rows[i], month, request)
  }

  // What the chosen accounts cost: the charge of those that are closed, the reserve of the others.
  function Owed(accounts: seq<Account>, chosen: Row -> bool): nat {
    if accounts == [] then 0
    else
      var last := accounts[|accounts| - 1];
      Owed(accounts[..|accounts| - 1], chosen)
      + if !chosen(last.reserve) then 0
        else if last.closed.Some? then last.closed.value.amount else last.reserve.amount
  }

  // The request names its own policy, which is in effect on its day (the end day excluded) and has
  // a quota; calls are not switched off, this call has not been reserved in this month, the quota
  // is not used up, and neither the month nor the day gets more expensive than its limit.
  predicate MayReserve(config: Config, rows: seq<Row>, request: ReserveRequest, killSwitch: bool) {
    var text, policy := IsoFormat(request.now), request.policy;
    var today := DateCode(request.now.year, request.now.month, request.now.day);
    && |text| >= 10
    && policy.provider == request.provider && policy.model == request.model
    && DateCode(policy.effectiveFrom.year, policy.effectiveFrom.month, policy.effectiveFrom.day) <= today
    && (policy.openEnded || today < DateCode(policy.effectiveUntil.year, policy.effectiveUntil.month, policy.effectiveUntil.day))
    && !killSwitch
    && (request.provider, request.model) in config.quotas
    && |Calls(rows, text[..7], request)| < config.quotas[(request.provider, request.model)]
    && (forall i :: 0 <= i < |rows| && IsCall(rows[i], text[..7], request) ==> rows[i].requestKey != request.requestKey)
    && Owed(Accounts(rows), (r: Row) => r.month == text[..7]) + request.amount <= config.hardLimit
    && (config.dailyLimit.Some? ==>
          Owed(Accounts(rows), (r: Row) => |r.occurredAt| >= 10 && r.occurredAt[..10] == text[..10]) + request.amount
          <= config.dailyLimit.value)
  }

  lemma DateOrder(a: Date, b: Date)
    requires ProperDate(a) && ProperDate(b)
    ensures DateLeq(a, b) <==> DateCode(a.year, a.month, a.day) <= DateCode(b.year, b.month, b.day)
  {
  }

  lemma KeysAreTexts(t: Instant)
    ensures |IsoFormat(t)| >= 10 && MonthKey(t) == IsoFormat(t)[..7] && DayKey(t) == IsoFormat(t)[..10]
  {
    DayKeyIsPrefix(t);
    assert DayKey(t)[..7] == MonthKey(t);
    hide IsoFormat, Digits;
    assert IsoFormat(t)[..10][..7] == IsoFormat(t)[..7];
  }

  lemma {:induction false} CallCountCounts(rows: seq<Row>, month: string, request: ReserveRequest)
    ensures CallCount(rows, month, request.provider, request.model) == |Calls(rows, month, request)|
  {
    if rows == [] {
      assert Calls(rows, month, request) == {};
    } else {
      var n := |rows| - 1;
      CallCountCounts(rows[..n], month, request);
      var before := Calls(rows[..n], month, request);
      assert Calls(rows, month, request) == before + if IsCall(rows[n], month, request) then {n} else {};
    }
  }

  lemma RequestReservedMeans(rows: seq<Row>, month: string, request: ReserveRequest)
    ensures RequestReserved(rows, month, request.provider, request.model, request.requestKey) <==>
            exists i :: 0 <= i < |rows| && IsCall(rows[i], month, request) && rows[i].requestKey == request.requestKey
  {
    if i :| 0 <= i < |rows| && IsCall(rows[i], month, request) && rows[i].requestKey == request.requestKey {
      assert SameRequest(rows[i], month, request.provider, request.model, request.requestKey);
    }
  }

  lemma {:induction false} OwedIsTotal(accounts: seq<Account>, period: Period, chosen: Row -> bool)
    requires forall r: Row :: chosen(r) <==> InPeriod(r, period)
    ensures Owed(accounts, chosen) == Total(accounts, period, ChargedPart) + Total(accounts, period, ActivePart)
  {
    hide InPeriod;
    if accounts != [] { OwedIsTotal(accounts[..|accounts| - 1], period, chosen); }
  }

  lemma OwedIsSpend(rows: seq<Row>, period: Period, chosen: Row -> bool)
    requires ValidLog(rows) && forall r: Row :: chosen(r) <==> InPeriod(r, period)
    ensures EffectiveSpend(rows, period) == Owed(Accounts(rows), chosen)
  {
    hide ValidLog, InPeriod, Accounts, Charged, ActiveReserved;
    AggregatesAreAccountTotals(rows, period);
    OwedIsTotal(Accounts(rows), period, chosen);
  }

  lemma GrantedMeans(config: Config, rows: seq<Row>, request: ReserveRequest, killSwitch: bool)
    requires ValidLog(rows) && ValidInstant(request.now)
    requires ProperDate(request.policy.effectiveFrom) && ProperDate(request.policy.effectiveUntil)
    ensures ReserveOutcome(rows, config, request, killSwitch).Ok? <==> MayReserve(config, rows, request, killSwitch)
  {
    var text, policy := IsoFormat(request.now), request.policy;
    var today := Date(request.now.year, request.now.month, request.now.day);
    KeysAreTexts(request.now);
    DateOrder(policy.effectiveFrom, today);
    DateOrder(policy.effectiveUntil, today);
    CallCountCounts(rows, text[..7], request);
    RequestReservedMeans(rows, text[..7], request);
    OwedIsSpend(rows, Month(text[..7]), (r: Row) => r.month == text[..7]);
    OwedIsSpend(rows, Day(text[..10]), (r: Row) => |r.occurredAt| >= 10 && r.occurredAt[..10] == text[..10]);
    hide IsoFormat, MonthKey, DayKey, CallCount, RequestReserved, EffectiveSpend, Owed, Accounts, Calls, DateLeq, DateCode,
      ValidLog, IsCall;
  }

  // Over every run: a reservation is granted exactly when all of the above holds, and then its one
  // row says what was asked for, in the month of its time; otherwise nothing changes.
  lemma GrantedExactly(config: Config, ops: seq<LedgerOp>, request: ReserveRequest, id: string, killSwitch: bool)
    requires AdmissibleRun(config, ops) && ValidInstant(request.now)
    requires ProperDate(request.policy.effectiveFrom) && ProperDate(request.policy.effectiveUntil)
    ensures
      var rows := Run(config, ops);
      var text := IsoFormat(request.now);
      && |text| >= 10
      && Run(config, ops + [ReserveOp(request, id, killSwitch)]) ==
         if MayReserve(config, rows, request, killSwitch)
         then rows + [Row(Reserve, id, text, text[..7], request.provider, request.model, request.requestKey, request.amount,
                          request.policy, None)]
         else rows
  {
    var rows := Run(config, ops);
    RunAppended(config, ops, ReserveOp(request, id, killSwitch));
    EveryRunKeepsInvariant(config, ops);
    InvariantIsValid(rows, config);
    hide Run, AdmissibleRun, LedgerInvariant, ValidLog, IsoFormat, MonthKey, MayReserve, ReserveOutcome;
    GrantedMeans(config, rows, request, killSwitch);
    KeysAreTexts(request.now);
  }
}
