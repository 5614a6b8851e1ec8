// The append-only budget ledger: SQL aggregates over an event log, transactions that append to it,
// and the accounts the log stands for.
module Ledger {
  import opened Wrappers
  import opened Pricing
  import opened Instants
  import opened Calendar

  datatype Kind = Reserve | Settle | Abandon
  datatype Usage = Usage(input: nat, output: nat, cached: nat)

  datatype Row = Row(
    kind: Kind, reservationId: string, occurredAt: string, month: string, provider: string, model: string,
    requestKey: string, amount: nat, policy: PricingPolicy, usage: Option<Usage>)

  datatype BudgetError =
    | PolicyMismatch | PricingNotEffective | UnknownQuota | KillSwitchActive | DuplicateRequest | QuotaExceeded
    | MonthlyLimit | DailyLimit | ReservationNotFound | ReservationAlreadyClosed | NegativeAge | DateOutOfRange

  datatype Config = Config(hardLimit: nat, dailyLimit: Option<nat>, quotas: map<(string, string), nat>)

  datatype ReserveRequest = ReserveRequest(
    provider: string, model: string, requestKey: string, amount: nat, policy: PricingPolicy, now: Instant)

  // Token counts as a provider reports them: None when missing or not integers.
  datatype ReportedUsage = ReportedUsage(input: int, output: int, cached: int)

  predicate IsTerminal(row: Row) {
    row.kind == Settle || row.kind == Abandon
  }

  // ----- The queries -----

  predicate HasReserve(rows: seq<Row>, id: string) {
    exists i :: 0 <= i < |rows| && rows[i].kind == Reserve && rows[i].reservationId == id
  }

  predicate HasTerminal(rows: seq<Row>, id: string) {
    exists i :: 0 <= i < |rows| && IsTerminal(rows[i]) && rows[i].reservationId == id
  }

  function FirstReserve(rows: seq<Row>, id: string): Row
    requires HasReserve(rows, id)
  {
    var n := |rows| - 1;
    if HasReserve(rows[..n], id) then FirstReserve(rows[..n], id) else rows[n]
  }

  function Terminals(rows: seq<Row>, id: string): seq<Row> {
    if rows == [] then []
    else
      var last := rows[|rows| - 1];
      Terminals(rows[..|rows| - 1], id) + if IsTerminal(last) && last.reservationId == id then [last] else []
  }

  datatype JoinedRow = JoinedRow(reserve: Row, terminal: Option<Row>)

  // reserve LEFT JOIN its terminal rows: one result per match, or one without a match.
  function JoinOne(reserve: Row, matches: seq<Row>): seq<JoinedRow> {
    if matches == [] then [JoinedRow(reserve, None)]
    else seq(|matches|, i requires 0 <= i < |matches| => JoinedRow(reserve, Some(matches[i])))
  }

  datatype Period = Month(key: string) | Day(key: string)

  // month_key = ? for a month, substr(occurred_at_utc, 1, 10) = ? for a day.
  predicate InPeriod(row: Row, period: Period) {
    match period
    case Month(key) => row.month == key
    case Day(key) => |row.occurredAt| >= 10 && row.occurredAt[..10] == key
  }

  function LeftJoin(scan: seq<Row>, all: seq<Row>, period: Period): seq<JoinedRow> {
    if scan == [] then []
    else
      var last := scan[|scan| - 1];
      LeftJoin(scan[..|scan| - 1], all, period)
      + if last.kind == Reserve && InPeriod(last, period) then JoinOne(last, Terminals(all, last.reservationId)) else []
  }

  function SumCharged(joined: seq<JoinedRow>): nat {
    if joined == [] then 0
    else
      var last := joined[|joined| - 1];
      SumCharged(joined[..|joined| - 1]) + if last.terminal.Some? then last.terminal.value.amount else 0
  }

  function SumActive(joined: seq<JoinedRow>): nat {
    if joined == [] then 0
    else
      var last := joined[|joined| - 1];
      SumActive(joined[..|joined| - 1]) + if last.terminal.None? then last.reserve.amount else 0
  }

  function Charged(rows: seq<Row>, period: Period): nat {
    SumCharged(LeftJoin(rows, rows, period))
  }

  function ActiveReserved(rows: seq<Row>, period: Period): nat {
    SumActive(LeftJoin(rows, rows, period))
  }

  function EffectiveSpend(rows: seq<Row>, period: Period): nat {
    Charged(rows, period) + ActiveReserved(rows, period)
  }

  function CallCount(rows: seq<Row>, month: string, provider: string, model: string): nat {
    if rows == [] then 0
    else
      var last := rows[|rows| - 1];
      CallCount(rows[..|rows| - 1], month, provider, model)
      + if last.kind == Reserve && last.month == month && last.provider == provider && last.model == model then 1 else 0
  }

  predicate SameRequest(row: Row, month: string, provider: string, model: string, requestKey: string) {
    && row.kind == Reserve && row.month == month && row.provider == provider && row.model == model
    && row.requestKey == requestKey
  }

  predicate RequestReserved(rows: seq<Row>, month: string, provider: string, model: string, requestKey: string) {
    exists i :: 0 <= i < |rows| && SameRequest(rows[i], month, provider, model, requestKey)
  }

  // ----- The transactions -----

  function ReserveRow(request: ReserveRequest, id: string): Row {
    Row(Reserve, id, IsoFormat(request.now), MonthKey(request.now), request.provider, request.model,
        request.requestKey, request.amount, request.policy, None)
  }

  function ReserveOutcome(rows: seq<Row>, config: Config, request: ReserveRequest, killSwitch: bool): Result<(), BudgetError> {
    var month, key := MonthKey(request.now), (request.provider, request.model);
    if request.policy.provider != request.provider || request.policy.model != request.model then Err(PolicyMismatch)
    else if !request.policy.IsEffective(Date(request.now.year, request.now.month, request.now.day)) then
      Err(PricingNotEffective)
    else if key !in config.quotas then Err(UnknownQuota)
    else if killSwitch then Err(KillSwitchActive)
    else if RequestReserved(rows, month, request.provider, request.model, request.requestKey) then Err(DuplicateRequest)
    else if CallCount(rows, month, request.provider, request.model) >= config.quotas[key] then Err(QuotaExceeded)
    else if EffectiveSpend(rows, Month(month)) + request.amount > config.hardLimit then Err(MonthlyLimit)
    else if config.dailyLimit.Some?
            && EffectiveSpend(rows, Day(DayKey(request.now))) + request.amount > config.dailyLimit.value then Err(DailyLimit)
    else Ok(())
  }

  predicate ValidUsage(usage: ReportedUsage) {
    usage.input >= 0 && usage.output >= 0 && 0 <= usage.cached <= usage.input
  }

  // The usage a settlement records; an abandonment or unusable usage records none.
  function RecordedUsage(kind: Kind, usage: Option<ReportedUsage>): Option<Usage> {
    if kind == Settle && usage.Some? && ValidUsage(usage.value)
    then Some(Usage(usage.value.input, usage.value.output, usage.value.cached)) else None
  }

  function ChargeFor(reserve: Row, recorded: Option<Usage>): nat
    requires recorded.Some? ==> recorded.value.cached <= recorded.value.input
  {
    match recorded
    case Some(u) => Quote(reserve.policy, u.input, u.output, u.cached)
    case None => reserve.amount
  }

  function TerminalRow(reserve: Row, kind: Kind, usage: Option<ReportedUsage>, now: Instant): Row {
    var recorded := RecordedUsage(kind, usage);
    Row(kind, reserve.reservationId, IsoFormat(now), reserve.month, reserve.provider, reserve.model, reserve.requestKey,
        ChargeFor(reserve, recorded), reserve.policy, recorded)
  }

  function CloseOutcome(rows: seq<Row>, id: string): Result<Row, BudgetError> {
    if !HasReserve(rows, id) then Err(ReservationNotFound)
    else if HasTerminal(rows, id) then Err(ReservationAlreadyClosed)
    else Ok(FirstReserve(rows, id))
  }

  // The active reservations stored at or before the cutoff text, in order.
  function StaleReserves(scan: seq<Row>, all: seq<Row>, cutoff: string): seq<Row> {
    if scan == [] then []
    else
      var last := scan[|scan| - 1];
      StaleReserves(scan[..|scan| - 1], all, cutoff)
      + if last.kind == Reserve && Terminals(all, last.reservationId) == [] && TextLeq(last.occurredAt, cutoff)
        then [last] else []
  }

  function AbandonRows(reserves: seq<Row>, now: Instant): seq<Row> {
    seq(|reserves|, i requires 0 <= i < |reserves| => TerminalRow(reserves[i], Abandon, None, now))
  }

  // ----- The ledger object -----

  lemma AbandonRowsOfAppend(reserves: seq<Row>, reserve: Row, now: Instant)
    ensures AbandonRows(reserves + [reserve], now) == AbandonRows(reserves, now) + [TerminalRow(reserve, Abandon, None, now)]
  {
    hide TerminalRow;
    assert (reserves + [reserve])[..|reserves|] == reserves;
  }

  lemma NothingAbandoned(now: Instant)
    ensures AbandonRows([], now) == []
  {
  }

  lemma AbandonRow(reserve: Row, now: Instant)
    ensures TerminalRow(reserve, Abandon, None, now) ==
            Row(Abandon, reserve.reservationId, IsoFormat(now), reserve.month, reserve.provider, reserve.model,
                reserve.requestKey, reserve.amount, reserve.policy, None)
  {
    hide IsoFormat;
  }

  // The rows reconciliation appends, or why it appends none.
  function ReconcileOutcome(rows: seq<Row>, olderThan: int, now: Instant): Result<seq<Row>, BudgetError> {
    if olderThan < 0 then Err(NegativeAge)
    else if !HasEarlier(now, olderThan) then Err(DateOutOfRange)
    else Ok(AbandonRows(StaleReserves(rows, rows, IsoFormat(Earlier(now, olderThan))), now))
  }

  class BudgetLedger {
    const config: Config
    var rows: seq<Row>

    constructor (config: Config)
      ensures this.config == config && rows == []
    {
      this.config := config;
      rows := [];
    }

    // One transaction under the write lock. The reservation identifier is a fresh random one.
    method ReserveCost(request: ReserveRequest, id: string, killSwitch: bool) returns (r: Result<Row, BudgetError>)
      modifies this
      ensures
        match ReserveOutcome(old(rows), config, request, killSwitch)
        case Ok(_) => r == Ok(ReserveRow(request, id)) && rows == old(rows) + [ReserveRow(request, id)]
        case Err(e) => r == Err(e) && rows == old(rows)
    {
      hide RequestReserved, CallCount, EffectiveSpend, MonthKey, DayKey, IsoFormat;
      if request.policy.provider != request.provider || request.policy.model != request.model { return Err(PolicyMismatch); }
      if !request.policy.IsEffective(Date(request.now.year, request.now.month, request.now.day)) {
        return Err(PricingNotEffective);
      }
      var key := (request.provider, request.model);
      if key !in config.quotas { return Err(UnknownQuota); }
      if killSwitch { return Err(KillSwitchActive); }
      var month := MonthKey(request.now);
      if RequestReserved(rows, month, request.provider, request.model, request.requestKey) { return Err(DuplicateRequest); }
      if CallCount(rows, month, request.provider, request.model) >= config.quotas[key] { return Err(QuotaExceeded); }
      if EffectiveSpend(rows, Month(month)) + request.amount > config.hardLimit { return Err(MonthlyLimit); }
      if config.dailyLimit.Some? {
        var day := DayKey(request.now);
        if EffectiveSpend(rows, Day(day)) + request.amount > config.dailyLimit.value { return Err(DailyLimit); }
      }
      rows := rows + [ReserveRow(request, id)];
      return Ok(ReserveRow(request, id));
    }

    // Settles or abandons one active reservation.
    method Close(id: string, kind: Kind, usage: Option<ReportedUsage>, now: Instant) returns (r: Result<Row, BudgetError>)
      requires kind != Reserve
      modifies this
      ensures
        match CloseOutcome(old(rows), id)
        case Ok(reserve) =>
          r == Ok(TerminalRow(reserve, kind, usage, now)) && rows == old(rows) + [TerminalRow(reserve, kind, usage, now)]
        case Err(e) => r == Err(e) && rows == old(rows)
    {
      hide HasReserve, HasTerminal, IsoFormat, Quote;
      if !HasReserve(rows, id) { return Err(ReservationNotFound); }
      var reserve := FirstReserve(rows, id);
      if HasTerminal(rows, id) { return Err(ReservationAlreadyClosed); }
      var charged, recorded := reserve.amount, None;
      if kind == Settle && usage.Some? && ValidUsage(usage.value) {
        recorded := Some(Usage(usage.value.input, usage.value.output, usage.value.cached));
        charged := Quote(reserve.policy, usage.value.input, usage.value.output, usage.value.cached);
      }
      var row := Row(kind, reserve.reservationId, IsoFormat(now), reserve.month, reserve.provider, reserve.model,
                     reserve.requestKey, charged, reserve.policy, recorded);
      rows := rows + [row];
      return Ok(row);
    }

    // One abandoning row for each reserve, in order.
    method AbandonEach(reserves: seq<Row>, now: Instant)
      modifies this
      ensures rows == old(rows) + AbandonRows(reserves, now)
    {
      NothingAbandoned(now);
      hide IsoFormat, AbandonRows, TerminalRow;
      assert reserves[..0] == [];
      for i := 0 to |reserves|
        invariant rows == old(rows) + AbandonRows(reserves[..i], now)
      {
        var reserve := reserves[i];
        var row := Row(Abandon, reserve.reservationId, IsoFormat(now), reserve.month, reserve.provider, reserve.model,
                       reserve.requestKey, reserve.amount, reserve.policy, None);
        AbandonRow(reserve, now);
        AbandonRowsOfAppend(reserves[..i], reserve, now);
        assert reserves[..i + 1] == reserves[..i] + [reserve];
        rows := rows + [row];
      }
      assert reserves[..|reserves|] == reserves;
    }

    // Closes every active reservation at least that old, in microseconds, at its full reserve, in
    // one transaction.
    method ReconcileAbandoned(olderThan: int, now: Instant) returns (r: Result<seq<Row>, BudgetError>)
      modifies this
      ensures
        match ReconcileOutcome(old(rows), olderThan, now)
        case Ok(settlements) => r == Ok(settlements) && rows == old(rows) + settlements
        case Err(e) => r == Err(e) && rows == old(rows)
    {
      hide StaleReserves, IsoFormat, AbandonRows, Micros, InstantAt;
      if olderThan < 0 { return Err(NegativeAge); }
      if !HasEarlier(now, olderThan) { return Err(DateOutOfRange); }
      var stale := StaleReserves(rows, rows, IsoFormat(Earlier(now, olderThan)));
      AbandonEach(stale, now);
      r := Ok(AbandonRows(stale, now));
    }
  }
}
