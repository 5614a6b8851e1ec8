// What runs of the ledger promise beyond the caps: the one-microdollar slack, accounts that never
// reopen, and reconciliation by text that is reconciliation by time.
module LedgerFacts {
  import opened Wrappers
  import opened Pricing
  import opened Instants
  import opened Calendar
  import opened Ledger
  import opened LedgerAccounts
  import opened LedgerRuns

  datatype Maxima = Maxima(input: nat, output: nat)

  // The reservation was quoted from token maxima, with no guaranteed cached input and a cached
  // rate no dearer than the input rate, and the reported usage stayed within those maxima.
  predicate WithinMaxima(account: Account, maxima: map<string, Maxima>) {
    var reserve := account.reserve;
    && reserve.reservationId in maxima
    && reserve.policy.cachedRate <= reserve.policy.inputRate
    && reserve.amount == Quote(reserve.policy, maxima[reserve.reservationId].input, maxima[reserve.reservationId].output, 0)
    && (account.closed.Some? && account.closed.value.usage.Some? ==>
          var usage := account.closed.value.usage.value;
          && usage.input <= maxima[reserve.reservationId].input
          && usage.output <= maxima[reserve.reservationId].output)
  }

  lemma HonestAccountOverrun(account: Account, maxima: map<string, Maxima>)
    requires WithinMaxima(account, maxima)
    requires account.closed.Some? ==> ChargedBy(account.reserve, account.closed.value)
    ensures Value(account, OverrunPart) <= Value(account, CachedSettlement)
  {
    hide Quote;
    if account.closed.Some? && account.closed.value.usage.Some? {
      var usage, max := account.closed.value.usage.value, maxima[account.reserve.reservationId];
      OverrunAtMostOne(account.reserve.policy, max.input, max.output, usage.input, usage.output, usage.cached);
    }
  }

  lemma {:induction false} HonestOverruns(accounts: seq<Account>, period: Period, maxima: map<string, Maxima>)
    requires forall k :: 0 <= k < |accounts| && InPeriod(accounts[k].reserve, period) ==>
               WithinMaxima(accounts[k], maxima)
               && (accounts[k].closed.Some? ==> ChargedBy(accounts[k].reserve, accounts[k].closed.value))
    ensures Total(accounts, period, OverrunPart) <= Total(accounts, period, CachedSettlement)
  {
    hide Value, InPeriod, WithinMaxima, ChargedBy;
    if accounts != [] {
      var n := |accounts| - 1;
      HonestOverruns(accounts[..n], period, maxima);
      if InPeriod(accounts[n].reserve, period) { HonestAccountOverrun(accounts[n], maxima); }
    }
  }

  // The accounts of one month, or of one day.
  predicate PeriodWithinMaxima(accounts: seq<Account>, period: Period, maxima: map<string, Maxima>) {
    forall k :: 0 <= k < |accounts| && InPeriod(accounts[k].reserve, period) ==> WithinMaxima(accounts[k], maxima)
  }

  lemma PeriodSlack(rows: seq<Row>, period: Period, maxima: map<string, Maxima>)
    requires ValidLog(rows) && PeriodWithinMaxima(Accounts(rows), period, maxima)
    ensures Total(Accounts(rows), period, OverrunPart) <= Total(Accounts(rows), period, CachedSettlement)
  {
    hide Total, WithinMaxima, ChargedBy, HasReserve, HasTerminal, FirstReserve, ValidLog, InPeriod, Accounts;
    AccountsMatchLog(rows);
    forall k | 0 <= k < |Accounts(rows)|
      ensures Accounts(rows)[k].closed.Some? ==> ChargedBy(Accounts(rows)[k].reserve, Accounts(rows)[k].closed.value)
    {
      assert AccountMatches(rows, Accounts(rows)[k]);
    }
    HonestOverruns(Accounts(rows), period, maxima);
  }

  // When a month's usage stays within the reserved maxima, its effective spend exceeds the hard
  // limit by at most one microdollar for each of its settlements that had cached input; and a day's
  // exceeds the daily limit by at most as much.
  lemma SlackIsOnePerCachedSettlement(config: Config, ops: seq<LedgerOp>, month: string, day: string, maxima: map<string, Maxima>)
    requires AdmissibleRun(config, ops)
    ensures
      var rows := Run(config, ops);
      PeriodWithinMaxima(Accounts(rows), Month(month), maxima) ==>
        EffectiveSpend(rows, Month(month)) <= config.hardLimit + Total(Accounts(rows), Month(month), CachedSettlement)
    ensures
      var rows := Run(config, ops);
      config.dailyLimit.Some? && PeriodWithinMaxima(Accounts(rows), Day(day), maxima) ==>
        EffectiveSpend(rows, Day(day)) <= config.dailyLimit.value + Total(Accounts(rows), Day(day), CachedSettlement)
  {
    hide Run, AdmissibleRun, EffectiveSpend, Total, PeriodWithinMaxima, ValidLog, LedgerInvariant, Accounts;
    var rows := Run(config, ops);
    EveryRunKeepsInvariant(config, ops);
    InvariantIsValid(rows, config);
    SpendStaysCapped(config, ops, month, day);
    if PeriodWithinMaxima(Accounts(rows), Month(month), maxima) { PeriodSlack(rows, Month(month), maxima); }
    if PeriodWithinMaxima(Accounts(rows), Day(day), maxima) { PeriodSlack(rows, Day(day), maxima); }
  }

  // ----- The slack is real -----

  // A reservation of two tokens at half a microdollar each costs one microdollar; settled with one
  // of them cached it costs two. With a limit of one, that month is over the limit by exactly one.
  lemma LimitCanBeExceededByOne(config: Config, request: ReserveRequest, id: string, settledAt: Instant)
    requires config == Config(1, None, map[(request.provider, request.model) := 1])
    requires request.policy.provider == request.provider && request.policy.model == request.model
    requires request.policy.inputRate == request.policy.cachedRate == 500_000
    requires request.policy.IsEffective(Date(request.now.year, request.now.month, request.now.day))
    requires request.amount == Quote(request.policy, 2, 0, 0)
    ensures AdmissibleRun(config, ReserveThenSettle(request, id, settledAt))
    ensures EffectiveSpend(Run(config, ReserveThenSettle(request, id, settledAt)), Month(MonthKey(request.now)))
         == config.hardLimit + 1
  {
    var first, second := ReserveOp(request, id, false), SettleTwo(id, settledAt);
    var reserve := ReserveRow(request, id);
    QuotesOfTwo(request.policy);
    FirstReservation(config, request, id);
    SettleApplies(config, reserve, settledAt);
    assert [] + [reserve] == [reserve];
    hide IsoFormat, MonthKey, ReserveOutcome, HasReserve, HasTerminal, Run, AdmissibleRun, EffectiveSpend, TerminalRow,
      Quote, SettleTwo;
    RunOfTwo(config, first, second);
  }

  function SettleTwo(id: string, settledAt: Instant): LedgerOp {
    CloseOp(id, Settle, Some(ReportedUsage(2, 0, 1)), settledAt)
  }

  function ReserveThenSettle(request: ReserveRequest, id: string, settledAt: Instant): seq<LedgerOp> {
    [ReserveOp(request, id, false), SettleTwo(id, settledAt)]
  }

  lemma SettleApplies(config: Config, reserve: Row, settledAt: Instant)
    requires reserve.kind == Reserve && Quote(reserve.policy, 2, 0, 1) == 2
    ensures Admissible([reserve], SettleTwo(reserve.reservationId, settledAt))
    ensures EffectiveSpend(Apply([reserve], config, SettleTwo(reserve.reservationId, settledAt)), Month(reserve.month)) == 2
  {
    hide Quote, IsoFormat, HasReserve, HasTerminal, FirstReserve, EffectiveSpend;
    OnlyReserve(reserve);
    var event := TerminalRow(reserve, Settle, Some(ReportedUsage(2, 0, 1)), settledAt);
    assert [reserve] + [event] == [reserve, event];
    SettledAlone(reserve, event, Month(reserve.month));
  }

  predicate ClosesIt(reserve: Row, event: Row) {
    && reserve.kind == Reserve && IsTerminal(event) && event.reservationId == reserve.reservationId
    && event.month == reserve.month && event.provider == reserve.provider && event.model == reserve.model
    && event.requestKey == reserve.requestKey && event.policy == reserve.policy && ChargedBy(reserve, event)
  }

  lemma OneOpenAccount(reserve: Row)
    requires reserve.kind == Reserve
    ensures ValidLog([reserve]) && Accounts([reserve]) == [Account(reserve, None)]
  {
    assert RowFollows([], reserve);
    hide RowFollows;
    assert [reserve][..0] == [];
  }

  lemma OneSettledAccount(reserve: Row, event: Row)
    requires ClosesIt(reserve, event)
    ensures ValidLog([reserve] + [event]) && Accounts([reserve] + [event]) == [Account(reserve, Some(event))]
  {
    OnlyReserve(reserve);
    OneOpenAccount(reserve);
    assert RowFollows([reserve], event);
    hide RowFollows, HasReserve, HasTerminal, FirstReserve, ChargedBy, Accounts, ValidLog;
    ValidLogOfAppend([reserve], event);
    assert CloseAccount([Account(reserve, None)], event) == [Account(reserve, Some(event))];
  }

  // The aggregate of one settled reservation is its charge.
  lemma SettledAlone(reserve: Row, event: Row, period: Period)
    requires ClosesIt(reserve, event) && InPeriod(reserve, period)
    ensures EffectiveSpend([reserve, event], period) == event.amount
  {
    hide ClosesIt, InPeriod, Accounts, ValidLog, Charged, ActiveReserved;
    var settled := Account(reserve, Some(event));
    OneSettledAccount(reserve, event);
    assert [reserve] + [event] == [reserve, event];
    AggregatesAreAccountTotals([reserve, event], period);
    TotalOfAppend([], settled, period, ChargedPart);
    TotalOfAppend([], settled, period, ActivePart);
    assert [] + [settled] == [settled];
  }

  lemma QuotesOfTwo(policy: PricingPolicy)
    requires policy.inputRate == policy.cachedRate == 500_000
    ensures Quote(policy, 2, 0, 0) == 1 && Quote(policy, 2, 0, 1) == 2
  {
    OverrunOfOneHappens(policy);
    NothingIsFree(policy.outputRate);
    NothingIsFree(policy.cachedRate);
  }

  lemma FirstReservation(config: Config, request: ReserveRequest, id: string)
    requires (request.provider, request.model) in config.quotas && config.quotas[(request.provider, request.model)] > 0
    requires request.policy.provider == request.provider && request.policy.model == request.model
    requires request.policy.IsEffective(Date(request.now.year, request.now.month, request.now.day))
    requires request.amount <= config.hardLimit && config.dailyLimit.None?
    ensures ReserveOutcome([], config, request, false).Ok?
    ensures !HasReserve([], id) && !HasTerminal([], id)
  {
    hide MonthKey, DayKey;
  }

  lemma OnlyReserve(reserve: Row)
    requires reserve.kind == Reserve
    ensures HasReserve([reserve], reserve.reservationId) && !HasTerminal([reserve], reserve.reservationId)
    ensures FirstReserve([reserve], reserve.reservationId) == reserve
  {
    assert [reserve][0] == reserve;
  }

  lemma RunOfTwo(config: Config, first: LedgerOp, second: LedgerOp)
    requires Admissible([], first) && Admissible(Apply([], config, first), second)
    ensures AdmissibleRun(config, [first, second])
    ensures Run(config, [first, second]) == Apply(Apply([], config, first), config, second)
  {
    hide Admissible, Apply;
    assert [first, second][..1] == [first] && [first][..0] == [];
    assert AdmissibleRun(config, []) && Run(config, []) == [];
    assert AdmissibleRun(config, [first]) && Run(config, [first]) == Apply([], config, first);
  }

  // ----- Accounts only ever close, once -----

  predicate AccountsExtend(before: seq<Account>, after: seq<Account>) {
    && |before| <= |after|
    && forall k :: 0 <= k < |before| ==>
         after[k].reserve == before[k].reserve && (before[k].closed.Some? ==> after[k].closed == before[k].closed)
  }

  lemma AppendExtendsAccounts(rows: seq<Row>, row: Row)
    requires ValidLog(rows) && RowFollows(rows, row)
    ensures AccountsExtend(Accounts(rows), Accounts(rows + [row]))
  {
    hide HasReserve, HasTerminal, FirstReserve, ValidLog;
    AccountsMatchLog(rows);
    FollowersAreFirstTerminals(rows, row);
    ValidLogOfAppend(rows, row);
    forall k | 0 <= k < |Accounts(rows)| && Accounts(rows)[k].closed.Some?
      ensures Accounts(rows)[k].reserve.reservationId != row.reservationId || row.kind == Reserve
    {
      assert AccountMatches(rows, Accounts(rows)[k]);
    }
  }

  lemma {:induction false} ReconcileExtendsAccounts(rows: seq<Row>, config: Config, stale: seq<Row>, now: Instant)
    requires LedgerInvariant(rows, config) && OpenReserves(rows, stale)
    ensures AccountsExtend(Accounts(rows), Accounts(rows + AbandonRows(stale, now)))
  {
    hide LedgerInvariant, HasReserve, HasTerminal, FirstReserve, IsoFormat, Accounts;
    if stale == [] {
      assert rows + AbandonRows(stale, now) == rows;
    } else {
      var n := |stale| - 1;
      var more, last := AbandonRows(stale[..n], now), TerminalRow(stale[n], Abandon, None, now);
      ReconcileExtendsAccounts(rows, config, stale[..n], now);
      ReconcileKeepsInvariant(rows, config, stale[..n], now);
      InvariantIsValid(rows + more, config);
      AbandonFollows(rows, stale, n, now);
      AppendExtendsAccounts(rows + more, last);
      assert rows + AbandonRows(stale, now) == (rows + more) + [last];
    }
  }

  lemma AbandonFollows(rows: seq<Row>, stale: seq<Row>, n: nat, now: Instant)
    requires OpenReserves(rows, stale) && n < |stale|
    ensures RowFollows(rows + AbandonRows(stale[..n], now), TerminalRow(stale[n], Abandon, None, now))
  {
    hide HasReserve, HasTerminal, FirstReserve, IsoFormat;
    var more, last := AbandonRows(stale[..n], now), TerminalRow(stale[n], Abandon, None, now);
    assert AccountMatches(rows, Account(stale[n], None));
    HasTerminalOfConcat(rows, more, last.reservationId);
    NoTerminalAmong(more, last.reservationId);
    ReserveSurvives(rows, more, last.reservationId);
  }

  lemma ReserveExtendsAccounts(rows: seq<Row>, config: Config, request: ReserveRequest, id: string, killSwitch: bool)
    requires ValidLog(rows) && !HasReserve(rows, id) && !HasTerminal(rows, id)
    requires ReserveOutcome(rows, config, request, killSwitch).Ok?
    ensures AccountsExtend(Accounts(rows), Accounts(rows + [ReserveRow(request, id)]))
  {
    hide HasReserve, HasTerminal, ReserveOutcome, Accounts, ValidLog, AccountsExtend, ReserveRow, RowFollows;
    GrantedReserveFollows(rows, config, request, id, killSwitch);
    AppendExtendsAccounts(rows, ReserveRow(request, id));
  }

  lemma CloseExtendsAccounts(rows: seq<Row>, target: string, kind: Kind, usage: Option<ReportedUsage>, now: Instant)
    requires ValidLog(rows) && HasReserve(rows, target) && !HasTerminal(rows, target) && kind != Reserve
    ensures AccountsExtend(Accounts(rows), Accounts(rows + [TerminalRow(FirstReserve(rows, target), kind, usage, now)]))
  {
    hide HasReserve, HasTerminal, FirstReserve, IsoFormat, Accounts, ValidLog, AccountsExtend;
    FirstReserveHasId(rows, target);
    AppendExtendsAccounts(rows, TerminalRow(FirstReserve(rows, target), kind, usage, now));
  }

  // Whatever the transaction, no account changes its reservation and no closed account changes.
  lemma StepExtendsAccounts(rows: seq<Row>, config: Config, op: LedgerOp)
    requires LedgerInvariant(rows, config) && Admissible(rows, op)
    ensures AccountsExtend(Accounts(rows), Accounts(Apply(rows, config, op)))
  {
    InvariantIsValid(rows, config);
    hide LedgerInvariant, HasReserve, HasTerminal, FirstReserve, IsoFormat, ReserveOutcome, Accounts, ValidLog, ReserveRow,
      TerminalRow, Earlier, Micros, StaleReserves, AbandonRows;
    if Apply(rows, config, op) == rows {
      NothingExtends(Accounts(rows));
    } else {
      hide AccountsExtend;
      match op
      case ReserveOp(request, id, killSwitch) => ReserveExtendsAccounts(rows, config, request, id, killSwitch);
      case CloseOp(target, kind, usage, now) => CloseExtendsAccounts(rows, target, kind, usage, now);
      case ReconcileOp(olderThan, now) => ReconcileStepExtendsAccounts(rows, config, IsoFormat(Earlier(now, olderThan)), now);
    }
  }

  lemma NothingExtends(accounts: seq<Account>)
    ensures AccountsExtend(accounts, accounts)
  {
  }

  lemma GrantedReserveFollows(rows: seq<Row>, config: Config, request: ReserveRequest, id: string, killSwitch: bool)
    requires ReserveOutcome(rows, config, request, killSwitch).Ok? && !HasReserve(rows, id) && !HasTerminal(rows, id)
    ensures RowFollows(rows, ReserveRow(request, id))
  {
    hide HasReserve, HasTerminal, CallCount, EffectiveSpend, RequestReserved, IsoFormat, MonthKey, DayKey;
  }

  lemma ReconcileStepExtendsAccounts(rows: seq<Row>, config: Config, cutoff: string, now: Instant)
    requires LedgerInvariant(rows, config)
    ensures AccountsExtend(Accounts(rows), Accounts(rows + AbandonRows(StaleReserves(rows, rows, cutoff), now)))
  {
    hide OpenReserves, TextLeq, Accounts;
    InvariantIsValid(rows, config);
    StaleRowsAreOpen(rows, cutoff);
    var stale := StaleReserves(rows, rows, cutoff);
    hide LedgerInvariant;
    ReconcileExtendsAccounts(rows, config, stale, now);
  }

  // ----- Reconciliation by text is reconciliation by time -----

  lemma {:induction false} OpenStaleExact(accounts: seq<Account>, cutoff: string, reserve: Row)
    ensures reserve in OpenStale(accounts, cutoff) <==>
            Account(reserve, None) in accounts && TextLeq(reserve.occurredAt, cutoff)
  {
    hide TextLeq;
    if accounts != [] {
      var n := |accounts| - 1;
      OpenStaleExact(accounts[..n], cutoff, reserve);
      assert accounts == accounts[..n] + [accounts[n]];
    }
  }

  lemma SameReserve(rows: seq<Row>, account: Account, reserve: Row)
    requires AccountMatches(rows, account) && AccountMatches(rows, Account(reserve, None))
    ensures account.reserve.reservationId == reserve.reservationId <==> account.reserve == reserve
  {
    hide HasReserve, HasTerminal, FirstReserve;
  }

  lemma OpenPrefix(rows: seq<Row>, stale: seq<Row>)
    requires OpenReserves(rows, stale) && stale != []
    ensures OpenReserves(rows, stale[..|stale| - 1]) && AccountMatches(rows, Account(stale[|stale| - 1], None))
    ensures stale[|stale| - 1] !in stale[..|stale| - 1]
  {
    hide AccountMatches;
  }

  lemma AbandonRowsStep(stale: seq<Row>, now: Instant)
    requires stale != []
    ensures
      var n := |stale| - 1;
      && AbandonRows(stale, now) == AbandonRows(stale[..n], now) + [TerminalRow(stale[n], Abandon, None, now)]
      && TerminalRow(stale[n], Abandon, None, now).kind == Abandon
      && TerminalRow(stale[n], Abandon, None, now).reservationId == stale[n].reservationId
  {
    hide IsoFormat;
  }

  // The n-th abandonment closes its account and no other.
  lemma AbandonmentStep(rows: seq<Row>, config: Config, stale: seq<Row>, now: Instant)
    requires LedgerInvariant(rows, config) && OpenReserves(rows, stale) && stale != []
    ensures
      var n := |stale| - 1;
      Accounts(rows + AbandonRows(stale, now)) ==
      CloseAccount(Accounts(rows + AbandonRows(stale[..n], now)), TerminalRow(stale[n], Abandon, None, now))
  {
    hide LedgerInvariant, Accounts, RowFollows, ValidLog, OpenReserves, AccountMatches, CloseAccount, AbandonRows, TerminalRow;
    var n := |stale| - 1;
    var more, last := AbandonRows(stale[..n], now), TerminalRow(stale[n], Abandon, None, now);
    AbandonRowsStep(stale, now);
    OpenPrefix(rows, stale);
    ReconcileKeepsInvariant(rows, config, stale[..n], now);
    InvariantIsValid(rows + more, config);
    AbandonFollows(rows, stale, n, now);
    ValidLogOfAppend(rows + more, last);
    assert rows + AbandonRows(stale, now) == (rows + more) + [last];
  }

  lemma {:induction false} AbandonCloses(rows: seq<Row>, config: Config, stale: seq<Row>, now: Instant, k: nat)
    requires LedgerInvariant(rows, config) && OpenReserves(rows, stale) && k < |Accounts(rows)|
    ensures k < |Accounts(rows + AbandonRows(stale, now))|
    ensures
      var account := Accounts(rows)[k];
      Accounts(rows + AbandonRows(stale, now))[k] ==
      if account.reserve in stale then Account(account.reserve, Some(TerminalRow(account.reserve, Abandon, None, now)))
      else account
  {
    hide LedgerInvariant, Accounts, ValidLog, OpenReserves, AccountMatches, TerminalRow;
    if stale == [] {
      assert rows + AbandonRows(stale, now) == rows;
    } else {
      hide AbandonRows;
      var n := |stale| - 1;
      var account, last := Accounts(rows)[k], TerminalRow(stale[n], Abandon, None, now);
      InvariantIsValid(rows, config);
      AccountsMatchLog(rows);
      OpenPrefix(rows, stale);
      assert AccountMatches(rows, account);
      SameReserve(rows, account, stale[n]);
      AbandonRowsStep(stale, now);
      AbandonCloses(rows, config, stale[..n], now, k);
      AbandonmentStep(rows, config, stale, now);
      CloseAt(Accounts(rows + AbandonRows(stale[..n], now)), last, k);
      assert account.reserve in stale <==> account.reserve in stale[..n] || account.reserve == stale[n];
    }
  }

  lemma CloseAt(accounts: seq<Account>, event: Row, k: nat)
    requires k < |accounts|
    ensures |CloseAccount(accounts, event)| == |accounts|
    ensures CloseAccount(accounts, event)[k] ==
            if accounts[k].reserve.reservationId == event.reservationId then accounts[k].(closed := Some(event)) else accounts[k]
  {
  }

  // The accounts that reconciliation finds stale are the open ones made at or before the cutoff.
  lemma StaleExactly(rows: seq<Row>, config: Config, cutoff: Instant, k: nat, reservedAt: Instant)
    requires LedgerInvariant(rows, config) && ValidInstant(cutoff) && ValidInstant(reservedAt)
    requires k < |Accounts(rows)| && Accounts(rows)[k].reserve.occurredAt == IsoFormat(reservedAt)
    ensures OpenReserves(rows, StaleReserves(rows, rows, IsoFormat(cutoff)))
    ensures Accounts(rows)[k].reserve in StaleReserves(rows, rows, IsoFormat(cutoff)) <==>
            Accounts(rows)[k].closed.None? && NotAfter(reservedAt, cutoff)
  {
    hide LedgerInvariant, HasReserve, HasTerminal, FirstReserve, IsoFormat, Accounts, ValidLog, TextLeq, OpenReserves,
      ValidInstant, NotAfter, AccountMatches;
    var text := IsoFormat(cutoff);
    var account := Accounts(rows)[k];
    InvariantIsValid(rows, config);
    StaleRowsAreOpen(rows, text);
    AccountsAreTheView(rows);
    StaleAreOpenAccounts(rows, rows, text);
    hide AccountsView, StaleReserves;
    OpenStaleExact(Accounts(rows), text, account.reserve);
    TextOrderIsTimeOrder(reservedAt, cutoff);
    AccountsMatchLog(rows);
    OneAccountPerReserve(Accounts(rows), k);
  }

  lemma OneAccountPerReserve(accounts: seq<Account>, k: nat)
    requires DistinctIds(accounts) && k < |accounts|
    ensures Account(accounts[k].reserve, None) in accounts <==> accounts[k].closed.None?
  {
    if Account(accounts[k].reserve, None) in accounts {
      var j :| 0 <= j < |accounts| && accounts[j] == Account(accounts[k].reserve, None);
      assert j == k;
    }
    assert accounts[k] in accounts;
  }

  // Reconciliation closes exactly the active reservations at least that old, each at its full
  // reserve, and touches no other account.
  lemma ReconcileClosesExactlyTheOld(
    rows: seq<Row>, config: Config, olderThan: int, now: Instant, k: nat, reservedAt: Instant)
    requires LedgerInvariant(rows, config) && CalendarInstant(now) && CalendarInstant(reservedAt) && 0 <= olderThan <= Micros(now)
    requires k < |Accounts(rows)| && Accounts(rows)[k].reserve.occurredAt == IsoFormat(reservedAt)
    ensures k < |Accounts(Apply(rows, config, ReconcileOp(olderThan, now)))|
    ensures
      var before, after := Accounts(rows)[k], Accounts(Apply(rows, config, ReconcileOp(olderThan, now)))[k];
      if before.closed.None? && Micros(now) - Micros(reservedAt) >= olderThan then
        && after == Account(before.reserve, Some(TerminalRow(before.reserve, Abandon, None, now)))
        && after.closed.value.amount == before.reserve.amount
      else after == before
  {
    hide LedgerInvariant, HasReserve, HasTerminal, FirstReserve, IsoFormat, Accounts, ValidLog, TextLeq, OpenReserves,
      ValidInstant, NotAfter, StaleReserves, AbandonRows, Micros, Earlier;
    EarlierExact(now, olderThan);
    var cutoff := Earlier(now, olderThan);
    MicrosOrder(reservedAt, cutoff);
    StaleExactly(rows, config, cutoff, k, reservedAt);
    AbandonCloses(rows, config, StaleReserves(rows, rows, IsoFormat(cutoff)), now, k);
  }

  // An age that is negative or reaches back before the calendar changes nothing.
  lemma ReconcileRefusesExactly(rows: seq<Row>, config: Config, olderThan: int, now: Instant)
    ensures ReconcileOutcome(rows, olderThan, now).Err? <==> olderThan < 0 || Micros(now) < olderThan
    ensures ReconcileOutcome(rows, olderThan, now).Err? ==> Apply(rows, config, ReconcileOp(olderThan, now)) == rows
  {
    hide Micros, Earlier;
  }
}
