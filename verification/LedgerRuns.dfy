// Every run of ledger transactions, by any processes in any order: the spend caps with their exact
// slack, the call quotas, and one terminal event per reservation.
module LedgerRuns {
  import opened Wrappers
  import opened Pricing
  import opened Instants
  import opened Calendar
  import opened Ledger
  import opened LedgerAccounts

  // Transactions are serialised by the write lock, so a run is a sequence of them.
  datatype LedgerOp =
    | ReserveOp(request: ReserveRequest, id: string, killSwitch: bool)
    | CloseOp(target: string, kind: Kind, usage: Option<ReportedUsage>, now: Instant)
    | ReconcileOp(olderThan: int, now: Instant)

  function Apply(rows: seq<Row>, config: Config, op: LedgerOp): seq<Row> {
    match op
    case ReserveOp(request, id, killSwitch) =>
      if ReserveOutcome(rows, config, request, killSwitch).Ok? then rows + [ReserveRow(request, id)] else rows
    case CloseOp(target, kind, usage, now) =>
      (match CloseOutcome(rows, target)
       case Ok(reserve) => rows + [TerminalRow(reserve, kind, usage, now)]
       case Err(_) => rows)
    case ReconcileOp(olderThan, now) =>
      (match ReconcileOutcome(rows, olderThan, now)
       case Ok(settlements) => rows + settlements
       case Err(_) => rows)
  }

  function Run(config: Config, ops: seq<LedgerOp>): seq<Row> {
    if ops == [] then [] else Apply(Run(config, ops[..|ops| - 1]), config, ops[|ops| - 1])
  }

  // Random reservation identifiers never repeat, and only terminal events close.
  predicate Admissible(rows: seq<Row>, op: LedgerOp) {
    && (op.ReserveOp? ==> !HasReserve(rows, op.id) && !HasTerminal(rows, op.id))
    && (op.CloseOp? ==> op.kind != Reserve)
  }

  predicate AdmissibleRun(config: Config, ops: seq<LedgerOp>) {
    ops == [] || (AdmissibleRun(config, ops[..|ops| - 1]) && Admissible(Run(config, ops[..|ops| - 1]), ops[|ops| - 1]))
  }

  // ----- The invariant -----

  predicate PeriodCapped(rows: seq<Row>, period: Period, limit: nat) {
    EffectiveSpend(rows, period) <= limit + Total(Accounts(rows), period, OverrunPart)
  }

  function QuotaOf(config: Config, provider: string, model: string): nat {
    if (provider, model) in config.quotas then config.quotas[(provider, model)] else 0
  }

  ghost predicate LedgerInvariant(rows: seq<Row>, config: Config) {
    && ValidLog(rows)
    && (forall month :: PeriodCapped(rows, Month(month), config.hardLimit))
    && (config.dailyLimit.Some? ==> forall day :: PeriodCapped(rows, Day(day), config.dailyLimit.value))
    && (forall month, provider, model ::
          CallCount(rows, month, provider, model) <= QuotaOf(config, provider, model))
  }

  // ----- Appending one row -----

  lemma CloseAccountPrefix(accounts: seq<Account>, event: Row)
    requires accounts != []
    ensures
      var n := |accounts| - 1;
      CloseAccount(accounts, event) ==
      CloseAccount(accounts[..n], event)
      + [if accounts[n].reserve.reservationId == event.reservationId then accounts[n].(closed := Some(event))
         else accounts[n]]
  {
  }

  predicate DistinctIds(accounts: seq<Account>) {
    forall i, j :: 0 <= i < j < |accounts| ==> accounts[i].reserve.reservationId != accounts[j].reserve.reservationId
  }

  lemma {:induction false} ClosingUnknownChangesNothing(accounts: seq<Account>, event: Row)
    requires forall i :: 0 <= i < |accounts| ==> accounts[i].reserve.reservationId != event.reservationId
    ensures CloseAccount(accounts, event) == accounts
  {
  }

  // Closing the one account of an id changes each total by that account alone.
  lemma {:induction false} TotalAfterClose(accounts: seq<Account>, k: nat, event: Row, period: Period, measure: Measure)
    requires k < |accounts| && DistinctIds(accounts) && accounts[k].reserve.reservationId == event.reservationId
    ensures
      var account := accounts[k];
      var closed := account.(closed := Some(event));
      Total(CloseAccount(accounts, event), period, measure)
      + (if InPeriod(account.reserve, period) then Value(account, measure) else 0) ==
      Total(accounts, period, measure)
      + (if InPeriod(account.reserve, period) then Value(closed, measure) else 0)
  {
    hide Value, InPeriod, CloseAccount, Total;
    var n := |accounts| - 1;
    var last := accounts[n];
    CloseAccountPrefix(accounts, event);
    TotalOfAppend(accounts[..n], last, period, measure);
    assert accounts == accounts[..n] + [last];
    if k == n {
      ClosingUnknownChangesNothing(accounts[..n], event);
      TotalOfAppend(accounts[..n], last.(closed := Some(event)), period, measure);
    } else {
      TotalAfterClose(accounts[..n], k, event, period, measure);
      TotalOfAppend(CloseAccount(accounts[..n], event), last, period, measure);
    }
  }

  predicate AccountMatches(rows: seq<Row>, account: Account) {
    var id := account.reserve.reservationId;
    && HasReserve(rows, id) && FirstReserve(rows, id) == account.reserve
    && (account.closed.None? <==> !HasTerminal(rows, id))
    && (account.closed.Some? ==> account.closed.value.reservationId == id && ChargedBy(account.reserve, account.closed.value))
  }

  // The accounts of a well-formed log: one per reservation, open exactly while no terminal exists.
  lemma {:induction false} AccountsMatchLog(rows: seq<Row>)
    requires ValidLog(rows)
    ensures DistinctIds(Accounts(rows))
    ensures forall k :: 0 <= k < |Accounts(rows)| ==> AccountMatches(rows, Accounts(rows)[k])
    ensures forall id :: HasReserve(rows, id) ==>
              exists k :: 0 <= k < |Accounts(rows)| && Accounts(rows)[k].reserve.reservationId == id
  {
    hide RowFollows, HasReserve, HasTerminal, FirstReserve, IsTerminal;
    if rows == [] {
      EmptyHasNoReserve();
    } else {
      var n := |rows| - 1;
      AccountsMatchLog(rows[..n]);
      AccountsMatchAppend(rows[..n], rows[n]);
      assert rows == rows[..n] + [rows[n]];
    }
  }

  lemma EmptyHasNoReserve()
    ensures forall id :: !HasReserve([], id)
  {
  }

  lemma FirstReserveOfAppend(rows: seq<Row>, row: Row, id: string)
    requires HasReserve(rows + [row], id)
    ensures FirstReserve(rows + [row], id) == if HasReserve(rows, id) then FirstReserve(rows, id) else row
    ensures !HasReserve(rows, id) ==> row.kind == Reserve && row.reservationId == id
  {
    hide FirstReserve;
    HasReserveOfAppend(rows, row, id);
    assert (rows + [row])[..|rows|] == rows;
    FirstReserveUnfold(rows + [row], id);
  }

  lemma FirstReserveUnfold(rows: seq<Row>, id: string)
    requires HasReserve(rows, id)
    ensures
      var n := |rows| - 1;
      FirstReserve(rows, id) == if HasReserve(rows[..n], id) then FirstReserve(rows[..n], id) else rows[n]
  {
  }

  lemma AccountsMatchAppend(rows: seq<Row>, row: Row)
    requires RowFollows(rows, row) && DistinctIds(Accounts(rows))
    requires forall k :: 0 <= k < |Accounts(rows)| ==> AccountMatches(rows, Accounts(rows)[k])
    requires forall id :: HasReserve(rows, id) ==>
               exists k :: 0 <= k < |Accounts(rows)| && Accounts(rows)[k].reserve.reservationId == id
    ensures DistinctIds(Accounts(rows + [row]))
    ensures forall k :: 0 <= k < |Accounts(rows + [row])| ==> AccountMatches(rows + [row], Accounts(rows + [row])[k])
    ensures forall id :: HasReserve(rows + [row], id) ==>
              exists k :: 0 <= k < |Accounts(rows + [row])| && Accounts(rows + [row])[k].reserve.reservationId == id
  {
    hide HasReserve, HasTerminal, FirstReserve;
    var all, before := rows + [row], Accounts(rows);
    assert all[..|rows|] == rows;
    FollowersAreFirstTerminals(rows, row);
    hide RowFollows;
    var after := Accounts(all);
    assert |before| <= |after|;
    forall k | 0 <= k < |after|
      ensures AccountMatches(all, after[k])
    {
      var id := after[k].reserve.reservationId;
      if k < |before| { assert AccountMatches(rows, before[k]); }
      HasReserveOfAppend(rows, row, id);
      HasTerminalOfAppend(rows, row, id);
      FirstReserveOfAppend(rows, row, id);
    }
    forall id | HasReserve(all, id)
      ensures exists k :: 0 <= k < |after| && after[k].reserve.reservationId == id
    {
      HasReserveOfAppend(rows, row, id);
      if HasReserve(rows, id) {
        var k :| 0 <= k < |before| && before[k].reserve.reservationId == id;
        assert after[k].reserve.reservationId == id;
      } else {
        assert after[|before|].reserve == row;
      }
    }
  }

  lemma CallCountOfAppend(rows: seq<Row>, row: Row, month: string, provider: string, model: string)
    ensures CallCount(rows + [row], month, provider, model) == CallCount(rows, month, provider, model)
            + if row.kind == Reserve && row.month == month && row.provider == provider && row.model == model then 1 else 0
  {
    assert (rows + [row])[..|rows|] == rows;
  }

  lemma ValidLogOfAppend(rows: seq<Row>, row: Row)
    requires ValidLog(rows) && RowFollows(rows, row)
    ensures ValidLog(rows + [row])
    ensures Accounts(rows + [row]) ==
            if row.kind == Reserve then Accounts(rows) + [Account(row, None)]
            else CloseAccount(Accounts(rows), row)
  {
    hide RowFollows, CloseAccount;
    assert (rows + [row])[..|rows|] == rows;
  }

  // A reservation that fits under the limit keeps its period capped.
  lemma ReserveKeepsCap(rows: seq<Row>, row: Row, period: Period, limit: nat)
    requires ValidLog(rows) && RowFollows(rows, row) && row.kind == Reserve
    requires PeriodCapped(rows, period, limit)
    requires InPeriod(row, period) ==> EffectiveSpend(rows, period) + row.amount <= limit
    ensures PeriodCapped(rows + [row], period, limit)
  {
    hide RowFollows, ValidLog, InPeriod, Total, Charged, ActiveReserved, CloseAccount;
    ValidLogOfAppend(rows, row);
    AggregatesAreAccountTotals(rows, period);
    AggregatesAreAccountTotals(rows + [row], period);
    TotalOfAppend(Accounts(rows), Account(row, None), period, ChargedPart);
    TotalOfAppend(Accounts(rows), Account(row, None), period, ActivePart);
    TotalOfAppend(Accounts(rows), Account(row, None), period, OverrunPart);
  }

  // Closing replaces a reserve by a charge; any excess is an overrun.
  lemma CloseKeepsCap(rows: seq<Row>, row: Row, period: Period, limit: nat)
    requires ValidLog(rows) && RowFollows(rows, row) && IsTerminal(row)
    requires PeriodCapped(rows, period, limit)
    ensures PeriodCapped(rows + [row], period, limit)
  {
    hide InPeriod, Total, Charged, ActiveReserved, CloseAccount, HasReserve, HasTerminal;
    var accounts := Accounts(rows);
    AccountsMatchLog(rows);
    FollowersAreFirstTerminals(rows, row);
    var k :| 0 <= k < |accounts| && accounts[k].reserve.reservationId == row.reservationId;
    hide RowFollows, ValidLog;
    ValidLogOfAppend(rows, row);
    AggregatesAreAccountTotals(rows, period);
    AggregatesAreAccountTotals(rows + [row], period);
    TotalAfterClose(accounts, k, row, period, ChargedPart);
    TotalAfterClose(accounts, k, row, period, ActivePart);
    TotalAfterClose(accounts, k, row, period, OverrunPart);
  }

  lemma CloseKeepsInvariant(rows: seq<Row>, config: Config, row: Row)
    requires LedgerInvariant(rows, config) && RowFollows(rows, row) && IsTerminal(row)
    ensures LedgerInvariant(rows + [row], config)
  {
    hide PeriodCapped, CallCount, RowFollows, ValidLog;
    ValidLogOfAppend(rows, row);
    forall month
      ensures PeriodCapped(rows + [row], Month(month), config.hardLimit)
    {
      CloseKeepsCap(rows, row, Month(month), config.hardLimit);
    }
    if config.dailyLimit.Some? {
      forall day
        ensures PeriodCapped(rows + [row], Day(day), config.dailyLimit.value)
      {
        CloseKeepsCap(rows, row, Day(day), config.dailyLimit.value);
      }
    }
    forall month, provider, model
      ensures CallCount(rows + [row], month, provider, model) <= QuotaOf(config, provider, model)
    {
      CallCountOfAppend(rows, row, month, provider, model);
    }
  }

  lemma ReserveKeepsInvariant(rows: seq<Row>, config: Config, request: ReserveRequest, id: string, killSwitch: bool)
    requires LedgerInvariant(rows, config) && !HasReserve(rows, id) && !HasTerminal(rows, id)
    requires ReserveOutcome(rows, config, request, killSwitch).Ok?
    ensures LedgerInvariant(rows + [ReserveRow(request, id)], config)
  {
    hide PeriodCapped, CallCount, ValidLog, HasReserve, HasTerminal, EffectiveSpend, RequestReserved, IsoFormat, MonthKey,
      DayKey;
    var row := ReserveRow(request, id);
    assert RowFollows(rows, row);
    hide RowFollows;
    ValidLogOfAppend(rows, row);
    DayKeyIsPrefix(request.now);
    forall month
      ensures PeriodCapped(rows + [row], Month(month), config.hardLimit)
    {
      ReserveKeepsCap(rows, row, Month(month), config.hardLimit);
    }
    if config.dailyLimit.Some? {
      forall day
        ensures PeriodCapped(rows + [row], Day(day), config.dailyLimit.value)
      {
        ReserveKeepsCap(rows, row, Day(day), config.dailyLimit.value);
      }
    }
    forall month, provider, model
      ensures CallCount(rows + [row], month, provider, model) <= QuotaOf(config, provider, model)
    {
      CallCountOfAppend(rows, row, month, provider, model);
    }
  }

  // ----- Reconciliation -----

  // The open accounts stored at or before the cutoff text.
  function OpenStale(accounts: seq<Account>, cutoff: string): seq<Row> {
    if accounts == [] then []
    else
      var last := accounts[|accounts| - 1];
      OpenStale(accounts[..|accounts| - 1], cutoff)
      + if last.closed.None? && TextLeq(last.reserve.occurredAt, cutoff) then [last.reserve] else []
  }

  lemma OpenStaleOfAppend(accounts: seq<Account>, account: Account, cutoff: string)
    ensures OpenStale(accounts + [account], cutoff) == OpenStale(accounts, cutoff)
            + if account.closed.None? && TextLeq(account.reserve.occurredAt, cutoff) then [account.reserve] else []
  {
    hide TextLeq;
    assert (accounts + [account])[..|accounts|] == accounts;
  }

  lemma {:induction false} StaleAreOpenAccounts(scan: seq<Row>, all: seq<Row>, cutoff: string)
    ensures StaleReserves(scan, all, cutoff) == OpenStale(AccountsView(scan, all), cutoff)
  {
    hide TextLeq, OpenStale;
    if scan == [] {
      assert OpenStale([], cutoff) == [] by { NothingStale(cutoff); }
    } else {
      var n := |scan| - 1;
      var view := AccountsView(scan[..n], all);
      StaleAreOpenAccounts(scan[..n], all, cutoff);
      if scan[n].kind == Reserve {
        OpenStaleOfAppend(view, AccountOf(scan[n], Terminals(all, scan[n].reservationId)), cutoff);
      } else {
        assert view + [] == view && OpenStale(view, cutoff) + [] == OpenStale(view, cutoff);
      }
    }
  }

  lemma NothingStale(cutoff: string)
    ensures OpenStale([], cutoff) == []
  {
  }

  // Each stale row is one open account's reserve, and no id appears twice.
  lemma {:induction false} StaleRowsAreAccounts(accounts: seq<Account>, cutoff: string)
    requires DistinctIds(accounts)
    ensures
      var stale := OpenStale(accounts, cutoff);
      && (forall i :: 0 <= i < |stale| ==> exists k :: 0 <= k < |accounts| && accounts[k] == Account(stale[i], None))
      && (forall i, j :: 0 <= i < j < |stale| ==> stale[i].reservationId != stale[j].reservationId)
  {
    hide TextLeq;
    if accounts != [] {
      var n := |accounts| - 1;
      StaleRowsAreAccounts(accounts[..n], cutoff);
      var stale, before := OpenStale(accounts, cutoff), OpenStale(accounts[..n], cutoff);
      assert accounts == accounts[..n] + [accounts[n]];
      OpenStaleOfAppend(accounts[..n], accounts[n], cutoff);
      forall i | 0 <= i < |stale|
        ensures exists k :: 0 <= k < |accounts| && accounts[k] == Account(stale[i], None)
      {
        if i < |before| {
          var k :| 0 <= k < n && accounts[..n][k] == Account(before[i], None);
          assert accounts[k] == Account(stale[i], None);
        } else {
          assert accounts[n] == Account(stale[i], None);
        }
      }
      forall i, j | 0 <= i < j < |stale|
        ensures stale[i].reservationId != stale[j].reservationId
      {
        if j == |before| {
          var k :| 0 <= k < n && accounts[..n][k] == Account(before[i], None);
          assert accounts[k].reserve == stale[i];
        }
      }
    }
  }

  lemma HasTerminalOfConcat(rows: seq<Row>, more: seq<Row>, id: string)
    ensures HasTerminal(rows + more, id) <==> HasTerminal(rows, id) || HasTerminal(more, id)
  {
    var all := rows + more;
    if i :| 0 <= i < |rows| && IsTerminal(rows[i]) && rows[i].reservationId == id {
      assert all[i] == rows[i];
    }
    if i :| 0 <= i < |more| && IsTerminal(more[i]) && more[i].reservationId == id {
      assert all[|rows| + i] == more[i];
    }
    if i :| 0 <= i < |all| && IsTerminal(all[i]) && all[i].reservationId == id {
      assert all[i] == if i < |rows| then rows[i] else more[i - |rows|];
    }
  }

  // Appending terminal events never changes what a reservation's first row is.
  lemma {:induction false} ReserveSurvives(rows: seq<Row>, more: seq<Row>, id: string)
    requires HasReserve(rows, id) && forall i :: 0 <= i < |more| ==> IsTerminal(more[i])
    ensures HasReserve(rows + more, id) && FirstReserve(rows + more, id) == FirstReserve(rows, id)
  {
    hide HasReserve, FirstReserve;
    if more == [] {
      assert rows + more == rows;
    } else {
      var n := |more| - 1;
      ReserveSurvives(rows, more[..n], id);
      assert rows + more == (rows + more[..n]) + [more[n]];
      HasReserveOfAppend(rows + more[..n], more[n], id);
      FirstReserveOfAppend(rows + more[..n], more[n], id);
    }
  }

  // Distinct open reservations of the log.
  predicate OpenReserves(rows: seq<Row>, reserves: seq<Row>) {
    && (forall i, j :: 0 <= i < j < |reserves| ==> reserves[i].reservationId != reserves[j].reservationId)
    && (forall i :: 0 <= i < |reserves| ==> AccountMatches(rows, Account(reserves[i], None)))
  }

  lemma {:induction false} ReconcileKeepsInvariant(rows: seq<Row>, config: Config, stale: seq<Row>, now: Instant)
    requires LedgerInvariant(rows, config)
    requires OpenReserves(rows, stale)
    ensures LedgerInvariant(rows + AbandonRows(stale, now), config)
  {
    hide LedgerInvariant, HasReserve, HasTerminal, FirstReserve, IsoFormat;
    if stale == [] {
      assert rows + AbandonRows(stale, now) == rows;
    } else {
      var n := |stale| - 1;
      var more, last := AbandonRows(stale[..n], now), TerminalRow(stale[n], Abandon, None, now);
      ReconcileKeepsInvariant(rows, config, stale[..n], now);
      assert AccountMatches(rows, Account(stale[n], None));
      HasTerminalOfConcat(rows, more, last.reservationId);
      NoTerminalAmong(more, last.reservationId);
      ReserveSurvives(rows, more, last.reservationId);
      assert RowFollows(rows + more, last);
      CloseKeepsInvariant(rows + more, config, last);
      assert rows + AbandonRows(stale, now) == (rows + more) + [last];
    }
  }

  lemma NoTerminalAmong(more: seq<Row>, id: string)
    requires forall i :: 0 <= i < |more| ==> more[i].reservationId != id
    ensures !HasTerminal(more, id)
  {
  }

  lemma StaleRowsAreOpen(rows: seq<Row>, cutoff: string)
    requires ValidLog(rows)
    ensures OpenReserves(rows, StaleReserves(rows, rows, cutoff))
  {
    hide HasReserve, HasTerminal, FirstReserve, StaleReserves, OpenStale, ValidLog;
    AccountsMatchLog(rows);
    AccountsAreTheView(rows);
    StaleAreOpenAccounts(rows, rows, cutoff);
    StaleRowsAreAccounts(Accounts(rows), cutoff);
  }

  // ----- Runs -----

  lemma FirstReserveHasId(rows: seq<Row>, id: string)
    requires HasReserve(rows, id)
    ensures FirstReserve(rows, id).reservationId == id && FirstReserve(rows, id).kind == Reserve
    decreases rows
  {
    FirstReserveUnfold(rows, id);
    var n := |rows| - 1;
    if HasReserve(rows[..n], id) {
      FirstReserveHasId(rows[..n], id);
    } else {
      assert rows == rows[..n] + [rows[n]];
      HasReserveOfAppend(rows[..n], rows[n], id);
    }
  }

  lemma ReconcileStepKeepsInvariant(rows: seq<Row>, config: Config, cutoff: string, now: Instant)
    requires LedgerInvariant(rows, config)
    ensures LedgerInvariant(rows + AbandonRows(StaleReserves(rows, rows, cutoff), now), config)
  {
    hide OpenReserves, TextLeq;
    InvariantIsValid(rows, config);
    var stale := StaleReserves(rows, rows, cutoff);
    StaleRowsAreOpen(rows, cutoff);
    hide LedgerInvariant;
    ReconcileKeepsInvariant(rows, config, stale, now);
  }

  lemma StepKeepsInvariant(rows: seq<Row>, config: Config, op: LedgerOp)
    requires LedgerInvariant(rows, config) && Admissible(rows, op)
    ensures LedgerInvariant(Apply(rows, config, op), config)
  {
    hide LedgerInvariant, HasReserve, HasTerminal, FirstReserve, IsoFormat, ReserveOutcome, Earlier, Micros, StaleReserves,
      AbandonRows;
    match op
    case ReserveOp(request, id, killSwitch) =>
      if ReserveOutcome(rows, config, request, killSwitch).Ok? {
        ReserveKeepsInvariant(rows, config, request, id, killSwitch);
      }
    case CloseOp(target, kind, usage, now) =>
      if HasReserve(rows, target) && !HasTerminal(rows, target) {
        FirstReserveHasId(rows, target);
        CloseKeepsInvariant(rows, config, TerminalRow(FirstReserve(rows, target), kind, usage, now));
      }
    case ReconcileOp(olderThan, now) =>
      if HasEarlier(now, olderThan) { ReconcileStepKeepsInvariant(rows, config, IsoFormat(Earlier(now, olderThan)), now); }
  }

  lemma InvariantIsValid(rows: seq<Row>, config: Config)
    requires LedgerInvariant(rows, config)
    ensures ValidLog(rows)
  {
  }

  lemma {:induction false} EveryRunKeepsInvariant(config: Config, ops: seq<LedgerOp>)
    requires AdmissibleRun(config, ops)
    ensures LedgerInvariant(Run(config, ops), config)
  {
    hide LedgerInvariant, Apply, Admissible;
    if ops == [] {
      EmptyLedger(config);
    } else {
      EveryRunKeepsInvariant(config, ops[..|ops| - 1]);
      StepKeepsInvariant(Run(config, ops[..|ops| - 1]), config, ops[|ops| - 1]);
    }
  }

  lemma EmptyLedger(config: Config)
    ensures LedgerInvariant([], config)
  {
  }

  // In every reachable ledger, month and day: effective spend stays within the limit plus the
  // total overrun of settlements over their reserves.
  lemma SpendStaysCapped(config: Config, ops: seq<LedgerOp>, month: string, day: string)
    requires AdmissibleRun(config, ops)
    ensures
      var rows := Run(config, ops);
      && EffectiveSpend(rows, Month(month)) <= config.hardLimit + Total(Accounts(rows), Month(month), OverrunPart)
      && (config.dailyLimit.Some? ==>
            EffectiveSpend(rows, Day(day)) <= config.dailyLimit.value + Total(Accounts(rows), Day(day), OverrunPart))
  {
    hide Run, AdmissibleRun, EffectiveSpend, Accounts, Total, CallCount;
    EveryRunKeepsInvariant(config, ops);
    assert PeriodCapped(Run(config, ops), Month(month), config.hardLimit);
    if config.dailyLimit.Some? {
      assert PeriodCapped(Run(config, ops), Day(day), config.dailyLimit.value);
    }
  }
}
