// The accounts a ledger stands for, and the proof that the SQL aggregates compute their totals.
module LedgerAccounts {
  import opened Wrappers
  import opened Pricing
  import opened Instants
  import opened Ledger

  // One account per reservation: open at its reserve, or closed by a terminal event.
  datatype Account = Account(reserve: Row, closed: Option<Row>)

  function CloseAccount(accounts: seq<Account>, event: Row): seq<Account> {
    seq(|accounts|, i requires 0 <= i < |accounts| =>
      if accounts[i].reserve.reservationId == event.reservationId then accounts[i].(closed := Some(event))
      else accounts[i])
  }

  // Replays the log.
  function Accounts(rows: seq<Row>): seq<Account> {
    if rows == [] then []
    else
      var last, before := rows[|rows| - 1], Accounts(rows[..|rows| - 1]);
      if last.kind == Reserve then before + [Account(last, None)]
      else CloseAccount(before, last)
  }

  datatype Measure = ChargedPart | ActivePart | OverrunPart | CachedSettlement

  function Value(account: Account, measure: Measure): nat {
    match measure
    case ChargedPart => if account.closed.Some? then account.closed.value.amount else 0
    case ActivePart => if account.closed.None? then account.reserve.amount else 0
    case OverrunPart =>
      if account.closed.Some? && account.closed.value.amount > account.reserve.amount
      then account.closed.value.amount - account.reserve.amount else 0
    case CachedSettlement =>
      if account.closed.Some? && account.closed.value.usage.Some? && account.closed.value.usage.value.cached > 0
      then 1 else 0
  }

  function Total(accounts: seq<Account>, period: Period, measure: Measure): nat {
    if accounts == [] then 0
    else
      var last := accounts[|accounts| - 1];
      Total(accounts[..|accounts| - 1], period, measure)
      + if InPeriod(last.reserve, period) then Value(last, measure) else 0
  }

  // ----- Well-formed logs -----

  // The charge is the quote of the recorded usage, or the full reserve without one.
  predicate ChargedBy(reserve: Row, event: Row) {
    && (event.usage.Some? ==> event.usage.value.cached <= event.usage.value.input)
    && event.amount == ChargeFor(reserve, event.usage)
  }

  // A row a transaction may append to a log.
  predicate RowFollows(rows: seq<Row>, row: Row) {
    if row.kind == Reserve then
      && !HasReserve(rows, row.reservationId) && !HasTerminal(rows, row.reservationId)
      && !RequestReserved(rows, row.month, row.provider, row.model, row.requestKey)
    else
      && HasReserve(rows, row.reservationId) && !HasTerminal(rows, row.reservationId)
      && var reserve := FirstReserve(rows, row.reservationId);
         row.month == reserve.month && row.provider == reserve.provider && row.model == reserve.model
         && row.requestKey == reserve.requestKey && row.policy == reserve.policy && ChargedBy(reserve, row)
  }

  predicate ValidLog(rows: seq<Row>) {
    rows == [] || (ValidLog(rows[..|rows| - 1]) && RowFollows(rows[..|rows| - 1], rows[|rows| - 1]))
  }

  // ----- Elementary facts about the queries -----

  lemma HasReserveOfAppend(rows: seq<Row>, row: Row, id: string)
    ensures HasReserve(rows + [row], id) <==> HasReserve(rows, id) || (row.kind == Reserve && row.reservationId == id)
  {
    var all := rows + [row];
    if HasReserve(rows, id) {
      var i :| 0 <= i < |rows| && rows[i].kind == Reserve && rows[i].reservationId == id;
      assert all[i] == rows[i];
    }
    assert all[|rows|] == row;
  }

  lemma HasTerminalOfAppend(rows: seq<Row>, row: Row, id: string)
    ensures HasTerminal(rows + [row], id) <==> HasTerminal(rows, id) || (IsTerminal(row) && row.reservationId == id)
  {
    var all := rows + [row];
    if HasTerminal(rows, id) {
      var i :| 0 <= i < |rows| && IsTerminal(rows[i]) && rows[i].reservationId == id;
      assert all[i] == rows[i];
    }
    assert all[|rows|] == row;
  }

  lemma {:induction false} TerminalsExist(rows: seq<Row>, id: string)
    ensures HasTerminal(rows, id) <==> Terminals(rows, id) != []
  {
    if rows != [] {
      var n := |rows| - 1;
      TerminalsExist(rows[..n], id);
      HasTerminalOfAppend(rows[..n], rows[n], id);
      assert rows == rows[..n] + [rows[n]];
    }
  }

  lemma {:induction false} AtMostOneTerminal(rows: seq<Row>, id: string)
    requires ValidLog(rows)
    ensures |Terminals(rows, id)| <= 1
  {
    hide RowFollows;
    if rows != [] {
      var n := |rows| - 1;
      AtMostOneTerminal(rows[..n], id);
      if IsTerminal(rows[n]) && rows[n].reservationId == id {
        FollowersAreFirstTerminals(rows[..n], rows[n]);
        TerminalsExist(rows[..n], id);
      }
    }
  }

  lemma FollowersAreFirstTerminals(rows: seq<Row>, row: Row)
    requires RowFollows(rows, row)
    ensures !HasTerminal(rows, row.reservationId)
    ensures IsTerminal(row) ==> HasReserve(rows, row.reservationId)
    ensures row.kind == Reserve ==> !HasReserve(rows, row.reservationId)
  {
  }

  // ----- The aggregates are the accounts' totals -----

  // The accounts of the reservations in scan, closed by what the whole table says.
  function AccountsView(scan: seq<Row>, all: seq<Row>): seq<Account> {
    if scan == [] then []
    else
      var last := scan[|scan| - 1];
      AccountsView(scan[..|scan| - 1], all)
      + if last.kind == Reserve then [AccountOf(last, Terminals(all, last.reservationId))] else []
  }

  function AccountOf(reserve: Row, matches: seq<Row>): Account {
    Account(reserve, if matches == [] then None else Some(matches[0]))
  }

  lemma {:induction false} ViewIgnoresReserves(scan: seq<Row>, all: seq<Row>, row: Row)
    requires row.kind == Reserve
    ensures AccountsView(scan, all + [row]) == AccountsView(scan, all)
  {
    if scan != [] {
      ViewIgnoresReserves(scan[..|scan| - 1], all, row);
      assert (all + [row])[..|all|] == all;
    }
  }

  lemma TerminalsOfAppend(all: seq<Row>, row: Row, id: string)
    requires IsTerminal(row)
    ensures Terminals(all + [row], id) == Terminals(all, id) + if row.reservationId == id then [row] else []
  {
    assert (all + [row])[..|all|] == all;
  }

  // A terminal row closes the one account it belongs to.
  lemma OneViewCloses(reserve: Row, all: seq<Row>, row: Row)
    requires IsTerminal(row) && Terminals(all, row.reservationId) == []
    ensures [AccountOf(reserve, Terminals(all + [row], reserve.reservationId))] ==
            CloseAccount([AccountOf(reserve, Terminals(all, reserve.reservationId))], row)
  {
    TerminalsOfAppend(all, row, reserve.reservationId);
    hide Terminals, IsTerminal;
    var account := AccountOf(reserve, Terminals(all, reserve.reservationId));
    assert [account][..0] == [];
    assert CloseAccount([], row) == [];
  }

  lemma {:induction false} ViewClosesAccount(scan: seq<Row>, all: seq<Row>, row: Row)
    requires IsTerminal(row) && Terminals(all, row.reservationId) == []
    ensures AccountsView(scan, all + [row]) == CloseAccount(AccountsView(scan, all), row)
  {
    hide Terminals, CloseAccount, IsTerminal, AccountOf;
    if scan == [] {
      NothingToClose(row);
    } else {
      var n := |scan| - 1;
      ViewClosesAccount(scan[..n], all, row);
      if scan[n].kind == Reserve {
        OneViewCloses(scan[n], all, row);
        CloseAccountOfAppend(AccountsView(scan[..n], all), AccountOf(scan[n], Terminals(all, scan[n].reservationId)), row);
      } else {
        assert AccountsView(scan, all) == AccountsView(scan[..n], all);
      }
    }
  }

  lemma NothingToClose(row: Row)
    ensures CloseAccount([], row) == []
  {
  }

  lemma CloseAccountOfAppend(accounts: seq<Account>, account: Account, event: Row)
    ensures CloseAccount(accounts + [account], event) == CloseAccount(accounts, event) + CloseAccount([account], event)
  {
  }

  lemma {:induction false} AccountsAreTheView(rows: seq<Row>)
    requires ValidLog(rows)
    ensures Accounts(rows) == AccountsView(rows, rows)
  {
    hide RowFollows, CloseAccount;
    if rows != [] {
      var n := |rows| - 1;
      var before, row := rows[..n], rows[n];
      AccountsAreTheView(before);
      FollowersAreFirstTerminals(before, row);
      TerminalsExist(before, row.reservationId);
      assert rows == before + [row];
      if row.kind == Reserve {
        ViewIgnoresReserves(before, before, row);
        assert Terminals(rows, row.reservationId) == Terminals(before, row.reservationId) == [];
        assert AccountsView(rows, rows) == AccountsView(before, rows) + [Account(row, None)];
      } else {
        ViewClosesAccount(before, before, row);
        assert AccountsView(rows, rows) == AccountsView(before, rows);
      }
    }
  }

  lemma SumsOfAppend(joined: seq<JoinedRow>, row: JoinedRow)
    ensures SumCharged(joined + [row]) == SumCharged(joined) + if row.terminal.Some? then row.terminal.value.amount else 0
    ensures SumActive(joined + [row]) == SumActive(joined) + if row.terminal.None? then row.reserve.amount else 0
  {
    assert (joined + [row])[..|joined|] == joined;
  }

  lemma TotalOfAppend(accounts: seq<Account>, account: Account, period: Period, measure: Measure)
    ensures Total(accounts + [account], period, measure) ==
            Total(accounts, period, measure) + if InPeriod(account.reserve, period) then Value(account, measure) else 0
  {
    hide Value, InPeriod;
    assert (accounts + [account])[..|accounts|] == accounts;
  }

  lemma JoinedReserveIsAccount(joined: seq<JoinedRow>, view: seq<Account>, reserve: Row, matches: seq<Row>, period: Period)
    requires |matches| <= 1
    requires SumCharged(joined) == Total(view, period, ChargedPart) && SumActive(joined) == Total(view, period, ActivePart)
    ensures
      var joined' := joined + if InPeriod(reserve, period) then JoinOne(reserve, matches) else [];
      var view' := view + [AccountOf(reserve, matches)];
      SumCharged(joined') == Total(view', period, ChargedPart) && SumActive(joined') == Total(view', period, ActivePart)
  {
    hide SumCharged, SumActive, Total, InPeriod;
    TotalOfAppend(view, AccountOf(reserve, matches), period, ChargedPart);
    TotalOfAppend(view, AccountOf(reserve, matches), period, ActivePart);
    if InPeriod(reserve, period) {
      var one := JoinedRow(reserve, if matches == [] then None else Some(matches[0]));
      assert JoinOne(reserve, matches) == [one];
      SumsOfAppend(joined, one);
    } else {
      assert joined + [] == joined;
    }
  }

  lemma {:induction false} JoinSumsAreTotals(scan: seq<Row>, all: seq<Row>, period: Period)
    requires forall id :: |Terminals(all, id)| <= 1
    ensures SumCharged(LeftJoin(scan, all, period)) == Total(AccountsView(scan, all), period, ChargedPart)
    ensures SumActive(LeftJoin(scan, all, period)) == Total(AccountsView(scan, all), period, ActivePart)
  {
    hide Terminals, InPeriod, SumCharged, SumActive, JoinOne, AccountOf;
    if scan == [] {
      EmptySums();
    } else {
      var n := |scan| - 1;
      var last, joined, view := scan[n], LeftJoin(scan[..n], all, period), AccountsView(scan[..n], all);
      JoinSumsAreTotals(scan[..n], all, period);
      if last.kind == Reserve {
        JoinedReserveIsAccount(joined, view, last, Terminals(all, last.reservationId), period);
      } else {
        assert joined + [] == joined && view + [] == view;
      }
    }
  }

  lemma EmptySums()
    ensures SumCharged([]) == 0 && SumActive([]) == 0
  {
  }

  // In every well-formed log, the joined sums for any month or day are the accounts' totals: each
  // reservation contributes once, in the period of its reservation, whenever it was closed.
  lemma AggregatesAreAccountTotals(rows: seq<Row>, period: Period)
    requires ValidLog(rows)
    ensures Charged(rows, period) == Total(Accounts(rows), period, ChargedPart)
    ensures ActiveReserved(rows, period) == Total(Accounts(rows), period, ActivePart)
  {
    forall id: string
      ensures |Terminals(rows, id)| <= 1
    {
      AtMostOneTerminal(rows, id);
    }
    AccountsAreTheView(rows);
    JoinSumsAreTotals(rows, rows, period);
  }
}
