/** The player money ledger: the rows of `financial_transactions`, the SQL folds that define
    wallet, credit owed and session chips, and the loop that recomputes them for the balance view. */
module Ledger {
  import opened Basics

  datatype TxType =
    | Deposit | Cashout | Withdrawal | Bonus | Credit | Refund | TournamentWin | Rake | Tip
    | BuyIn | Register | ClubBuyIn | ClubBuyOut | TableBuyIn | TableBuyOut | Debit

  datatype TxStatus = PendingTx | Completed | CancelledTx | FailedTx

  /** A ledger row of one club. Amounts are paise. The notes text only matters through the two
      substrings the folds look for: the wallet pair marker and "credit line repayment". */
  datatype Row = Row(
    player: Id,
    kind: TxType,
    amount: int,
    status: TxStatus,
    pairMarker: bool,
    lineRepayment: bool,
    createdAt: int)

  function Plain(player: Id, kind: TxType, amount: int, now: int): Row {
    Row(player, kind, amount, Completed, false, false, now)
  }

  function Marked(player: Id, kind: TxType, amount: int, now: int): Row {
    Row(player, kind, amount, Completed, true, false, now)
  }

  /** What can be summed over the ledger for one player. */
  datatype Measure =
    | WalletSql                     // WALLET_BALANCE_SQL
    | WalletLoop                    // cashBalance as accumulated by getPlayerBalance
    | CreditNet                     // CREDIT_BALANCE_SQL
    | SessionChips(since: int)      // SESSION_TABLE_CHIPS_SUM_CASE_INNER over rows since an instant
    | SessionCredit(since: int)     // creditUsedOnTable as accumulated by getPlayerBalance
    | LineRepayments                // Debits noted as credit line repayments

  /** The CASE arms, in the order the SQL tries them. */
  function WalletSqlArm(r: Row): int {
    if r.kind in {Deposit, ClubBuyIn, TableBuyOut, Bonus, Refund, TournamentWin} then r.amount
    else if r.kind in {TableBuyIn, BuyIn} && r.pairMarker then 0
    else if r.kind == Debit && r.lineRepayment then 0
    else if r.kind in {Withdrawal, ClubBuyOut, TableBuyIn, Cashout, Debit, BuyIn, Register} then -r.amount
    else 0
  }

  /** The if/else chain of the balance loop, which knows the pair marker but not repayments. */
  function WalletLoopArm(r: Row): int {
    if r.kind in {Deposit, ClubBuyIn, TournamentWin} then r.amount
    else if r.kind in {Cashout, Withdrawal, ClubBuyOut, Register} then -r.amount
    else if r.kind in {TableBuyIn, BuyIn} then (if r.pairMarker then 0 else -r.amount)
    else if r.kind == TableBuyOut then r.amount
    else if r.kind == Credit then 0
    else if r.kind == Debit then -r.amount
    else if r.kind in {Bonus, Refund} then r.amount
    else 0
  }

  function CreditArm(r: Row): int {
    if r.kind == Credit then r.amount else if r.kind == Debit then -r.amount else 0
  }

  function ChipsArm(r: Row): int {
    if r.kind == Credit then r.amount
    else if r.kind in {BuyIn, TableBuyIn} && !r.pairMarker then r.amount
    else if r.kind == TableBuyOut then -r.amount
    else 0
  }

  function Arm(m: Measure, r: Row): int {
    match m
    case WalletSql => WalletSqlArm(r)
    case WalletLoop => WalletLoopArm(r)
    case CreditNet => CreditArm(r)
    case SessionChips(since) => if r.createdAt >= since then ChipsArm(r) else 0
    case SessionCredit(since) => if r.createdAt >= since then CreditArm(r) else 0
    case LineRepayments => if r.kind == Debit && r.lineRepayment then r.amount else 0
  }

  predicate Counts(r: Row, player: Id) {
    r.player == player && r.status == Completed
  }

  function Share(m: Measure, r: Row, player: Id): int {
    if Counts(r, player) then Arm(m, r) else 0
  }

  /** SUM(CASE ...) over the completed rows of one player. */
  function Total(m: Measure, rows: seq<Row>, player: Id): int {
    if |rows| == 0 then 0
    else Total(m, rows[..|rows| - 1], player) + Share(m, rows[|rows| - 1], player)
  }

  lemma {:induction false} TotalAppend(m: Measure, a: seq<Row>, b: seq<Row>, player: Id)
    ensures Total(m, a + b, player) == Total(m, a, player) + Total(m, b, player)
    decreases |b|
  {
    if |b| == 0 {
      assert a + b == a;
    } else {
      assert (a + b)[..|a + b| - 1] == a + b[..|b| - 1];
      TotalAppend(m, a, b[..|b| - 1], player);
    }
  }

  lemma TotalOne(m: Measure, r: Row, player: Id)
    ensures Total(m, [r], player) == Share(m, r, player)
  {
    assert [r][..0] == [];
  }

  lemma TotalTwo(m: Measure, r: Row, q: Row, player: Id)
    ensures Total(m, [r, q], player) == Share(m, r, player) + Share(m, q, player)
  {
    hide Total, Share;
    assert [r, q] == [r] + [q];
    TotalAppend(m, [r], [q], player);
    TotalOne(m, r, player);
    TotalOne(m, q, player);
  }

  function Without(rows: seq<Row>, i: nat): seq<Row>
    requires i < |rows|
  {
    rows[..i] + rows[i + 1..]
  }

  lemma TotalWithout(m: Measure, rows: seq<Row>, i: nat, player: Id)
    requires i < |rows|
    ensures Total(m, rows, player) == Total(m, Without(rows, i), player) + Share(m, rows[i], player)
  {
    assert rows == (rows[..i] + [rows[i]]) + rows[i + 1..];
    TotalAppend(m, rows[..i] + [rows[i]], rows[i + 1..], player);
    TotalAppend(m, rows[..i], [rows[i]], player);
    TotalAppend(m, rows[..i], rows[i + 1..], player);
    TotalOne(m, rows[i], player);
  }

  lemma BagWithout(rows: seq<Row>, i: nat)
    requires i < |rows|
    ensures multiset(Without(rows, i)) == multiset(rows) - multiset{rows[i]}
  {
    assert rows == (rows[..i] + [rows[i]]) + rows[i + 1..];
    assert multiset(rows) == multiset(rows[..i]) + multiset{rows[i]} + multiset(rows[i + 1..]);
  }

  /** A fold over the ledger does not depend on the order the rows are read in. */
  lemma {:induction false} TotalPermutation(m: Measure, a: seq<Row>, b: seq<Row>, player: Id)
    requires multiset(a) == multiset(b)
    ensures Total(m, a, player) == Total(m, b, player)
    decreases |a|
  {
    if |a| == 0 {
      assert |multiset(b)| == |b|;
    } else {
      assert a[0] in multiset(a);
      var i :| 0 <= i < |b| && b[i] == a[0];
      BagWithout(a, 0);
      BagWithout(b, i);
      TotalPermutation(m, Without(a, 0), Without(b, i), player);
      TotalWithout(m, a, 0, player);
      TotalWithout(m, b, i, player);
    }
  }

  /** The rows the balance view fetches: completed, of this player. */
  function CompletedOf(rows: seq<Row>, player: Id): (s: seq<Row>)
    ensures forall r :: r in s ==> Counts(r, player)
  {
    if |rows| == 0 then []
    else
      var rest := CompletedOf(rows[..|rows| - 1], player);
      if Counts(rows[|rows| - 1], player) then rest + [rows[|rows| - 1]] else rest
  }

  lemma {:induction false} TotalOfCompleted(m: Measure, rows: seq<Row>, player: Id)
    ensures Total(m, CompletedOf(rows, player), player) == Total(m, rows, player)
  {
    if |rows| > 0 {
      var init, last := rows[..|rows| - 1], rows[|rows| - 1];
      TotalOfCompleted(m, init, player);
      if Counts(last, player) {
        TotalAppend(m, CompletedOf(init, player), [last], player);
        TotalOne(m, last, player);
      }
    }
  }

  /** The loop and the SQL disagree by exactly the repayment debits; the wallet the player sees
      equals the SQL wallet if and only if those debits sum to zero. */
  lemma {:induction false} LoopVersusSqlWallet(rows: seq<Row>, player: Id)
    ensures Total(WalletLoop, rows, player)
         == Total(WalletSql, rows, player) - Total(LineRepayments, rows, player)
    ensures Total(WalletLoop, rows, player) == Total(WalletSql, rows, player)
       <==> Total(LineRepayments, rows, player) == 0
  {
    if |rows| > 0 {
      LoopVersusSqlWallet(rows[..|rows| - 1], player);
    }
  }

  /** Money that comes to the player from outside, or leaves; every other row moves it between wallet,
      table and credit line. */
  function OutsideFlow(rows: seq<Row>, player: Id): int {
    if |rows| == 0 then 0
    else
      var r := rows[|rows| - 1];
      OutsideFlow(rows[..|rows| - 1], player)
      + (if !Counts(r, player) then 0
         else if r.kind in {Deposit, ClubBuyIn, TournamentWin, Bonus, Refund} then r.amount
         else if r.kind in {Withdrawal, Cashout, ClubBuyOut, Register} then -r.amount
         else 0)
  }

  /** Conservation: cash plus chips less credit owed is exactly what came in from outside less what went
      out, over every ledger; buy-ins, buy-outs, draws and repayments cancel out. */
  lemma {:induction false} OnlyOutsideMoneyCounts(rows: seq<Row>, player: Id, since: int)
    requires forall i :: 0 <= i < |rows| ==> rows[i].createdAt >= since
    ensures Total(WalletLoop, rows, player) + Total(SessionChips(since), rows, player) - Total(CreditNet, rows, player)
         == OutsideFlow(rows, player)
  {
    if |rows| > 0 {
      OnlyOutsideMoneyCounts(rows[..|rows| - 1], player, since);
    }
  }

  /** A repayment of 100 on the credit line: the SQL wallet stays at 0, the loop shows -100. */
  lemma RepaymentSplitsWallets()
    ensures var rows := [Row("p", Debit, 100, Completed, false, true, 0)];
            Total(WalletSql, rows, "p") == 0 && Total(WalletLoop, rows, "p") == -100
  {
    var r := Row("p", Debit, 100, Completed, false, true, 0);
    TotalOne(WalletSql, r, "p");
    TotalOne(WalletLoop, r, "p");
  }

  /** Rows that belong to someone else change no fold of this player. */
  lemma {:induction false} TotalOfOthers(m: Measure, rows: seq<Row>, player: Id)
    requires forall i :: 0 <= i < |rows| ==> rows[i].player != player
    ensures Total(m, rows, player) == 0
  {
    if |rows| > 0 {
      TotalOfOthers(m, rows[..|rows| - 1], player);
    }
  }

  // ---------------------------------------------------------------- credit facility

  datatype Facility = Facility(used: int, onLine: int, consumed: int, available: int)

  /** computeCreditFacilityBreakdown. When the line is on, its whole limit is always accounted for
      as used + on line + available. What is consumed is on line while credit is owed, and used only when
      none is. */
  function Breakdown(creditLimit: int, creditLedgerNet: int, availableBalance: int, creditEnabled: bool): (f: Facility)
    ensures 0 <= f.used && 0 <= f.onLine && 0 <= f.available
    ensures creditEnabled && creditLimit > 0 ==> f.used + f.onLine + f.available == creditLimit
    ensures !creditEnabled || creditLimit <= 0 ==> f.available == 0 && f.consumed == 0
    ensures f.consumed == f.used + f.onLine
    ensures creditLedgerNet > 0 ==> f.used == 0
    ensures creditLedgerNet <= 0 ==> f.onLine == 0
    ensures availableBalance >= 0 ==> f.used == 0
    ensures f.available > 0 ==> creditLedgerNet + f.available <= creditLimit
  {
    var limit := Max(0, creditLimit);
    if !creditEnabled || limit <= 0 then Facility(0, 0, 0, 0)
    else
      var onLine := Min(Max(0, creditLedgerNet), limit);
      var shortfall := Max(0, -availableBalance);
      var used := if creditLedgerNet <= 0 then Min(limit, shortfall) else 0;
      var consumed := Min(limit, onLine + used);
      Facility(used, onLine, consumed, Max(0, limit - consumed))
  }

  // ---------------------------------------------------------------- waitlist rows

  datatype WaitStatus = Waiting | Seated | WaitCancelled | NoShow

  datatype Entry = Entry(player: Id, status: WaitStatus, table: Option<int>, seatedAt: Option<int>)

  /** `isSeated`: a SEATED row whose table number is present (and truthy, so not 0). */
  predicate AtTable(e: Option<Entry>) {
    e.Some? && e.value.status == Seated && e.value.table.Some? && e.value.table.value != 0
  }

  // ---------------------------------------------------------------- the balance view

  datatype BalanceView = BalanceView(
    available: int,
    tableBalance: int,
    creditOnTable: int,
    cashOnTable: int,
    total: int,
    facility: Facility)

  const ZERO_VIEW := BalanceView(0, 0, 0, 0, 0, Facility(0, 0, 0, 0))

  /** Chips on the table by the session SQL, 0 unless seated at a table since a known instant. */
  function TableChips(rows: seq<Row>, player: Id, seat: Option<Entry>): int {
    if AtTable(seat) && seat.value.seatedAt.Some?
    then Total(SessionChips(seat.value.seatedAt.value), rows, player) else 0
  }

  function TableCredit(rows: seq<Row>, player: Id, seat: Option<Entry>): int {
    if AtTable(seat) && seat.value.seatedAt.Some?
    then Max(0, Total(SessionCredit(seat.value.seatedAt.value), rows, player)) else 0
  }

  lemma NothingYet(player: Id)
    ensures forall m :: Total(m, [], player) == 0
  {
  }

  /** Reading one more row adds its share. */
  lemma TotalNext(m: Measure, rows: seq<Row>, i: nat, player: Id)
    requires i < |rows|
    ensures Total(m, rows[..i + 1], player) == Total(m, rows[..i], player) + Share(m, rows[i], player)
  {
    assert rows[..i + 1][..i] == rows[..i];
  }

  /** The accumulating loop of getPlayerBalance over the fetched rows. */
  method Accumulate(transactions: seq<Row>, player: Id, isSeated: bool, seatedAt: Option<int>)
    returns (cashBalance: int, tableBalance: int, creditUsedOnTable: int)
    requires forall r :: r in transactions ==> Counts(r, player)
    ensures cashBalance == Total(WalletLoop, transactions, player)
    ensures isSeated && seatedAt.Some? ==>
      && tableBalance == Total(SessionChips(seatedAt.value), transactions, player)
      && creditUsedOnTable == Total(SessionCredit(seatedAt.value), transactions, player)
    ensures !(isSeated && seatedAt.Some?) ==> tableBalance == 0 && creditUsedOnTable == 0
  {
    hide Total;
    NothingYet(player);
    cashBalance, tableBalance, creditUsedOnTable := 0, 0, 0;
    ghost var since := if seatedAt.Some? then seatedAt.value else 0;
    var i := 0;
    while i < |transactions|
      invariant 0 <= i <= |transactions|
      invariant cashBalance == Total(WalletLoop, transactions[..i], player)
      invariant isSeated && seatedAt.Some? ==>
        && tableBalance == Total(SessionChips(since), transactions[..i], player)
        && creditUsedOnTable == Total(SessionCredit(since), transactions[..i], player)
      invariant !(isSeated && seatedAt.Some?) ==> tableBalance == 0 && creditUsedOnTable == 0
    {
      var txn := transactions[i];
      assert Counts(txn, player);
      TotalNext(WalletLoop, transactions, i, player);
      TotalNext(SessionChips(since), transactions, i, player);
      TotalNext(SessionCredit(since), transactions, i, player);
      var isCurrentSession := isSeated && seatedAt.Some? && txn.createdAt >= seatedAt.value;
      if txn.kind in {Deposit, ClubBuyIn, TournamentWin} {
        cashBalance := cashBalance + txn.amount;
      } else if txn.kind in {Cashout, Withdrawal, ClubBuyOut, Register} {
        cashBalance := cashBalance - txn.amount;
      } else if txn.kind in {TableBuyIn, BuyIn} {
        if !txn.pairMarker {
          cashBalance := cashBalance - txn.amount;
        }
        if isCurrentSession {
          if !txn.pairMarker {
            tableBalance := tableBalance + txn.amount;
          }
        }
      } else if txn.kind == TableBuyOut {
        cashBalance := cashBalance + txn.amount;
        if isCurrentSession {
          tableBalance := tableBalance - txn.amount;
        }
      } else if txn.kind == Credit {
        if isCurrentSession {
          tableBalance := tableBalance + txn.amount;
          creditUsedOnTable := creditUsedOnTable + txn.amount;
        }
      } else if txn.kind == Debit {
        cashBalance := cashBalance - txn.amount;
        if isCurrentSession {
          creditUsedOnTable := creditUsedOnTable - txn.amount;
        }
      } else if txn.kind in {Bonus, Refund} {
        cashBalance := cashBalance + txn.amount;
      }
      i := i + 1;
    }
    assert transactions[..i] == transactions;
  }

  /** getPlayerBalance: one pass over the player's completed rows, in whatever order they were
      fetched, with mutable accumulators. `rows` is the whole ledger the rows were fetched from.
      Chips on the table show as credit up to the session's credit and as cash beyond it; with the credit
      line locked they all show as cash. */
  method GetPlayerBalance(ghost rows: seq<Row>, player: Id, transactions: seq<Row>, seat: Option<Entry>,
                          kycApproved: bool, creditEnabled: bool, creditLimit: int, creditLedgerNet: int)
    returns (view: BalanceView)
    requires multiset(transactions) == multiset(CompletedOf(rows, player))
    requires creditLedgerNet == Total(CreditNet, rows, player)
    ensures !kycApproved ==> view == ZERO_VIEW
    ensures kycApproved ==>
      && view.available == Total(WalletSql, rows, player) - Total(LineRepayments, rows, player)
      && view.tableBalance == TableChips(rows, player, seat)
      && view.total == view.available + view.tableBalance
      && view.facility == Breakdown(creditLimit, if creditEnabled then creditLedgerNet else 0,
                                    view.available, creditEnabled)
    ensures kycApproved ==>
      var chips, credit := TableChips(rows, player, seat), TableCredit(rows, player, seat);
      if !creditEnabled && AtTable(seat) && chips > 0 then view.creditOnTable == 0 && view.cashOnTable == chips
      else view.creditOnTable == credit && view.cashOnTable == Max(0, chips - credit)
    ensures (seat.None? || seat.value.status != Seated || seat.value.table in {None, Some(0)}
             || seat.value.seatedAt.None?) ==>
              view.tableBalance == 0 && view.creditOnTable == 0 && view.cashOnTable == 0
    ensures kycApproved ==>
      (view.cashOnTable + view.creditOnTable == view.tableBalance
       <==> (TableCredit(rows, player, seat) <= view.tableBalance
             || (!creditEnabled && AtTable(seat) && view.tableBalance > 0)))
  {
    if !kycApproved {
      return ZERO_VIEW;
    }
    hide Breakdown, CompletedOf, Total;
    var isSeated := AtTable(seat);
    var seatedAt := if seat.Some? then seat.value.seatedAt else None;
    ghost var since := if seatedAt.Some? then seatedAt.value else 0;
    forall r | r in transactions
      ensures Counts(r, player)
    {
      assert r in multiset(transactions);
      assert r in CompletedOf(rows, player);
    }
    var cashBalance, tableBalance, creditUsedOnTable := Accumulate(transactions, player, isSeated, seatedAt);
    FetchedTotal(WalletLoop, rows, player, transactions);
    FetchedTotal(SessionChips(since), rows, player, transactions);
    FetchedTotal(SessionCredit(since), rows, player, transactions);
    LoopVersusSqlWallet(rows, player);

    creditUsedOnTable := Max(0, creditUsedOnTable);
    if !isSeated {
      tableBalance := 0;
      creditUsedOnTable := 0;
    }
    var creditDisplay := creditUsedOnTable;
    var cashDisplay := Max(0, tableBalance - creditUsedOnTable);
    if !creditEnabled && isSeated && tableBalance > 0 {
      creditDisplay := 0;
      cashDisplay := Max(0, tableBalance);
    }
    var net := if creditEnabled then creditLedgerNet else 0;
    var facility := Breakdown(creditLimit, net, cashBalance, creditEnabled);
    view := BalanceView(cashBalance, tableBalance, creditDisplay, cashDisplay, cashBalance + tableBalance, facility);
  }

  lemma FetchedTotal(m: Measure, rows: seq<Row>, player: Id, transactions: seq<Row>)
    requires multiset(transactions) == multiset(CompletedOf(rows, player))
    ensures Total(m, transactions, player) == Total(m, rows, player)
  {
    TotalPermutation(m, transactions, CompletedOf(rows, player), player);
    TotalOfCompleted(m, rows, player);
  }
}
