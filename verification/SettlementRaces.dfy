/** Buy-out approval, the staff buy-out and the whole-table settlement read the credit owed and post the
    matching debit without locking the player. This module says when that is safe and what happens when
    it is not. */
module SettlementRaces {
  import opened Basics
  import opened Ledger
  import opened Postings
  import opened ClubStore
  import opened RequestProtocol

  /** Debts of the player that these postings will debit. */
  function Pledged(postings: seq<Posting>, player: Id): int {
    if |postings| == 0 then 0
    else
      var p := postings[|postings| - 1];
      Pledged(postings[..|postings| - 1], player)
      + (if p.basis.OwedRead? && p.player == player then p.basis.owed else 0)
  }

  /** Credit of the player that these postings will draw. */
  function DrawnIn(postings: seq<Posting>, player: Id): int {
    if |postings| == 0 then 0
    else
      var p := postings[|postings| - 1];
      DrawnIn(postings[..|postings| - 1], player)
      + (if p.basis.SeatRead? && p.player == player
         then Max(0, CreditDraw(p.basis.seat, p.amount, p.basis.limit)) else 0)
  }

  /** What an in-flight transaction has read the player to owe and will debit when it commits; a
      whole-table settlement may have read several times. */
  function Pledge(s: State, t: nat, player: Id): int {
    if t in s.txns then Pledged(InFlightPostings(s.txns[t]), player) else 0
  }

  function Net(s: State, player: Id): int {
    Total(CreditNet, LedgerOf(s), player)
  }

  /** No two transactions in flight have both read a positive debt of the same player. */
  ghost predicate OneSettlement(s: State) {
    forall t: nat, u: nat, player :: Pledge(s, t, player) > 0 && Pledge(s, u, player) > 0 ==> t == u
  }

  /** Rows of the writers outside the protocol lower nobody's credit net. */
  ghost predicate NoOtherDebits(step: Step) {
    step.OtherRows? ==> forall player :: Total(CreditNet, step.rows, player) >= 0
  }

  predicate SanePosting(p: Posting) {
    p.basis.OwedRead? ==> p.basis.owed >= 0
  }

  lemma PostingNet(rows: seq<Row>, p: Posting, player: Id)
    requires SanePosting(p)
    ensures Total(CreditNet, rows + RowsOf(p), player) - Total(CreditNet, rows, player)
         == if p.player != player then 0
            else match p.basis
              case NoRead => 0
              case OwedRead(owed) => -owed
              case SeatRead(seat, limit) => Max(0, CreditDraw(seat, p.amount, limit))
  {
    match p.basis
    case NoRead => BuyInEffect(CreditNet, rows, p.player, p.amount, p.now, player);
    case OwedRead(owed) => BuyOutEffect(CreditNet, rows, p.player, p.amount, owed, p.now, player);
    case SeatRead(seat, limit) =>
      CreditEffect(CreditNet, rows, p.player, CreditDraw(seat, p.amount, limit), p.now, player);
  }

  /** Postings raise a credit net by what they draw and lower it by what they debit. */
  lemma {:induction false} PostingsNet(rows: seq<Row>, postings: seq<Posting>, player: Id)
    requires forall i :: 0 <= i < |postings| ==> SanePosting(postings[i])
    ensures Total(CreditNet, rows + Flatten(postings), player)
         == Total(CreditNet, rows, player) + DrawnIn(postings, player) - Pledged(postings, player)
    ensures DrawnIn(postings, player) >= 0 && Pledged(postings, player) >= 0
    decreases |postings|
  {
    if |postings| == 0 {
      assert rows + Flatten(postings) == rows;
    } else {
      hide Total, RowsOf, CreditDraw;
      PostingsNet(rows, postings[..|postings| - 1], player);
      assert SanePosting(postings[|postings| - 1]);
      PostingNet(rows + Flatten(postings[..|postings| - 1]), postings[|postings| - 1], player);
      FlattenLast(rows, postings);
    }
  }

  lemma AppendAssociates(a: seq<Row>, b: seq<Row>, c: seq<Row>)
    ensures a + (b + c) == (a + b) + c
  {
  }

  lemma FlattenLast(rows: seq<Row>, postings: seq<Posting>)
    requires |postings| > 0
    ensures rows + Flatten(postings) == (rows + Flatten(postings[..|postings| - 1])) + RowsOf(postings[|postings| - 1])
  {
    hide RowsOf;
    AppendAssociates(rows, Flatten(postings[..|postings| - 1]), RowsOf(postings[|postings| - 1]));
  }

  lemma {:induction false} FlattenAppend(log: seq<Posting>, more: seq<Posting>)
    ensures Flatten(log + more) == Flatten(log) + Flatten(more)
    decreases |more|
  {
    if |more| == 0 {
      assert log + more == log;
    } else {
      assert (log + more)[..|log + more| - 1] == log + more[..|more| - 1];
      FlattenAppend(log, more[..|more| - 1]);
    }
  }

  /** A commit adds exactly the rows of its postings to the ledger. */
  lemma CommittedRows(s: State, t: nat)
    requires Enabled(s, Commit(t))
    ensures LedgerOf(Apply(s, Commit(t))) == LedgerOf(s) + Flatten(s.txns[t].phase.write.postings)
  {
    hide Vacated, Flatten;
    FlattenAppend(s.log, s.txns[t].phase.write.postings);
  }

  lemma {:induction false} NothingPledged(postings: seq<Posting>, player: Id)
    requires forall i :: 0 <= i < |postings| ==> !postings[i].basis.OwedRead?
    ensures Pledged(postings, player) == 0
  {
    if |postings| > 0 {
      NothingPledged(postings[..|postings| - 1], player);
    }
  }

  /** What is in flight is sane, and a whole-table settlement draws nothing. */
  lemma InFlightSane(x: Txn, player: Id)
    requires PhaseFits(x)
    ensures forall i :: 0 <= i < |InFlightPostings(x)| ==> SanePosting(InFlightPostings(x)[i])
    ensures x.job.SettleAll? ==> DrawnIn(InFlightPostings(x), player) == 0
  {
    if x.job.SettleAll? {
      NothingDrawn(InFlightPostings(x), player);
    }
  }

  lemma {:induction false} NothingDrawn(postings: seq<Posting>, player: Id)
    requires forall i :: 0 <= i < |postings| ==> postings[i].basis.OwedRead?
    ensures DrawnIn(postings, player) == 0
  {
    if |postings| > 0 {
      NothingDrawn(postings[..|postings| - 1], player);
    }
  }

  lemma PledgeNonNegative(s: State, t: nat, player: Id)
    requires Inv(s)
    ensures Pledge(s, t, player) >= 0
  {
    if t in s.txns {
      assert PhaseFits(s.txns[t]);
      InFlightSane(s.txns[t], player);
      PostingsNet([], InFlightPostings(s.txns[t]), player);
    }
  }

  /** How one step moves a player's credit net: a commit by what it draws less what it pledged, rows of
      other writers by their own total, anything else not at all. */
  lemma NetStep(s: State, step: Step, player: Id)
    requires Inv(s) && Enabled(s, step)
    ensures step.Commit? ==>
      && Net(Apply(s, step), player)
         == Net(s, player) + DrawnIn(s.txns[step.t].phase.write.postings, player) - Pledge(s, step.t, player)
      && DrawnIn(s.txns[step.t].phase.write.postings, player) >= 0
    ensures step.OtherRows? ==> Net(Apply(s, step), player) == Net(s, player) + Total(CreditNet, step.rows, player)
    ensures !step.Commit? && !step.OtherRows? ==> Net(Apply(s, step), player) == Net(s, player)
  {
    hide Total, RowsOf, ReadPosting, AfterRead, Vacated, Pledged, DrawnIn, Exclusive, RequestsHeld, IdsFresh, LogFits,
         UpdatesFit;
    if step.Commit? {
      var x := s.txns[step.t];
      assert PhaseFits(x);
      CommittedRows(s, step.t);
      InFlightSane(x, player);
      PostingsNet(LedgerOf(s), x.phase.write.postings, player);
    } else if step.OtherRows? {
      TotalAppend(CreditNet, s.other, step.rows, player);
      TotalAppend(CreditNet, s.other, Flatten(s.log), player);
      TotalAppend(CreditNet, s.other + step.rows, Flatten(s.log), player);
    }
  }

  /** t's next read is of what the player owes. */
  predicate ReadsDebt(s: State, t: nat, player: Id) {
    && t in s.txns && MayRead(s.txns[t])
    && var p := ReadPosting(s, s.txns[t]); p.Some? && p.value.basis.OwedRead? && p.value.player == player
  }

  lemma PledgedAppend(postings: seq<Posting>, p: Posting, player: Id)
    ensures Pledged(postings + [p], player)
         == Pledged(postings, player) + (if p.basis.OwedRead? && p.player == player then p.basis.owed else 0)
  {
    assert (postings + [p])[..|postings|] == postings;
  }

  /** Reading a debt pledges the whole credit net, not more than is pledged already if that is higher:
      a second entry for the same player sees the settlement's own first debit. */
  lemma ReadPledges(s: State, t: nat, player: Id)
    requires Inv(s) && Enabled(s, Read(t))
    ensures Pledge(Apply(s, Read(t)), t, player)
         == if ReadsDebt(s, t, player) then Max(Pledge(s, t, player), Net(s, player))
            else if InFlight(Apply(s, Read(t)).txns[t]) then Pledge(s, t, player) else 0
    ensures !InFlight(Apply(s, Read(t)).txns[t]) ==> Pledge(s, t, player) == 0
  {
    hide Total, SeatOf, SeatedAt, Flatten, LedgerOf, Pledged, ReadPosting, AfterRead, Exclusive, RequestsHeld, IdsFresh,
         LogFits, UpdatesFit;
    var x := s.txns[t];
    assert PhaseFits(x);
    if x.job.SettleAll? {
      EntryPledges(s, x, player);
    } else {
      SinglePledges(s, x, player);
    }
  }

  /** The next entry of a whole-table settlement. */
  lemma EntryPledges(s: State, x: Txn, player: Id)
    requires MayRead(x) && PhaseFits(x) && x.job.SettleAll?
    ensures var before := Pledged(InFlightPostings(x), player);
            var after := Pledged(InFlightPostings(x.(phase := AfterRead(s, x))), player);
            var p := ReadPosting(s, x);
      && (AfterRead(s, x).Collecting? || AfterRead(s, x).Ready?)
      && after == if p.Some? && p.value.basis.OwedRead? && p.value.player == player
                  then Max(before, Net(s, player)) else before
  {
    hide Total, Flatten, LedgerOf, DrawnIn, Pledged;
    var done, p := InFlightPostings(x), ReadPosting(s, x);
    if p.Some? {
      PledgedAppend(done, p.value, player);
      InFlightSane(x, p.value.player);
      PostingsNet(LedgerOf(s), done, p.value.player);
    }
  }

  /** The one read of any other call. */
  lemma SinglePledges(s: State, x: Txn, player: Id)
    requires MayRead(x) && !x.job.SettleAll?
    ensures var after := x.(phase := AfterRead(s, x));
            var p := ReadPosting(s, x);
      && Pledged(InFlightPostings(x), player) == 0
      && Pledged(InFlightPostings(after), player)
         == if p.Some? && p.value.basis.OwedRead? && p.value.player == player then Max(0, Net(s, player)) else 0
  {
    hide Total, SeatOf, SeatedAt, Flatten, LedgerOf;
    var p := ReadPosting(s, x);
    if p.Some? {
      assert [p.value][..0] == [];
    }
  }

  /** Any other step leaves a pledge as it is, or ends the transaction. */
  lemma PledgeStep(s: State, step: Step, t: nat, player: Id)
    requires Enabled(s, step) && step != Read(t)
    ensures t in Apply(s, step).txns && InFlight(Apply(s, step).txns[t]) ==>
      Pledge(Apply(s, step), t, player) == Pledge(s, t, player) && (t in s.txns ==> InFlight(s.txns[t]))
    ensures t in Apply(s, step).txns && !InFlight(Apply(s, step).txns[t]) ==> Pledge(Apply(s, step), t, player) == 0
    ensures t !in Apply(s, step).txns ==> Pledge(Apply(s, step), t, player) == 0
  {
    hide ReadPosting, AfterRead, Vacated;
    assert Pledged([], player) == 0;
  }

  // ---------------------------------------------------------------- the atomic calls

  /** The books the atomic calls would see in this state. */
  function BooksOf(s: State): Books {
    Books(LedgerOf(s), s.waitlist, [], [])
  }

  /** Two ledgers ending in a buy-out of the same chips are equal exactly if they were before it and the
      same debt was settled. */
  lemma LastBuyOut(a: seq<Row>, b: seq<Row>, player: Id, amount: int, owed: int, due: int, now: int)
    requires owed >= 0 && due >= 0
    ensures a + BuyOutRows(player, amount, owed, now) == b + BuyOutRows(player, amount, due, now)
      <==> a == b && owed == due
  {
    var mine, theirs := BuyOutRows(player, amount, owed, now), BuyOutRows(player, amount, due, now);
    var x, y := a + mine, b + theirs;
    assert x[|x| - 1] == mine[|mine| - 1] && y[|y| - 1] == theirs[|theirs| - 1];
    assert x[..|x| - |mine|] == a && y[..|y| - |theirs|] == b;
    assert x == y ==> (owed > 0 <==> due > 0);
  }

  predicate PostingsFor(list: seq<Settlement>, postings: seq<Posting>, now: int) {
    && |postings| == |list|
    && forall i :: 0 <= i < |list| ==>
         && postings[i].basis.OwedRead? && postings[i].basis.owed >= 0
         && postings[i] == Posting(None, list[i].player, list[i].amount, now, postings[i].basis)
  }

  /** What a settlement read for its i-th entry. */
  predicate StillDue(rows: seq<Row>, list: seq<Settlement>, postings: seq<Posting>, now: int, i: int)
    requires PostingsFor(list, postings, now)
  {
    0 <= i < |list| ==> postings[i].basis.owed == CreditSettled(rows, list, now, i)
  }

  predicate AllStillDue(rows: seq<Row>, list: seq<Settlement>, postings: seq<Posting>, now: int)
    requires PostingsFor(list, postings, now)
  {
    forall i :: 0 <= i < |list| ==> StillDue(rows, list, postings, now, i)
  }

  predicate SameLedger(rows: seq<Row>, list: seq<Settlement>, postings: seq<Posting>, now: int) {
    rows + Flatten(postings) == SettledRows(rows, list, now)
  }

  /** A whole-table settlement leaves the rows of the atomic call exactly if every debt it read is still
      the one the call would settle. */
  lemma {:induction false} SettledSame(rows: seq<Row>, list: seq<Settlement>, postings: seq<Posting>, now: int)
    requires PostingsFor(list, postings, now)
    ensures SameLedger(rows, list, postings, now) <==> AllStillDue(rows, list, postings, now)
    decreases |list|
  {
    if |list| == 0 {
      assert rows + Flatten(postings) == rows;
    } else {
      hide SameLedger, AllStillDue, StillDue;
      SettledSame(rows, list[..|list| - 1], postings[..|list| - 1], now);
      LastSettled(rows, list, postings, now);
      AllDueInit(rows, list, postings, now);
    }
  }

  lemma AllDueInit(rows: seq<Row>, list: seq<Settlement>, postings: seq<Posting>, now: int)
    requires PostingsFor(list, postings, now) && |list| > 0
    ensures var n := |list| - 1;
      AllStillDue(rows, list, postings, now)
      <==> AllStillDue(rows, list[..n], postings[..n], now) && StillDue(rows, list, postings, now, n)
  {
    hide StillDue;
    var n := |list| - 1;
    forall i | 0 <= i < n
      ensures StillDue(rows, list[..n], postings[..n], now, i) <==> StillDue(rows, list, postings, now, i)
    {
      StillDueInit(rows, list, postings, now, i);
    }
  }

  lemma StillDueInit(rows: seq<Row>, list: seq<Settlement>, postings: seq<Posting>, now: int, i: nat)
    requires PostingsFor(list, postings, now) && i < |list| - 1
    ensures StillDue(rows, list[..|list| - 1], postings[..|list| - 1], now, i)
      <==> StillDue(rows, list, postings, now, i)
  {
    assert list[..|list| - 1][..i] == list[..i];
  }

  lemma LastSettled(rows: seq<Row>, list: seq<Settlement>, postings: seq<Posting>, now: int)
    requires PostingsFor(list, postings, now) && |list| > 0
    ensures var n := |list| - 1;
      SameLedger(rows, list, postings, now)
      <==> SameLedger(rows, list[..n], postings[..n], now) && StillDue(rows, list, postings, now, n)
  {
    hide BuyOutRows, Total;
    var n := |list| - 1;
    var mine, theirs := rows + Flatten(postings[..n]), SettledRows(rows, list[..n], now);
    LastBuyOut(mine, theirs, list[n].player, list[n].amount, postings[n].basis.owed, Owed(theirs, list[n].player), now);
    assert rows + Flatten(postings) == mine + RowsOf(postings[n]);
  }

  lemma {:induction false} VacatedAll(waitlist: seq<Entry>, list: seq<Settlement>, postings: seq<Posting>, now: int)
    requires PostingsFor(list, postings, now)
    ensures Vacated(waitlist, postings, None) == CancelAll(waitlist, list)
    decreases |list|
  {
    if |list| > 0 {
      VacatedAll(waitlist, list[..|list| - 1], postings[..|list| - 1], now);
    }
  }

  lemma OnePosting(rows: seq<Row>, waitlist: seq<Entry>, p: Posting, table: Option<int>)
    ensures rows + Flatten([p]) == rows + RowsOf(p)
    ensures Vacated(waitlist, [p], table)
            == if p.basis.OwedRead? then CancelSeats(waitlist, p.player, table) else waitlist
  {
    assert [p][..0] == [];
    assert Flatten([p]) == [] + RowsOf(p);
  }

  lemma SameDraw(rows: seq<Row>, player: Id, a: int, b: int, now: int)
    requires a >= 0 && b >= 0
    ensures rows + CreditRows(player, a, now) == rows + CreditRows(player, b, now) <==> a == b
  {
    var mine, due := CreditRows(player, a, now), CreditRows(player, b, now);
    assert (rows + mine)[|rows|..] == mine && (rows + due)[|rows|..] == due;
    assert a > 0 ==> mine[0].amount == a;
    assert b > 0 ==> due[0].amount == b;
  }

  /** The commit of an approval or of the staff buy-out, whose single posting is p. */
  lemma SingleCommit(s: State, t: nat)
    requires Inv(s) && Enabled(s, Commit(t)) && |s.txns[t].phase.write.postings| == 1
    ensures var w := s.txns[t].phase.write;
            var p := w.postings[0];
            var waitlist := if p.basis.OwedRead? then CancelSeats(s.waitlist, p.player, w.vacated) else s.waitlist;
            BooksOf(Apply(s, Commit(t))) == Books(LedgerOf(s) + RowsOf(p), waitlist, [], [])
  {
    hide RowsOf, Vacated, Flatten, LedgerOf;
    var w := s.txns[t].phase.write;
    CommittedRows(s, t);
    assert w.postings == [w.postings[0]];
    OnePosting(LedgerOf(s), s.waitlist, w.postings[0], w.vacated);
  }

  /** When what the transaction read still calls for what it is about to post. */
  predicate StillCurrent(s: State, t: nat)
    requires t in s.txns && s.txns[t].phase.Ready? && PhaseFits(s.txns[t])
  {
    var x := s.txns[t];
    var ps := x.phase.write.postings;
    match x.job
    case ApproveBuyOut(_, _) => ps[0].basis == OwedRead(Owed(LedgerOf(s), x.seen.value.player))
    case StaffBuyOut(player, _, _) => ps[0].basis == OwedRead(Owed(LedgerOf(s), player))
    case SettleAll(list) => PostingsFor(list, ps, x.now) && AllStillDue(LedgerOf(s), list, ps, x.now)
    case ApproveCredit(_, limit) =>
      var r := x.seen.value;
      CreditDraw(ps[0].basis.seat, r.amount, GrantedLimit(limit, r.amount))
      == CreditDraw(SeatOf(s.waitlist, r.player), r.amount, GrantedLimit(limit, r.amount))
    case _ => true
  }

  /** The books after the atomic call of the store. */
  function AtomicCall(b: Books, x: Txn): Books
    requires x.seen.Some? || !Approves(x.job)
  {
    match x.job
    case ApproveBuyIn(_, dto) => AfterBuyIn(b, x.seen.value.player, EffectiveAmount(dto, x.seen.value.amount), x.now)
    case ApproveBuyOut(_, settled) => AfterBuyOut(b, x.seen.value.player, None, settled, x.now)
    case ApproveCredit(_, limit) =>
      AfterCredit(b, x.seen.value.player, x.seen.value.amount, GrantedLimit(limit, x.seen.value.amount), x.now)
    case StaffBuyOut(player, table, settled) => AfterStaffBuyOut(b, player, table, settled, x.now)
    case SettleAll(list) => AfterSettleAll(b, "", list, 0, x.now)
    case _ => b
  }

  /** A commit has the effect of the atomic call of the store on ledger and waitlist if and only if what
      the transaction read is still current; a buy-in, a refusal and a new request always have it. */
  lemma CommitIsAtomicCall(s: State, t: nat)
    requires Inv(s) && Enabled(s, Commit(t))
    ensures PhaseFits(s.txns[t]) && (s.txns[t].seen.Some? || !Approves(s.txns[t].job))
    ensures BooksOf(Apply(s, Commit(t))) == AtomicCall(BooksOf(s), s.txns[t]) <==> StillCurrent(s, t)
  {
    assert PhaseFits(s.txns[t]);
    hide AtomicCall, StillCurrent, BooksOf, Apply, Inv, Enabled, PhaseFits;
    match s.txns[t].job
    case ApproveBuyIn(_, _) => BuyInCommit(s, t);
    case ApproveBuyOut(_, _) => BuyOutCommit(s, t);
    case ApproveCredit(_, _) => CreditCommit(s, t);
    case StaffBuyOut(_, _, _) => StaffCommit(s, t);
    case SettleAll(_) => TableCommit(s, t);
    case _ => OtherCommit(s, t);
  }

  lemma BuyInCommit(s: State, t: nat)
    requires Inv(s) && Enabled(s, Commit(t)) && PhaseFits(s.txns[t]) && s.txns[t].job.ApproveBuyIn?
    ensures s.txns[t].seen.Some?
    ensures BooksOf(Apply(s, Commit(t))) == AtomicCall(BooksOf(s), s.txns[t]) <==> StillCurrent(s, t)
  {
    assert SeenFits(s, s.txns[t]);
    hide LedgerOf, Total, SeatOf, CancelSeats, CancelAll, SettledRows, BuyInRows, CreditRows, BuyOutRows, Flatten,
         Vacated, AllStillDue, Apply, Inv, FreeSeat, EmptyTable, NumberOf, CreditDraw, Owed;
    var x, rows, ps := s.txns[t], LedgerOf(s), s.txns[t].phase.write.postings;
    SingleCommit(s, t);
  }

  lemma BuyOutCommit(s: State, t: nat)
    requires Inv(s) && Enabled(s, Commit(t)) && PhaseFits(s.txns[t]) && s.txns[t].job.ApproveBuyOut?
    ensures s.txns[t].seen.Some?
    ensures BooksOf(Apply(s, Commit(t))) == AtomicCall(BooksOf(s), s.txns[t]) <==> StillCurrent(s, t)
  {
    assert SeenFits(s, s.txns[t]);
    hide LedgerOf, Total, SeatOf, CancelSeats, CancelAll, SettledRows, BuyInRows, CreditRows, BuyOutRows, Flatten,
         Vacated, AllStillDue, Apply, Inv, FreeSeat, EmptyTable, NumberOf, CreditDraw, Owed;
    var x, rows, ps := s.txns[t], LedgerOf(s), s.txns[t].phase.write.postings;
    SingleCommit(s, t);
    LastBuyOut(rows, rows, x.seen.value.player, x.job.settled, ps[0].basis.owed, Owed(rows, x.seen.value.player),
               x.now);
  }

  lemma CreditCommit(s: State, t: nat)
    requires Inv(s) && Enabled(s, Commit(t)) && PhaseFits(s.txns[t]) && s.txns[t].job.ApproveCredit?
    ensures s.txns[t].seen.Some?
    ensures BooksOf(Apply(s, Commit(t))) == AtomicCall(BooksOf(s), s.txns[t]) <==> StillCurrent(s, t)
  {
    assert SeenFits(s, s.txns[t]);
    hide LedgerOf, Total, SeatOf, CancelSeats, CancelAll, SettledRows, BuyInRows, CreditRows, BuyOutRows, Flatten,
         Vacated, AllStillDue, Apply, Inv, FreeSeat, EmptyTable, NumberOf, CreditDraw, Owed;
    var x, rows, ps := s.txns[t], LedgerOf(s), s.txns[t].phase.write.postings;
    var r, l := x.seen.value, GrantedLimit(x.job.newLimit, x.seen.value.amount);
    SingleCommit(s, t);
    DrawNonNegative(ps[0].basis.seat, r.amount, l);
    DrawNonNegative(SeatOf(s.waitlist, r.player), r.amount, l);
    SameDraw(rows, r.player, CreditDraw(ps[0].basis.seat, r.amount, l),
             CreditDraw(SeatOf(s.waitlist, r.player), r.amount, l), x.now);
  }

  lemma StaffCommit(s: State, t: nat)
    requires Inv(s) && Enabled(s, Commit(t)) && PhaseFits(s.txns[t]) && s.txns[t].job.StaffBuyOut?
    ensures !Approves(s.txns[t].job)
    ensures BooksOf(Apply(s, Commit(t))) == AtomicCall(BooksOf(s), s.txns[t]) <==> StillCurrent(s, t)
  {
    assert SeenFits(s, s.txns[t]);
    hide LedgerOf, Total, SeatOf, CancelSeats, CancelAll, SettledRows, BuyInRows, CreditRows, BuyOutRows, Flatten,
         Vacated, AllStillDue, Apply, Inv, FreeSeat, EmptyTable, NumberOf, CreditDraw, Owed;
    var x, rows, ps := s.txns[t], LedgerOf(s), s.txns[t].phase.write.postings;
    SingleCommit(s, t);
    LastBuyOut(rows, rows, x.job.player, Max(0, x.job.settled), ps[0].basis.owed, Owed(rows, x.job.player), x.now);
  }

  lemma TableCommit(s: State, t: nat)
    requires Inv(s) && Enabled(s, Commit(t)) && PhaseFits(s.txns[t]) && s.txns[t].job.SettleAll?
    ensures !Approves(s.txns[t].job)
    ensures BooksOf(Apply(s, Commit(t))) == AtomicCall(BooksOf(s), s.txns[t]) <==> StillCurrent(s, t)
  {
    assert SeenFits(s, s.txns[t]);
    hide LedgerOf, Total, SeatOf, CancelSeats, CancelAll, SettledRows, BuyInRows, CreditRows, BuyOutRows, Flatten,
         Vacated, AllStillDue, Apply, Inv, FreeSeat, EmptyTable, NumberOf, CreditDraw, Owed;
    var x, rows, ps := s.txns[t], LedgerOf(s), s.txns[t].phase.write.postings;
    SettledSame(rows, x.job.list, ps, x.now);
    VacatedAll(s.waitlist, x.job.list, ps, x.now);
    SettleAllCommit(s, t);
  }

  lemma OtherCommit(s: State, t: nat)
    requires Inv(s) && Enabled(s, Commit(t)) && PhaseFits(s.txns[t])
      && (s.txns[t].job.Refuse? || s.txns[t].job.CreateCredit?)
    ensures BooksOf(Apply(s, Commit(t))) == AtomicCall(BooksOf(s), s.txns[t]) && StillCurrent(s, t)
  {
    hide LedgerOf, Apply, Inv;
    NoPostingCommit(s, t);
  }

  lemma DrawNonNegative(seat: Option<Entry>, amount: int, limit: int)
    ensures CreditDraw(seat, amount, limit) >= 0
  {
  }

  lemma SettleAllCommit(s: State, t: nat)
    requires Inv(s) && Enabled(s, Commit(t)) && s.txns[t].job.SettleAll?
    ensures var w := s.txns[t].phase.write;
      BooksOf(Apply(s, Commit(t)))
      == Books(LedgerOf(s) + Flatten(w.postings), Vacated(s.waitlist, w.postings, None), [], [])
  {
    hide Vacated, Flatten, LedgerOf;
    assert PhaseFits(s.txns[t]);
    CommittedRows(s, t);
  }

  lemma NoPostingCommit(s: State, t: nat)
    requires Inv(s) && Enabled(s, Commit(t)) && (s.txns[t].job.Refuse? || s.txns[t].job.CreateCredit?)
    ensures BooksOf(Apply(s, Commit(t))) == BooksOf(s)
  {
    assert PhaseFits(s.txns[t]);
    CommittedRows(s, t);
    assert LedgerOf(s) + [] == LedgerOf(s);
  }

  // ---------------------------------------------------------------- when settlements are safe

  ghost predicate Solvent(s: State) {
    && (forall player :: Net(s, player) >= 0)
    && (forall t: nat, player :: Pledge(s, t, player) <= Net(s, player))
  }

  lemma SolventStep(s: State, step: Step)
    requires Inv(s) && Enabled(s, step) && Solvent(s) && OneSettlement(s) && NoOtherDebits(step)
    ensures Solvent(Apply(s, step))
  {
    hide Net, Inv, Apply, Pledge, Enabled;
    var s' := Apply(s, step);
    forall player
      ensures Net(s', player) >= 0
    {
      SolventNet(s, step, player);
    }
    forall t: nat, player
      ensures Pledge(s', t, player) <= Net(s', player)
    {
      SolventPledge(s, step, t, player);
    }
  }

  lemma SolventNet(s: State, step: Step, player: Id)
    requires Inv(s) && Enabled(s, step) && Solvent(s) && OneSettlement(s) && NoOtherDebits(step)
    ensures Net(Apply(s, step), player) >= 0
    ensures !step.Commit? ==> Net(Apply(s, step), player) >= Net(s, player)
  {
    hide Inv, Apply, Enabled, Pledge, Net;
    NetStep(s, step, player);
    if step.Commit? {
      assert Pledge(s, step.t, player) <= Net(s, player);
    }
  }

  lemma SolventPledge(s: State, step: Step, t: nat, player: Id)
    requires Inv(s) && Enabled(s, step) && Solvent(s) && OneSettlement(s) && NoOtherDebits(step)
    ensures Pledge(Apply(s, step), t, player) <= Net(Apply(s, step), player)
  {
    SolventNet(s, step, player);
    PledgeNonNegative(s, t, player);
    assert Pledge(s, t, player) <= Net(s, player);
    if step == Read(t) {
      ReadPledges(s, t, player);
    } else {
      PledgeStep(s, step, t, player);
      if step.Commit? {
        NetStep(s, step, player);
        PledgeNonNegative(s, step.t, player);
        assert step.t != t ==> Pledge(s, step.t, player) == 0 || Pledge(s, t, player) == 0;
      }
    }
  }

  /** As long as no two transactions in flight have both read a positive debt of one player, no
      interleaving of the three settlement paths with everything else takes a credit net below zero,
      and every settlement in flight still finds at least what it read. */
  lemma {:induction false} ExclusiveSettlementsStaySolvent(states: seq<State>, steps: seq<Step>, n: nat)
    requires Behavior(states, steps) && Init(states[0]) && n < |states|
    requires forall player :: Net(states[0], player) >= 0
    requires forall i :: 0 <= i < n ==> OneSettlement(states[i]) && NoOtherDebits(steps[i])
    ensures Solvent(states[n])
  {
    if n == 0 {
      assert states[0].txns == map[];
    } else {
      ExclusiveSettlementsStaySolvent(states, steps, n - 1);
      InvAlways(states, steps, n - 1);
      SolventStep(states[n - 1], steps[n - 1]);
    }
  }

  // ---------------------------------------------------------------- when they are not

  /** From step a to step b transaction t reads nothing more of what the player owes. */
  ghost predicate ReadsNoMore(states: seq<State>, steps: seq<Step>, t: nat, player: Id, a: nat, b: nat)
    requires Behavior(states, steps) && b < |states|
  {
    forall i :: a <= i < b ==> !(steps[i] == Read(t) && ReadsDebt(states[i], t, player))
  }

  /** While a transaction is in flight and reads no more of a player's debt, its pledge stands. */
  lemma {:induction false} PledgeKept(states: seq<State>, steps: seq<Step>, a: nat, b: nat, t: nat, player: Id)
    requires Behavior(states, steps) && Init(states[0]) && a <= b < |states|
    requires t in states[a].txns && ReadsNoMore(states, steps, t, player, a, b)
    ensures t in states[b].txns
    ensures InFlight(states[b].txns[t]) ==>
      InFlight(states[a].txns[t]) && Pledge(states[b], t, player) == Pledge(states[a], t, player)
    decreases b
  {
    hide Pledge, Apply, Enabled, ReadsDebt, SameTxn;
    if a < b {
      PledgeKept(states, steps, a, b - 1, t, player);
      InvAlways(states, steps, b - 1);
      if steps[b - 1] == Read(t) {
        ReadPledges(states[b - 1], t, player);
      } else {
        PledgeStep(states[b - 1], steps[b - 1], t, player);
      }
      TxnStays(states[b - 1], steps[b - 1], t);
    }
  }

  lemma TxnStays(s: State, step: Step, t: nat)
    requires Enabled(s, step) && t in s.txns
    ensures t in Apply(s, step).txns && (InFlight(Apply(s, step).txns[t]) ==> InFlight(s.txns[t]))
    ensures SameTxn(Apply(s, step).txns[t], s.txns[t])
  {
    hide ReadPosting, AfterRead, Vacated;
  }

  /** The three calls that settle a player's debt. */
  predicate SettlementJob(job: Job) {
    job.ApproveBuyOut? || job.StaffBuyOut? || job.SettleAll?
  }

  lemma SettlementDrawsNothing(s: State, t: nat, player: Id)
    requires Inv(s) && t in s.txns && s.txns[t].phase.Ready? && SettlementJob(s.txns[t].job)
    ensures DrawnIn(s.txns[t].phase.write.postings, player) == 0
  {
    assert PhaseFits(s.txns[t]) && SeenFits(s, s.txns[t]);
    NothingDrawn(s.txns[t].phase.write.postings, player);
  }

  lemma {:induction false} JobKept(states: seq<State>, steps: seq<Step>, a: nat, b: nat, t: nat)
    requires Behavior(states, steps) && a <= b < |states| && t in states[a].txns
    ensures t in states[b].txns && SameTxn(states[b].txns[t], states[a].txns[t])
    decreases b
  {
    hide Apply, Enabled;
    if a < b {
      JobKept(states, steps, a, b - 1, t);
      TxnStays(states[b - 1], steps[b - 1], t);
    }
  }

  /** What both transactions will debit, once u has read the player's debt after t. */
  lemma BothPledged(states: seq<State>, steps: seq<Step>, n: nat, m: nat, t: nat, u: nat, player: Id)
    requires Behavior(states, steps) && Init(states[0]) && n < m < |states|
    requires t != u && t in states[n].txns
    requires steps[n] == Read(u) && ReadsDebt(states[n], u, player)
      && Pledge(states[n], u, player) <= Net(states[n], player)
    requires ReadsNoMore(states, steps, t, player, n, m) && ReadsNoMore(states, steps, u, player, n + 1, m)
    requires Enabled(states[m], Commit(t)) && Enabled(states[m], Commit(u))
    ensures Pledge(states[m], t, player) == Pledge(states[n], t, player)
    ensures Pledge(states[m], u, player) == Net(states[n], player)
    ensures SettlementJob(states[m].txns[u].job)
  {
    InvAlways(states, steps, n);
    ReadPledges(states[n], u, player);
    TxnStays(states[n], steps[n], u);
    PledgeKept(states, steps, n, m, t, player);
    PledgeKept(states, steps, n + 1, m, u, player);
    JobKept(states, steps, n, m, u);
  }

  /** Two settlements about to commit, in any reachable state: the credit net ends at what it was less
      everything both have read. */
  lemma OverlappingSettlements(states: seq<State>, steps: seq<Step>, n: nat, t: nat, u: nat, player: Id)
    requires Behavior(states, steps) && Init(states[0]) && n < |states| && t != u
    requires Enabled(states[n], Commit(t)) && Enabled(states[n], Commit(u))
    requires SettlementJob(states[n].txns[t].job) && SettlementJob(states[n].txns[u].job)
    ensures var s := states[n];
            var after := Apply(Apply(s, Commit(t)), Commit(u));
            && Net(after, player) == Net(s, player) - Pledge(s, t, player) - Pledge(s, u, player)
            && (Net(after, player) >= 0 <==> Pledge(s, t, player) + Pledge(s, u, player) <= Net(s, player))
  {
    hide Net, Pledge, DrawnIn;
    var s := states[n];
    InvAlways(states, steps, n);
    SettlementDrawsNothing(s, t, player);
    SettlementDrawsNothing(s, u, player);
    NetStep(s, Commit(t), player);
    InvStep(s, Commit(t));
    PledgeStep(s, Commit(t), u, player);
    NetStep(Apply(s, Commit(t)), Commit(u), player);
  }

  /** When an overlap hurts. At step n a settlement u reads what the player owes while another, t, has
      already read a debt of a and not committed; later both commit. Then the credit net ends at what it had
      risen by between u's read and the two commits, everybody's draws and debits counted, less a: it stays
      non-negative exactly if it rose by at least a, and if it did not move exactly if t had found no debt. */
  lemma StaleRead(states: seq<State>, steps: seq<Step>, n: nat, m: nat, t: nat, u: nat, player: Id)
    requires Behavior(states, steps) && Init(states[0]) && n < m < |states|
    requires t != u && t in states[n].txns && SettlementJob(states[n].txns[t].job)
    requires steps[n] == Read(u) && ReadsDebt(states[n], u, player)
      && Pledge(states[n], u, player) <= Net(states[n], player)
    requires ReadsNoMore(states, steps, t, player, n, m) && ReadsNoMore(states, steps, u, player, n + 1, m)
    requires Enabled(states[m], Commit(t)) && Enabled(states[m], Commit(u))
    ensures var a, risen := Pledge(states[n], t, player), Net(states[m], player) - Net(states[n], player);
            var after := Apply(Apply(states[m], Commit(t)), Commit(u));
            && Net(after, player) == risen - a
            && (Net(after, player) >= 0 <==> a <= risen)
            && (risen == 0 ==> (Net(after, player) >= 0 <==> a == 0))
  {
    hide ReadsNoMore, ReadsDebt, Net, Pledge;
    BothPledged(states, steps, n, m, t, u, player);
    JobKept(states, steps, n, m, t);
    InvAlways(states, steps, n);
    PledgeNonNegative(states[n], t, player);
    OverlappingSettlements(states, steps, m, t, u, player);
  }

  // ---------------------------------------------------------------- a run that overdraws

  /** The rows a player has after drawing 100 on the line. */
  function Drawn100(): seq<Row> {
    CreditRows("p", 100, 0)
  }

  const BUY_OUT := Request(BuyOutKind, "p", 0, 0, true, Pending)

  const SEAT := Entry("p", Seated, Some(1), Some(0))

  function RaceState(txns: map<nat, Txn>): State {
    State(map["a" := BUY_OUT], {"a"}, Drawn100(), [], [SEAT], map[], txns, map[])
  }

  function Approval(phase: Phase): Txn {
    Txn(ApproveBuyOut("a", 0), 1, if phase == Started then None else Some(BUY_OUT), phase)
  }

  function AtTheTable(phase: Phase): Txn {
    Txn(StaffBuyOut("p", 1, 0), 1, None, phase)
  }

  const APPROVED := Ready(Write(Some(("a", BUY_OUT.(status := Approved))),
                                [Posting(Some("a"), "p", 0, 1, OwedRead(100))], None))

  const SETTLED := Ready(Write(None, [Posting(None, "p", 0, 1, OwedRead(100))], Some(1)))

  function RaceStep(k: nat): Step {
    if k == 0 then OtherRows(Drawn100())
    else if k == 1 then MoveSeats([SEAT])
    else if k == 2 then NewRequest("a", BUY_OUT)
    else if k == 3 then Begin(1, ApproveBuyOut("a", 0), 1)
    else if k == 4 then Begin(2, StaffBuyOut("p", 1, 0), 1)
    else if k == 5 then LockRequest(1)
    else if k == 6 then Read(1)
    else Read(2)
  }

  function RaceAt(k: nat): State {
    if k == 0 then State(map[], {}, [], [], [], map[], map[], map[])
    else if k == 1 then State(map[], {}, Drawn100(), [], [], map[], map[], map[])
    else if k == 2 then State(map[], {}, Drawn100(), [], [SEAT], map[], map[], map[])
    else if k == 3 then RaceState(map[])
    else if k == 4 then RaceState(map[1 := Approval(Started)])
    else if k == 5 then RaceState(map[1 := Approval(Started), 2 := AtTheTable(Started)])
    else if k == 6 then RaceState(map[1 := Approval(HoldsRequest), 2 := AtTheTable(Started)])
    else if k == 7 then RaceState(map[1 := Approval(APPROVED), 2 := AtTheTable(Started)])
    else RaceState(map[1 := Approval(APPROVED), 2 := AtTheTable(SETTLED)])
  }

  lemma RaceOwed(txns: map<nat, Txn>)
    ensures Owed(LedgerOf(RaceState(txns)), "p") == 100 == Net(RaceState(txns), "p")
  {
    CreditEffect(CreditNet, [], "p", 100, 0, "p");
    assert LedgerOf(RaceState(txns)) == [] + Drawn100();
  }

  ghost predicate Moves(k: nat) {
    Enabled(RaceAt(k), RaceStep(k)) && RaceAt(k + 1) == Apply(RaceAt(k), RaceStep(k))
  }

  lemma RaceSetUp()
    ensures Moves(0) && Moves(1) && Moves(2)
  {
    assert [] + Drawn100() == Drawn100();
  }

  lemma RaceBegins()
    ensures Moves(3) && Moves(4)
  {
  }

  lemma RaceLocks()
    ensures Moves(5)
  {
    hide Drawn100, Total;
  }

  lemma FirstReads()
    ensures Moves(6)
  {
    RaceOwed(RaceAt(6).txns);
  }

  lemma SecondReads()
    ensures Moves(7)
  {
    RaceOwed(RaceAt(7).txns);
    assert Vacates(RaceAt(7).waitlist[0], "p", Some(1));
  }

  /** The overlap does happen: a player who owes 100 has one pending buy-out request; staff approve it
      and buy the player out at the table at the same time. Both debit the full 100 and the credit net
      ends at -100. */
  lemma OverlapOverdraws() returns (states: seq<State>, steps: seq<Step>)
    ensures Behavior(states, steps) && Init(states[0]) && |states| == 9
    ensures Enabled(states[8], Commit(1)) && Enabled(states[8], Commit(2))
    ensures Net(states[8], "p") == 100
    ensures Net(Apply(Apply(states[8], Commit(1)), Commit(2)), "p") == -100
  {
    hide Enabled, Apply, LedgerOf, Net, Drawn100, Pledge, ReadsDebt;
    states, steps := RaceRuns();
    RacePledges();
    RaceOwed(RaceAt(7).txns);
    RaceOwed(RaceAt(8).txns);
    StaleRead(states, steps, 7, 8, 1, 2, "p");
  }

  lemma RaceRuns() returns (states: seq<State>, steps: seq<Step>)
    ensures Behavior(states, steps) && |states| == 9
    ensures states[0] == RaceAt(0) && states[7] == RaceAt(7) && states[8] == RaceAt(8) && steps[7] == RaceStep(7)
  {
    hide Enabled, Apply, RaceAt, RaceStep;
    states := seq(9, (k: nat) => RaceAt(k));
    steps := seq(8, (k: nat) => RaceStep(k));
    RaceSetUp();
    RaceBegins();
    RaceLocks();
    FirstReads();
    SecondReads();
    forall k: nat | k < 8
      ensures Enabled(states[k], steps[k]) && states[k + 1] == Apply(states[k], steps[k])
    {
      assert Moves(k);
    }
  }

  /** Just before the second read the first transaction is committed to debiting 100. */
  lemma RacePledges()
    ensures Pledge(RaceAt(7), 1, "p") == 100 && Pledge(RaceAt(7), 2, "p") == 0 && ReadsDebt(RaceAt(7), 2, "p")
    ensures Enabled(RaceAt(8), Commit(1)) && Enabled(RaceAt(8), Commit(2))
  {
    var ps := [Posting(Some("a"), "p", 0, 1, OwedRead(100))];
    assert ps[..0] == [];
    assert Vacates(RaceAt(7).waitlist[0], "p", Some(1));
  }
}
