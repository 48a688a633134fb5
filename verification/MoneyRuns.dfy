/** Whole runs of committed money operations: what every run keeps, and what a whole sitting at a
    table conserves. */
module MoneyRuns {
  import opened Basics
  import opened Ledger
  import opened Postings
  import opened ClubStore

  datatype Op =
    | BuyInApproved(player: Id, amount: int, now: int)
    | CreditApproved(player: Id, amount: int, limit: int, now: int)
    | BuyOutApproved(player: Id, table: Option<int>, amount: int, now: int)
    | TableSettled(tableId: Id, list: seq<Settlement>, rake: int, now: int)
    | StaffBoughtOut(player: Id, tableNumber: int, amount: int, now: int)
    | TournamentJoined(player: Id, entryFee: int, buyIn: int, limit: int, enabled: bool, now: int)
    | TournamentLeft(player: Id, buyIn: int, now: int)

  /** Balance and available credit as registerForTournament reads them from the balance view. */
  predicate Affordable(b: Books, player: Id, entryFee: int, buyIn: int, limit: int, enabled: bool) {
    var wallet := Total(WalletLoop, b.rows, player);
    var net := if enabled then Total(CreditNet, b.rows, player) else 0;
    MayJoin(entryFee, buyIn, wallet, Breakdown(limit, net, wallet, enabled).available)
  }

  /** The checks each call makes before it writes; a call that fails them changes nothing. */
  predicate Accepted(b: Books, op: Op) {
    match op
    case BuyInApproved(_, amount, _) => amount > 0
    case CreditApproved(_, _, _, _) => true
    case BuyOutApproved(_, _, amount, _) => amount >= 0
    case TableSettled(_, _, _, _) => true
    case StaffBoughtOut(p, table, _, _) => p != "" && table >= 1 && SeatedAt(b.waitlist, p, table)
    case TournamentJoined(p, fee, buyIn, limit, enabled, _) => Affordable(b, p, fee, buyIn, limit, enabled)
    case TournamentLeft(_, _, _) => true
  }

  function Apply(b: Books, op: Op): Books {
    if !Accepted(b, op) then b
    else match op
      case BuyInApproved(p, amount, now) => AfterBuyIn(b, p, amount, now)
      case CreditApproved(p, amount, limit, now) => AfterCredit(b, p, amount, limit, now)
      case BuyOutApproved(p, table, amount, now) => AfterBuyOut(b, p, table, amount, now)
      case TableSettled(id, list, rake, now) => AfterSettleAll(b, id, list, rake, now)
      case StaffBoughtOut(p, table, amount, now) => AfterStaffBuyOut(b, p, table, amount, now)
      case TournamentJoined(p, fee, buyIn, _, _, now) =>
        b.(rows := b.rows + JoinRows(p, fee, buyIn, Total(WalletLoop, b.rows, p), now))
      case TournamentLeft(p, buyIn, now) => b.(rows := b.rows + LeaveRows(p, buyIn, now))
  }

  function Play(b: Books, ops: seq<Op>): Books
    decreases |ops|
  {
    if |ops| == 0 then b else Apply(Play(b, ops[..|ops| - 1]), ops[|ops| - 1])
  }

  // ---------------------------------------------------------------- credit net over every run

  predicate Settles(op: Op, player: Id) {
    match op
    case BuyOutApproved(p, _, _, _) => p == player
    case TableSettled(_, list, _, _) => Listed(list, player)
    case StaffBoughtOut(p, _, _, _) => p == player
    case _ => false
  }

  /** The draw of an accepted registration is never negative, whatever the signs of the prices. */
  lemma JoinNeverLowersCredit(rows: seq<Row>, p: Id, entryFee: int, buyIn: int, wallet: int, now: int, player: Id)
    ensures Total(CreditNet, rows + JoinRows(p, entryFee, buyIn, wallet, now), player) >= Total(CreditNet, rows, player)
  {
    JoinShare(CreditNet, rows, p, entryFee, buyIn, wallet, now, player);
  }

  /** One call never takes a non-negative credit net below zero; an accepted settlement of the
      player brings it to exactly zero; and no other call lowers it. */
  lemma CreditNetStep(b: Books, op: Op, player: Id)
    ensures var before, after := Total(CreditNet, b.rows, player), Total(CreditNet, Apply(b, op).rows, player);
            if Accepted(b, op) && Settles(op, player) then after == Min(before, 0) else after >= before
  {
    if Accepted(b, op) {
      match op
      case BuyInApproved(p, amount, now) => BuyInEffect(CreditNet, b.rows, p, amount, now, player);
      case CreditApproved(p, amount, limit, now) =>
        CreditEffect(CreditNet, b.rows, p, CreditDraw(SeatOf(b.waitlist, p), amount, limit), now, player);
      case BuyOutApproved(p, table, amount, now) =>
        BuyOutEffect(CreditNet, b.rows, p, amount, Owed(b.rows, p), now, player);
      case TableSettled(id, list, rake, now) => SettledFolds(b.rows, list, now, player);
      case StaffBoughtOut(p, table, amount, now) =>
        BuyOutEffect(CreditNet, b.rows, p, Max(0, amount), Owed(b.rows, p), now, player);
      case TournamentJoined(p, fee, buyIn, limit, enabled, now) =>
        JoinNeverLowersCredit(b.rows, p, fee, buyIn, Total(WalletLoop, b.rows, p), now, player);
      case TournamentLeft(p, buyIn, now) => LeaveEffect(CreditNet, b.rows, p, buyIn, now, player);
    }
  }

  /** Over every run of the writers, credit net stays non-negative once it is. */
  lemma {:induction false} CreditNetNeverNegative(b: Books, ops: seq<Op>, player: Id)
    requires Total(CreditNet, b.rows, player) >= 0
    ensures Total(CreditNet, Play(b, ops).rows, player) >= 0
    decreases |ops|
  {
    if |ops| > 0 {
      CreditNetNeverNegative(b, ops[..|ops| - 1], player);
      CreditNetStep(Play(b, ops[..|ops| - 1]), ops[|ops| - 1], player);
    }
  }

  /** From an empty ledger: after every run each player's credit net is non-negative, and an accepted
      settlement as the last call leaves it at exactly zero, by any of the three settlement paths. */
  lemma RunsFromEmptyLedger(b: Books, ops: seq<Op>, last: Op, player: Id)
    requires b.rows == []
    ensures Total(CreditNet, Play(b, ops).rows, player) >= 0
    ensures Accepted(Play(b, ops), last) && Settles(last, player)
        ==> Total(CreditNet, Play(b, ops + [last]).rows, player) == 0
  {
    CreditNetNeverNegative(b, ops, player);
    assert (ops + [last])[..|ops|] == ops;
    CreditNetStep(Play(b, ops), last, player);
  }

  // ---------------------------------------------------------------- settling a whole table

  lemma {:induction false} CancelAllExactly(waitlist: seq<Entry>, list: seq<Settlement>)
    ensures var w := CancelAll(waitlist, list);
            && |w| == |waitlist|
            && forall i :: 0 <= i < |w| ==>
                 w[i] == if waitlist[i].status == Seated && Listed(list, waitlist[i].player)
                         then CancelEntry(waitlist[i]) else waitlist[i]
    decreases |list|
  {
    if |list| > 0 {
      var init := list[..|list| - 1];
      CancelAllExactly(waitlist, init);
      forall i | 0 <= i < |waitlist|
        ensures CancelAll(waitlist, list)[i]
             == if waitlist[i].status == Seated && Listed(list, waitlist[i].player)
                then CancelEntry(waitlist[i]) else waitlist[i]
      {
        ListedInit(list, waitlist[i].player);
      }
    } else {
      assert forall p :: !Listed(list, p);
    }
  }

  /** A committed whole-table settlement, player by player: listed players end with credit net
      min(old, 0), their returned chips less the old debt in the wallet, and no SEATED row; nobody
      else's folds or waitlist rows move. The settled table is left without seats taken and no other table
      changes; a positive rake is recorded, with that table's number, if the table is there and has one. */
  lemma SettleAllLaw(b: Books, tableId: Id, list: seq<Settlement>, rake: int, now: int, player: Id, m: Measure)
    ensures var b' := AfterSettleAll(b, tableId, list, rake, now);
            var net := Total(CreditNet, b.rows, player);
            if Listed(list, player) then
              && Total(CreditNet, b'.rows, player) == Min(net, 0)
              && Total(WalletSql, b'.rows, player) == Total(WalletSql, b.rows, player)
                 + AmountFor(list, player) - Max(0, net)
              && SeatOf(b'.waitlist, player).None?
            else
              && Total(m, b'.rows, player) == Total(m, b.rows, player)
              && |b'.waitlist| == |b.waitlist|
              && forall i :: 0 <= i < |b.waitlist| && b.waitlist[i].player == player ==> b'.waitlist[i] == b.waitlist[i]
    ensures var b' := AfterSettleAll(b, tableId, list, rake, now);
            && |b'.tables| == |b.tables|
            && (forall i :: 0 <= i < |b.tables| ==>
                  b'.tables[i] == if b.tables[i].id == tableId then b.tables[i].(seats := 0) else b.tables[i])
            && (forall i :: IsFirst(b.tables, tableId, i) && b.tables[i].number != 0 && rake > 0 ==>
                  b'.rakes == b.rakes + [RakeRecord(b.tables[i].number, rake)])
            && (rake <= 0 || (forall i :: IsFirst(b.tables, tableId, i) ==> b.tables[i].number == 0) ==>
                  b'.rakes == b.rakes)
  {
    SettledFolds(b.rows, list, now, player);
    CancelAllExactly(b.waitlist, list);
    if !Listed(list, player) {
      SettledUnlisted(m, b.rows, list, now, player);
    }
  }

  /** Only the seat counts of the tables with that number change, each by one down to 0. */
  ghost predicate OneSeatFreed(tables: seq<Table>, tables': seq<Table>, number: int) {
    && |tables'| == |tables|
    && forall i :: 0 <= i < |tables| ==>
         tables'[i] == if tables[i].number == number && tables[i].seats != 0
                       then tables[i].(seats := Max(0, tables[i].seats - 1)) else tables[i]
  }

  /** The row is a SEATED one of the player, at that table if one is named. */
  predicate SeatRow(e: Entry, player: Id, table: Option<int>) {
    e.player == player && e.status == Seated && (table == None || e.table == table)
  }

  /** The waitlist is as it was, but for these seats: the rows are cancelled and lose table and seat time. */
  ghost predicate OnlyUnseated(w: seq<Entry>, w': seq<Entry>, player: Id, table: Option<int>) {
    && |w'| == |w|
    && forall i :: 0 <= i < |w| ==>
         w'[i] == if SeatRow(w[i], player, table) then Entry(player, WaitCancelled, None, None) else w[i]
  }

  /** An approved buy-out leaves the player without a seat anywhere, and frees one at the table the request
      names, if it names one; it records no rake. */
  lemma BuyOutFreesSeats(b: Books, player: Id, table: Option<int>, amount: int, now: int)
    ensures var b' := Apply(b, BuyOutApproved(player, table, amount, now));
            && b'.rakes == b.rakes && (amount < 0 ==> b' == b)
            && (amount >= 0 ==> OnlyUnseated(b.waitlist, b'.waitlist, player, None))
            && (amount >= 0 && table !in {None, Some(0)} ==> OneSeatFreed(b.tables, b'.tables, table.value))
            && (table in {None, Some(0)} ==> b'.tables == b.tables)
  {
    hide BuyOutRows, Owed, CancelSeats, FreeSeat;
    CancelSeatsAre(b.waitlist, player, None);
    if table.Some? {
      FreeSeatIs(b.tables, table.value);
    }
  }

  /** A staff buy-out needs a seat of the player at that table; it cancels the seats there and no others, and
      frees one at the table. */
  lemma StaffBuyOutFreesSeat(b: Books, player: Id, number: int, amount: int, now: int)
    ensures var b' := Apply(b, StaffBoughtOut(player, number, amount, now));
            && b'.rakes == b.rakes
            && if player != "" && number >= 1 && exists e :: e in b.waitlist && SeatRow(e, player, Some(number)) then
                 && OnlyUnseated(b.waitlist, b'.waitlist, player, Some(number))
                 && OneSeatFreed(b.tables, b'.tables, number)
               else b' == b
  {
    hide BuyOutRows, Owed, CancelSeats, FreeSeat;
    if SeatedAt(b.waitlist, player, number) {
      var i :| 0 <= i < |b.waitlist| && Vacates(b.waitlist[i], player, Some(number));
      assert SeatRow(b.waitlist[i], player, Some(number));
    }
    CancelSeatsAre(b.waitlist, player, Some(number));
    FreeSeatIs(b.tables, number);
  }

  lemma CancelSeatsAre(waitlist: seq<Entry>, player: Id, table: Option<int>)
    ensures OnlyUnseated(waitlist, CancelSeats(waitlist, player, table), player, table)
  {
  }

  lemma FreeSeatIs(tables: seq<Table>, number: int)
    ensures OneSeatFreed(tables, FreeSeat(tables, number), number)
  {
  }

  /** A buy-in of a positive amount puts just that much on the player's table; any other changes nothing. */
  lemma BuyInMovesChips(b: Books, player: Id, amount: int, now: int, since: int)
    ensures var b' := Apply(b, BuyInApproved(player, amount, now));
            && b' == b.(rows := b'.rows) && (amount <= 0 ==> b' == b)
            && (now >= since ==> Total(SessionChips(since), b'.rows, player)
                                 == Total(SessionChips(since), b.rows, player) + Max(0, amount))
            && Total(WalletSql, b'.rows, player) == Total(WalletSql, b.rows, player)
  {
    BuyInEffect(SessionChips(since), b.rows, player, amount, now, player);
    BuyInEffect(WalletSql, b.rows, player, amount, now, player);
  }

  // ---------------------------------------------------------------- a whole sitting

  predicate Touches(op: Op, player: Id) {
    Settles(op, player)
    || match op
       case BuyInApproved(p, _, _) => p == player
       case CreditApproved(p, _, _, _) => p == player
       case TournamentJoined(p, _, _, _, _, _) => p == player
       case TournamentLeft(p, _, _) => p == player
       case _ => false
  }

  /** What may happen to a seated player between sitting down and buying out: buy-ins and credit
      approved, tournaments joined and left, after the player sat down. Other players may do anything. */
  predicate SittingOp(op: Op, player: Id, since: int) {
    Touches(op, player) ==>
      match op
      case BuyInApproved(_, _, now) => now >= since
      case CreditApproved(_, _, _, now) => now >= since
      case TournamentJoined(_, fee, buyIn, _, _, now) => now >= since && fee >= 0 && buyIn >= 0
      case TournamentLeft(_, _, _) => true
      case _ => false
  }

  /** What a player bought in, drew by approved credit, and moved in and out of tournaments: fees and
      stakes paid from the wallet, what was drawn on the line for them, and refunds. */
  datatype Tally = Tally(boughtIn: int, drawn: int, fees: int, stakes: int, borrowed: int, refunds: int)

  const NO_TALLY := Tally(0, 0, 0, 0, 0, 0)

  function Add(a: Tally, b: Tally): Tally {
    Tally(a.boughtIn + b.boughtIn, a.drawn + b.drawn, a.fees + b.fees, a.stakes + b.stakes,
          a.borrowed + b.borrowed, a.refunds + b.refunds)
  }

  function TallyBy(b: Books, op: Op, player: Id): Tally {
    if !Accepted(b, op) then NO_TALLY
    else match op
      case BuyInApproved(p, amount, _) => if p == player then NO_TALLY.(boughtIn := amount) else NO_TALLY
      case CreditApproved(p, amount, limit, _) =>
        if p == player then NO_TALLY.(drawn := Max(0, Min(amount, limit))) else NO_TALLY
      case TournamentJoined(p, fee, buyIn, _, _, _) =>
        if p != player then NO_TALLY
        else
          var s := PriceSplit(fee, buyIn, Total(WalletLoop, b.rows, p));
          NO_TALLY.(fees := s.walletFee, stakes := s.walletBuyIn, borrowed := s.credit)
      case TournamentLeft(p, buyIn, _) => if p == player then NO_TALLY.(refunds := Max(0, buyIn)) else NO_TALLY
      case _ => NO_TALLY
  }

  function TallyOf(b: Books, ops: seq<Op>, player: Id): Tally
    decreases |ops|
  {
    if |ops| == 0 then NO_TALLY
    else Add(TallyOf(b, ops[..|ops| - 1], player), TallyBy(Play(b, ops[..|ops| - 1]), ops[|ops| - 1], player))
  }

  lemma {:induction false} SeatKept(w: seq<Entry>, w': seq<Entry>, player: Id)
    requires |w| == |w'|
    requires forall i :: 0 <= i < |w| ==>
      w'[i] == w[i] || (w[i].player != player && w'[i].player != player)
    ensures SeatOf(w', player) == SeatOf(w, player)
  {
    if |w| > 0 {
      SeatKept(w[1..], w'[1..], player);
    }
  }

  /** A call that does not touch a player leaves every fold and the seat of that player alone. */
  lemma UntouchedStep(b: Books, op: Op, player: Id, m: Measure)
    requires !Touches(op, player)
    ensures Total(m, Apply(b, op).rows, player) == Total(m, b.rows, player)
    ensures SeatOf(Apply(b, op).waitlist, player) == SeatOf(b.waitlist, player)
  {
    hide Total, BuyInRows, CreditRows, BuyOutRows, SettledRows, PriceSplit, FreeSeat, EmptyTable, Breakdown;
    if Accepted(b, op) {
      match op
      case BuyInApproved(p, amount, now) => BuyInEffect(m, b.rows, p, amount, now, player);
      case CreditApproved(p, amount, limit, now) =>
        CreditEffect(m, b.rows, p, CreditDraw(SeatOf(b.waitlist, p), amount, limit), now, player);
      case BuyOutApproved(p, table, amount, now) =>
        BuyOutEffect(m, b.rows, p, amount, Owed(b.rows, p), now, player);
        SeatKept(b.waitlist, CancelSeats(b.waitlist, p, None), player);
      case TableSettled(id, list, rake, now) =>
        SettledUnlisted(m, b.rows, list, now, player);
        CancelAllExactly(b.waitlist, list);
        SeatKept(b.waitlist, CancelAll(b.waitlist, list), player);
      case StaffBoughtOut(p, table, amount, now) =>
        BuyOutEffect(m, b.rows, p, Max(0, amount), Owed(b.rows, p), now, player);
        SeatKept(b.waitlist, CancelSeats(b.waitlist, p, Some(table)), player);
      case TournamentJoined(p, fee, buyIn, limit, enabled, now) =>
        JoinShare(m, b.rows, p, fee, buyIn, Total(WalletLoop, b.rows, p), now, player);
      case TournamentLeft(p, buyIn, now) =>
        TotalAppend(m, b.rows, LeaveRows(p, buyIn, now), player);
        TotalOfOthers(m, LeaveRows(p, buyIn, now), player);
    }
  }

  /** Wallet, credit net and chips of a player whose sitting started with `seat`. */
  datatype Standing = Standing(wallet: int, net: int, chips: int, seat: Option<Entry>)

  function StandingOf(b: Books, player: Id): Standing {
    Standing(Total(WalletSql, b.rows, player), Total(CreditNet, b.rows, player),
             TableChips(b.rows, player, SeatOf(b.waitlist, player)), SeatOf(b.waitlist, player))
  }

  /** Cash plus chips minus what is owed on the credit line. */
  function NetPosition(s: Standing): int {
    s.wallet + s.chips - s.net
  }

  predicate Sitting(b: Books, player: Id, since: int) {
    var seat := SeatOf(b.waitlist, player);
    AtTable(seat) && seat.value.seatedAt == Some(since)
  }

  /** A standing after a tally. Stakes and draws for tournaments count as chips on the table. */
  function Moved(s: Standing, t: Tally): Standing {
    Standing(s.wallet - t.fees - t.stakes + t.refunds, s.net + t.drawn + t.borrowed,
             s.chips + t.boughtIn + t.drawn + t.stakes + t.borrowed, s.seat)
  }

  /** While a player sits, buy-ins, draws and tournaments add up, in any order and whatever other players
      do; the seat does not move. */
  lemma {:induction false} SittingRun(b: Books, ops: seq<Op>, player: Id, since: int)
    requires Sitting(b, player, since)
    requires forall i :: 0 <= i < |ops| ==> SittingOp(ops[i], player, since)
    ensures StandingOf(Play(b, ops), player) == Moved(StandingOf(b, player), TallyOf(b, ops, player))
    decreases |ops|
  {
    hide Total, TableChips, SeatOf, Apply, TallyBy, SittingOp;
    if |ops| > 0 {
      var init, op := ops[..|ops| - 1], ops[|ops| - 1];
      SittingRun(b, init, player, since);
      SittingStep(Play(b, init), op, player, since);
    }
  }

  lemma SittingStep(b: Books, op: Op, player: Id, since: int)
    requires Sitting(b, player, since) && SittingOp(op, player, since)
    ensures StandingOf(Apply(b, op), player) == Moved(StandingOf(b, player), TallyBy(b, op, player))
  {
    hide Total, BuyInRows, CreditRows, BuyOutRows, JoinRows, LeaveRows, SettledRows, CancelSeats, CancelAll,
         FreeSeat, EmptyTable,
         PriceSplit, Breakdown;
    var chips := SessionChips(since);
    if !Accepted(b, op) {
    } else if Touches(op, player) {
      match op {
        case BuyInApproved(p, amount, now) =>
          BuyInEffect(WalletSql, b.rows, p, amount, now, player);
          BuyInEffect(CreditNet, b.rows, p, amount, now, player);
          BuyInEffect(chips, b.rows, p, amount, now, player);
        case CreditApproved(p, amount, limit, now) =>
          var draw := CreditDraw(SeatOf(b.waitlist, p), amount, limit);
          CreditEffect(WalletSql, b.rows, p, draw, now, player);
          CreditEffect(CreditNet, b.rows, p, draw, now, player);
          CreditEffect(chips, b.rows, p, draw, now, player);
        case TournamentJoined(p, fee, buyIn, _, _, now) =>
          JoinEffect(b.rows, p, fee, buyIn, Total(WalletLoop, b.rows, p), now, player);
        case TournamentLeft(p, buyIn, now) =>
          LeaveEffect(WalletSql, b.rows, p, buyIn, now, player);
          LeaveEffect(CreditNet, b.rows, p, buyIn, now, player);
          LeaveEffect(chips, b.rows, p, buyIn, now, player);
        case _ => assert false;
      }
    } else {
      UntouchedStep(b, op, player, WalletSql);
      UntouchedStep(b, op, player, CreditNet);
      UntouchedStep(b, op, player, chips);
      Untallied(b, op, player);
    }
  }

  lemma Untallied(b: Books, op: Op, player: Id)
    requires !Touches(op, player)
    ensures TallyBy(b, op, player) == NO_TALLY
  {
  }

  predicate TournamentOp(op: Op, player: Id) {
    match op
    case TournamentJoined(p, _, _, _, _, _) => p == player
    case TournamentLeft(p, _, _) => p == player
    case _ => false
  }

  /** A sitting in which the player enters and leaves no tournament: the wallet does not move. */
  lemma {:induction false} NoTournaments(b: Books, ops: seq<Op>, player: Id)
    requires forall i :: 0 <= i < |ops| ==> !TournamentOp(ops[i], player)
    ensures var t := TallyOf(b, ops, player); t.fees == 0 && t.stakes == 0 && t.borrowed == 0 && t.refunds == 0
    decreases |ops|
  {
    if |ops| > 0 {
      hide TallyBy, Play, TournamentOp;
      NoTournaments(b, ops[..|ops| - 1], player);
      NoTournament(Play(b, ops[..|ops| - 1]), ops[|ops| - 1], player);
    }
  }

  lemma NoTournament(b: Books, op: Op, player: Id)
    requires !TournamentOp(op, player)
    ensures var t := TallyBy(b, op, player); t.fees == 0 && t.stakes == 0 && t.borrowed == 0 && t.refunds == 0
  {
    hide Accepted, PriceSplit;
  }

  /** A whole sitting: any run of buy-ins, draws and tournaments joined or left, then an approved buy-out
      of `returned` chips. The wallet ends with the chips returned less the old debt, everything drawn
      and borrowed and what tournaments took, plus refunds; the credit net is zero, the seat is gone, and
      the buy-out moves the net position by exactly the difference between the chips returned and the
      chips that were on the table. Measured from the start, cash bought in and refunds come on top and
      only registration fees paid in cash are lost. */
  lemma SittingConservation(b: Books, ops: seq<Op>, player: Id, since: int, table: Option<int>, returned: int, now: int)
    requires Sitting(b, player, since)
    requires forall i :: 0 <= i < |ops| ==> SittingOp(ops[i], player, since)
    requires Total(CreditNet, b.rows, player) >= 0
    requires returned >= 0 && now >= since
    ensures var start, t := StandingOf(b, player), TallyOf(b, ops, player);
            var before := StandingOf(Play(b, ops), player);
            var after := StandingOf(Apply(Play(b, ops), BuyOutApproved(player, table, returned, now)), player);
            && after.wallet
               == start.wallet + returned - start.net - t.drawn - t.borrowed - t.fees - t.stakes + t.refunds
            && after.net == 0 && after.chips == 0 && after.seat == None
            && NetPosition(after) - NetPosition(before) == returned - before.chips
            && NetPosition(after) - NetPosition(start) == t.boughtIn - t.fees + t.refunds + (returned - before.chips)
  {
    hide Play, Apply, SeatOf, Total, TableChips, TallyOf;
    SittingRun(b, ops, player, since);
    CreditNetNeverNegative(b, ops, player);
    BoughtOut(Play(b, ops), player, table, returned, now);
  }

  /** An approved buy-out of a player with a non-negative credit net. */
  lemma BoughtOut(b: Books, player: Id, table: Option<int>, returned: int, now: int)
    requires returned >= 0 && Total(CreditNet, b.rows, player) >= 0
    ensures var s := StandingOf(b, player);
            StandingOf(Apply(b, BuyOutApproved(player, table, returned, now)), player)
            == Standing(s.wallet + returned - s.net, 0, 0, None)
  {
    hide Total, BuyOutRows;
    BuyOutEffect(WalletSql, b.rows, player, returned, Owed(b.rows, player), now, player);
    BuyOutEffect(CreditNet, b.rows, player, returned, Owed(b.rows, player), now, player);
  }
}
