/** The groups of ledger rows each writer posts, what every group does to every fold, and the
    whole-table settlement as a fold over its settlement list. */
module Postings {
  import opened Basics
  import opened Ledger

  function BuyInRows(player: Id, amount: int, now: int): seq<Row> {
    [Plain(player, ClubBuyIn, amount, now), Plain(player, TableBuyIn, amount, now)]
  }

  /** Amount drawn on the line when a credit request is approved: only for a player with a SEATED
      row that names a table, and only when the smaller of amount and limit is positive. */
  function CreditDraw(seat: Option<Entry>, amount: int, limit: int): int {
    if seat.None? || seat.value.table.None? then 0
    else if !(Min(amount, limit) > 0) then 0
    else Min(amount, limit)
  }

  function CreditRows(player: Id, draw: int, now: int): seq<Row> {
    if draw > 0 then [Plain(player, Credit, draw, now), Marked(player, TableBuyIn, draw, now)] else []
  }

  function Owed(rows: seq<Row>, player: Id): (owed: int)
    ensures owed >= 0
  {
    Max(0, Total(CreditNet, rows, player))
  }

  function BuyOutRows(player: Id, amount: int, owed: int, now: int): seq<Row> {
    [Plain(player, TableBuyOut, amount, now)] + (if owed > 0 then [Plain(player, Debit, owed, now)] else [])
  }

  /** How a tournament price is split: registration fee from the wallet first, then the buy-in from
      what is left of it, the rest drawn on the credit line. */
  datatype Split = Split(walletFee: int, walletBuyIn: int, credit: int)

  function PriceSplit(entryFee: int, buyIn: int, wallet: int): Split {
    var walletFee := Min(entryFee, wallet);
    var walletBuyIn := Min(buyIn, wallet - walletFee);
    Split(walletFee, walletBuyIn, entryFee + buyIn - (walletFee + walletBuyIn))
  }

  function JoinRows(player: Id, entryFee: int, buyIn: int, wallet: int, now: int): seq<Row> {
    if entryFee + buyIn <= 0 then []
    else
      var s := PriceSplit(entryFee, buyIn, wallet);
      (if s.walletFee > 0 then [Plain(player, Register, s.walletFee, now)] else [])
      + (if s.walletBuyIn > 0 then [Plain(player, BuyIn, s.walletBuyIn, now)] else [])
      + (if s.credit > 0 then [Plain(player, Credit, s.credit, now)] else [])
  }

  /** The balance checks of registerForTournament. */
  predicate MayJoin(entryFee: int, buyIn: int, wallet: int, availableCredit: int) {
    wallet >= 0 && (entryFee + buyIn > 0 ==> wallet + availableCredit >= entryFee + buyIn)
  }

  function LeaveRows(player: Id, buyIn: int, now: int): seq<Row> {
    if buyIn > 0 then [Plain(player, Refund, buyIn, now)] else []
  }

  // ---------------------------------------------------------------- effect of each group

  function IsSession(m: Measure, now: int): bool {
    match m
    case SessionChips(since) => now >= since
    case SessionCredit(since) => now >= since
    case _ => true
  }

  /** A club buy-in moves cash through the wallet onto the table: only the chips change. */
  lemma BuyInEffect(m: Measure, rows: seq<Row>, player: Id, amount: int, now: int, q: Id)
    ensures Total(m, rows + BuyInRows(player, amount, now), q) - Total(m, rows, q)
         == if q == player && m.SessionChips? && IsSession(m, now) then amount else 0
  {
    TotalAppend(m, rows, BuyInRows(player, amount, now), q);
    TotalTwo(m, Plain(player, ClubBuyIn, amount, now), Plain(player, TableBuyIn, amount, now), q);
  }

  /** A credit draw puts the same amount on the table and on the credit line, never in the wallet. */
  lemma CreditEffect(m: Measure, rows: seq<Row>, player: Id, draw: int, now: int, q: Id)
    ensures Total(m, rows + CreditRows(player, draw, now), q) - Total(m, rows, q)
         == if q == player && draw > 0 && (m.CreditNet? || m.SessionChips? || m.SessionCredit?) && IsSession(m, now)
            then draw else 0
  {
    TotalAppend(m, rows, CreditRows(player, draw, now), q);
    if draw > 0 {
      TotalTwo(m, Plain(player, Credit, draw, now), Marked(player, TableBuyIn, draw, now), q);
    }
  }

  /** A buy-out returns the chips to the wallet and takes what was owed out of it. */
  lemma BuyOutEffect(m: Measure, rows: seq<Row>, player: Id, amount: int, owed: int, now: int, q: Id)
    requires owed >= 0
    ensures Total(m, rows + BuyOutRows(player, amount, owed, now), q) - Total(m, rows, q)
         == if q != player || !IsSession(m, now) then 0
            else match m
              case WalletSql => amount - owed
              case WalletLoop => amount - owed
              case CreditNet => -owed
              case SessionChips(_) => -amount
              case SessionCredit(_) => -owed
              case LineRepayments => 0
  {
    var out, debit := Plain(player, TableBuyOut, amount, now), Plain(player, Debit, owed, now);
    TotalAppend(m, rows, BuyOutRows(player, amount, owed, now), q);
    TotalOne(m, out, q);
    if owed > 0 {
      assert BuyOutRows(player, amount, owed, now) == [out, debit];
      TotalTwo(m, out, debit, q);
    } else {
      assert BuyOutRows(player, amount, owed, now) == [out];
    }
  }

  /** A tournament registration that passed the checks debits the wallet by what the split says and
      draws the rest on the line. For a player seated since before it, the buy-in and the draw also count
      as chips on the table, though no chips were handed out there. */
  lemma JoinEffect(rows: seq<Row>, player: Id, entryFee: int, buyIn: int, wallet: int, now: int, q: Id)
    requires entryFee >= 0 && buyIn >= 0 && wallet >= 0
    ensures var s := PriceSplit(entryFee, buyIn, wallet);
            var rows' := rows + JoinRows(player, entryFee, buyIn, wallet, now);
            && Total(WalletLoop, rows', q) - Total(WalletLoop, rows, q)
               == (if q == player then -(s.walletFee + s.walletBuyIn) else 0)
            && Total(WalletSql, rows', q) - Total(WalletSql, rows, q)
               == (if q == player then -(s.walletFee + s.walletBuyIn) else 0)
            && Total(CreditNet, rows', q) - Total(CreditNet, rows, q) == (if q == player then s.credit else 0)
    ensures var s := PriceSplit(entryFee, buyIn, wallet);
            var rows' := rows + JoinRows(player, entryFee, buyIn, wallet, now);
            forall since ::
              && Total(SessionChips(since), rows', q) - Total(SessionChips(since), rows, q)
                 == (if q == player && now >= since then s.walletBuyIn + s.credit else 0)
              && Total(SessionCredit(since), rows', q) - Total(SessionCredit(since), rows, q)
                 == (if q == player && now >= since then s.credit else 0)
  {
    hide Total, JoinRows, PriceSplit, Share;
    JoinSums(player, entryFee, buyIn, wallet, now, q);
    forall since: int
      ensures Total(SessionChips(since), rows + JoinRows(player, entryFee, buyIn, wallet, now), q)
           == Total(SessionChips(since), rows, q)
              + JoinSum(SessionChips(since), player, entryFee, buyIn, wallet, now, q)
      ensures Total(SessionCredit(since), rows + JoinRows(player, entryFee, buyIn, wallet, now), q)
           == Total(SessionCredit(since), rows, q)
              + JoinSum(SessionCredit(since), player, entryFee, buyIn, wallet, now, q)
    {
      JoinShare(SessionChips(since), rows, player, entryFee, buyIn, wallet, now, q);
      JoinShare(SessionCredit(since), rows, player, entryFee, buyIn, wallet, now, q);
    }
    JoinShare(WalletLoop, rows, player, entryFee, buyIn, wallet, now, q);
    JoinShare(WalletSql, rows, player, entryFee, buyIn, wallet, now, q);
    JoinShare(CreditNet, rows, player, entryFee, buyIn, wallet, now, q);
  }

  function AmountSum(rows: seq<Row>): int {
    if |rows| == 0 then 0 else rows[0].amount + AmountSum(rows[1..])
  }

  lemma {:induction false} AmountSumAppend(a: seq<Row>, b: seq<Row>)
    ensures AmountSum(a + b) == AmountSum(a) + AmountSum(b)
  {
    if |a| == 0 {
      assert a + b == b;
    } else {
      assert (a + b)[1..] == a[1..] + b;
      AmountSumAppend(a[1..], b);
    }
  }

  /** An accepted registration, priced against the balance view: the rows total the price, credit is
      drawn only when the wallet is brought to exactly 0, the wallet stays non-negative and the
      credit net stays within the limit. The recomputed available credit falls by exactly the draw
      if and only if the wallet covers the price or the credit net was not negative beforehand. */
  lemma RegistrationLaw(rows: seq<Row>, player: Id, entryFee: int, buyIn: int, limit: int, enabled: bool, now: int)
    requires entryFee >= 0 && buyIn >= 0
    requires var net := if enabled then Total(CreditNet, rows, player) else 0;
             MayJoin(entryFee, buyIn, Total(WalletLoop, rows, player),
                     Breakdown(limit, net, Total(WalletLoop, rows, player), enabled).available)
    ensures var w, l := Total(WalletLoop, rows, player), Total(CreditNet, rows, player);
            var posted := JoinRows(player, entryFee, buyIn, w, now);
            var w', l' := Total(WalletLoop, rows + posted, player), Total(CreditNet, rows + posted, player);
            var drawn := l' - l;
            && AmountSum(posted) == entryFee + buyIn
            && drawn >= 0 && w - w' == entryFee + buyIn - drawn
            && (drawn > 0 ==> w' == 0 && enabled)
            && w' >= 0
            && (drawn > 0 ==> l' <= limit)
            && (enabled && limit > 0 ==>
                (Breakdown(limit, l, w, true).available - Breakdown(limit, l', w', true).available == drawn
                 <==> entryFee + buyIn <= w || l >= 0))
  {
    var w, l := Total(WalletLoop, rows, player), Total(CreditNet, rows, player);
    PostedAmounts(player, entryFee, buyIn, w, now);
    DrawOnLine(entryFee, buyIn, limit, enabled, w, l);
    hide Total, JoinRows, PriceSplit, AmountSum, Breakdown;
    JoinEffect(rows, player, entryFee, buyIn, w, now, player);
  }

  /** What of these rows is of one kind. */
  function AmountOf(rows: seq<Row>, kind: TxType): int {
    if |rows| == 0 then 0 else (if rows[0].kind == kind then rows[0].amount else 0) + AmountOf(rows[1..], kind)
  }

  lemma {:induction false} AmountOfAppend(a: seq<Row>, b: seq<Row>, kind: TxType)
    ensures AmountOf(a + b, kind) == AmountOf(a, kind) + AmountOf(b, kind)
  {
    if |a| == 0 {
      assert a + b == b;
    } else {
      assert (a + b)[1..] == a[1..] + b;
      AmountOfAppend(a[1..], b, kind);
    }
  }

  /** The fee comes first: the wallet pays none of the buy-in before it has paid the whole fee, neither
      part is overpaid, and the line is drawn on only when the wallet is used up. */
  lemma FeeFirst(player: Id, entryFee: int, buyIn: int, wallet: int, now: int)
    requires entryFee >= 0 && buyIn >= 0 && wallet >= 0
    ensures var posted := JoinRows(player, entryFee, buyIn, wallet, now);
            var fee, stake, drawn := AmountOf(posted, Register), AmountOf(posted, BuyIn), AmountOf(posted, Credit);
            && 0 <= fee <= entryFee && 0 <= stake <= buyIn && fee + stake + drawn == entryFee + buyIn
            && (stake > 0 ==> fee == entryFee)
            && (drawn > 0 ==> fee + stake == wallet)
            && forall r :: r in posted ==> r.player == player && r.kind in {Register, BuyIn, Credit} && r.amount > 0
  {
    JoinAmount(player, entryFee, buyIn, wallet, now, Register);
    JoinAmount(player, entryFee, buyIn, wallet, now, BuyIn);
    JoinAmount(player, entryFee, buyIn, wallet, now, Credit);
  }

  lemma JoinAmount(player: Id, entryFee: int, buyIn: int, wallet: int, now: int, kind: TxType)
    requires entryFee >= 0 && buyIn >= 0 && wallet >= 0 && kind in {Register, BuyIn, Credit}
    ensures var s := PriceSplit(entryFee, buyIn, wallet);
            AmountOf(JoinRows(player, entryFee, buyIn, wallet, now), kind)
            == if entryFee + buyIn <= 0 then 0
               else if kind == Register then s.walletFee else if kind == BuyIn then s.walletBuyIn else s.credit
  {
    var s := PriceSplit(entryFee, buyIn, wallet);
    var a := OneIf(Plain(player, Register, s.walletFee, now));
    var b := OneIf(Plain(player, BuyIn, s.walletBuyIn, now));
    var c := OneIf(Plain(player, Credit, s.credit, now));
    if entryFee + buyIn > 0 {
      assert JoinRows(player, entryFee, buyIn, wallet, now) == (a + b) + c;
      AmountOfAppend(a + b, c, kind);
      AmountOfAppend(a, b, kind);
    }
  }

  lemma PostedAmounts(player: Id, entryFee: int, buyIn: int, wallet: int, now: int)
    requires entryFee >= 0 && buyIn >= 0 && wallet >= 0
    ensures AmountSum(JoinRows(player, entryFee, buyIn, wallet, now)) == entryFee + buyIn
  {
    var s := PriceSplit(entryFee, buyIn, wallet);
    var a := OneIf(Plain(player, Register, s.walletFee, now));
    var b := OneIf(Plain(player, BuyIn, s.walletBuyIn, now));
    var c := OneIf(Plain(player, Credit, s.credit, now));
    if entryFee + buyIn > 0 {
      assert JoinRows(player, entryFee, buyIn, wallet, now) == (a + b) + c;
      AmountSumAppend(a + b, c);
      AmountSumAppend(a, b);
    }
  }

  /** The arithmetic of an accepted registration on wallet w and credit net l. */
  lemma DrawOnLine(entryFee: int, buyIn: int, limit: int, enabled: bool, w: int, l: int)
    requires entryFee >= 0 && buyIn >= 0
    requires MayJoin(entryFee, buyIn, w, Breakdown(limit, if enabled then l else 0, w, enabled).available)
    ensures var s := PriceSplit(entryFee, buyIn, w);
            var paid, drawn := s.walletFee + s.walletBuyIn, s.credit;
            && drawn >= 0 && paid == entryFee + buyIn - drawn && w - paid >= 0
            && (drawn > 0 ==> w == paid && enabled && l + drawn <= limit)
            && (enabled && limit > 0 ==>
                (Breakdown(limit, l, w, true).available - Breakdown(limit, l + drawn, w - paid, true).available == drawn
                 <==> entryFee + buyIn <= w || l >= 0))
  {
  }

  function OneIf(r: Row): seq<Row> {
    if r.amount > 0 then [r] else []
  }

  function ShareIf(m: Measure, r: Row, q: Id): int {
    if r.amount > 0 then Share(m, r, q) else 0
  }

  lemma TotalOneIf(m: Measure, rows: seq<Row>, r: Row, q: Id)
    ensures Total(m, rows + OneIf(r), q) == Total(m, rows, q) + ShareIf(m, r, q)
  {
    TotalAppend(m, rows, OneIf(r), q);
    TotalOne(m, r, q);
  }

  lemma JoinSums(player: Id, entryFee: int, buyIn: int, wallet: int, now: int, q: Id)
    requires entryFee >= 0 && buyIn >= 0 && wallet >= 0
    ensures var s := PriceSplit(entryFee, buyIn, wallet);
            && JoinSum(WalletLoop, player, entryFee, buyIn, wallet, now, q)
               == (if q == player then -(s.walletFee + s.walletBuyIn) else 0)
            && JoinSum(WalletSql, player, entryFee, buyIn, wallet, now, q)
               == (if q == player then -(s.walletFee + s.walletBuyIn) else 0)
            && JoinSum(CreditNet, player, entryFee, buyIn, wallet, now, q) == (if q == player then s.credit else 0)
            && (forall since :: JoinSum(SessionChips(since), player, entryFee, buyIn, wallet, now, q)
                                == (if q == player && now >= since then s.walletBuyIn + s.credit else 0))
            && (forall since :: JoinSum(SessionCredit(since), player, entryFee, buyIn, wallet, now, q)
                                == (if q == player && now >= since then s.credit else 0))
  {
  }

  function JoinSum(m: Measure, player: Id, entryFee: int, buyIn: int, wallet: int, now: int, q: Id): int {
    var s := PriceSplit(entryFee, buyIn, wallet);
    if entryFee + buyIn <= 0 then 0
    else ShareIf(m, Plain(player, Register, s.walletFee, now), q)
         + ShareIf(m, Plain(player, BuyIn, s.walletBuyIn, now), q)
         + ShareIf(m, Plain(player, Credit, s.credit, now), q)
  }

  /** Whatever the signs of fee and buy-in, a registration's effect on a fold is that of its three
      optional rows. */
  lemma JoinShare(m: Measure, rows: seq<Row>, player: Id, entryFee: int, buyIn: int, wallet: int, now: int, q: Id)
    ensures Total(m, rows + JoinRows(player, entryFee, buyIn, wallet, now), q)
         == Total(m, rows, q) + JoinSum(m, player, entryFee, buyIn, wallet, now, q)
  {
    var s := PriceSplit(entryFee, buyIn, wallet);
    if entryFee + buyIn <= 0 {
      assert rows + JoinRows(player, entryFee, buyIn, wallet, now) == rows;
    } else {
      var a := Plain(player, Register, s.walletFee, now);
      var b := Plain(player, BuyIn, s.walletBuyIn, now);
      var c := Plain(player, Credit, s.credit, now);
      assert rows + JoinRows(player, entryFee, buyIn, wallet, now) == ((rows + OneIf(a)) + OneIf(b)) + OneIf(c);
      TotalOneIf(m, rows, a, q);
      TotalOneIf(m, rows + OneIf(a), b, q);
      TotalOneIf(m, (rows + OneIf(a)) + OneIf(b), c, q);
    }
  }

  lemma LeaveEffect(m: Measure, rows: seq<Row>, player: Id, buyIn: int, now: int, q: Id)
    ensures Total(m, rows + LeaveRows(player, buyIn, now), q) - Total(m, rows, q)
         == if q == player && (m.WalletSql? || m.WalletLoop?) then Max(0, buyIn) else 0
  {
    TotalAppend(m, rows, LeaveRows(player, buyIn, now), q);
    TotalOne(m, Plain(player, Refund, buyIn, now), q);
  }

  /** What is paid back is posted as a refund, once, and nothing else is. */
  lemma LeavePostsRefund(player: Id, buyIn: int, now: int)
    ensures var posted := LeaveRows(player, buyIn, now);
            && AmountOf(posted, Refund) == AmountSum(posted) == Max(0, buyIn)
            && forall r :: r in posted ==> r.player == player && r.kind == Refund && r.status == Completed
  {
  }

  // ---------------------------------------------------------------- settling a whole table

  datatype Settlement = Settlement(player: Id, amount: int)

  predicate Listed(list: seq<Settlement>, player: Id) {
    exists i :: 0 <= i < |list| && list[i].player == player
  }

  function AmountFor(list: seq<Settlement>, player: Id): int {
    if |list| == 0 then 0
    else AmountFor(list[..|list| - 1], player)
         + (if list[|list| - 1].player == player then list[|list| - 1].amount else 0)
  }

  /** The ledger after the settlement loop: each entry reads the credit owed on the ledger its
      predecessors left. */
  function SettledRows(rows: seq<Row>, list: seq<Settlement>, now: int): seq<Row>
    decreases |list|
  {
    if |list| == 0 then rows
    else
      var before := SettledRows(rows, list[..|list| - 1], now);
      var s := list[|list| - 1];
      before + BuyOutRows(s.player, s.amount, Owed(before, s.player), now)
  }

  /** What the loop reports as credit settled for the i-th entry. */
  function CreditSettled(rows: seq<Row>, list: seq<Settlement>, now: int, i: nat): int
    requires i < |list|
  {
    Owed(SettledRows(rows, list[..i], now), list[i].player)
  }

  lemma ListedInit(list: seq<Settlement>, player: Id)
    requires |list| > 0
    ensures Listed(list, player) <==> Listed(list[..|list| - 1], player) || list[|list| - 1].player == player
  {
    var init := list[..|list| - 1];
    if Listed(list, player) && list[|list| - 1].player != player {
      var i :| 0 <= i < |list| && list[i].player == player;
      assert init[i].player == player;
    }
    if Listed(init, player) {
      var i :| 0 <= i < |init| && init[i].player == player;
      assert list[i].player == player;
    }
    if list[|list| - 1].player == player {
      assert Listed(list, player);
    }
  }

  /** For every list, duplicates included: a listed player ends with credit net min(old, 0), the
      chips of all of that player's entries in the wallet, and the old debt taken out of it once;
      an unlisted player's wallet and credit do not move. */
  lemma {:induction false} SettledFolds(rows: seq<Row>, list: seq<Settlement>, now: int, player: Id)
    ensures var rows' := SettledRows(rows, list, now);
            var net := Total(CreditNet, rows, player);
            && Total(CreditNet, rows', player) == (if Listed(list, player) then Min(net, 0) else net)
            && Total(WalletSql, rows', player)
               == Total(WalletSql, rows, player) + AmountFor(list, player)
                  - (if Listed(list, player) then Max(0, net) else 0)
            && Total(WalletLoop, rows', player)
               == Total(WalletLoop, rows, player) + AmountFor(list, player)
                  - (if Listed(list, player) then Max(0, net) else 0)
    decreases |list|
  {
    if |list| == 0 {
      assert !Listed(list, player);
    } else {
      var init, s := list[..|list| - 1], list[|list| - 1];
      SettledFolds(rows, init, now, player);
      ListedInit(list, player);
      var before := SettledRows(rows, init, now);
      BuyOutEffect(CreditNet, before, s.player, s.amount, Owed(before, s.player), now, player);
      BuyOutEffect(WalletSql, before, s.player, s.amount, Owed(before, s.player), now, player);
      BuyOutEffect(WalletLoop, before, s.player, s.amount, Owed(before, s.player), now, player);
    }
  }

  /** The table chips of a listed player fall by exactly the amounts returned in this session. */
  lemma {:induction false} SettledChips(rows: seq<Row>, list: seq<Settlement>, now: int, player: Id, since: int)
    ensures Total(SessionChips(since), SettledRows(rows, list, now), player)
         == Total(SessionChips(since), rows, player) - (if now >= since then AmountFor(list, player) else 0)
    decreases |list|
  {
    if |list| > 0 {
      var init, s := list[..|list| - 1], list[|list| - 1];
      SettledChips(rows, init, now, player, since);
      var before := SettledRows(rows, init, now);
      BuyOutEffect(SessionChips(since), before, s.player, s.amount, Owed(before, s.player), now, player);
    }
  }

  /** A player not on the list keeps every fold, whatever it measures. */
  lemma {:induction false} SettledUnlisted(m: Measure, rows: seq<Row>, list: seq<Settlement>, now: int, player: Id)
    requires !Listed(list, player)
    ensures Total(m, SettledRows(rows, list, now), player) == Total(m, rows, player)
    decreases |list|
  {
    if |list| > 0 {
      var init, s := list[..|list| - 1], list[|list| - 1];
      ListedInit(list, player);
      SettledUnlisted(m, rows, init, now, player);
      var before := SettledRows(rows, init, now);
      BuyOutEffect(m, before, s.player, s.amount, Owed(before, s.player), now, player);
    }
  }

  /** The first entry of a player settles the whole debt, every later entry settles nothing. */
  lemma SettledOnce(rows: seq<Row>, list: seq<Settlement>, now: int, i: nat)
    requires i < |list|
    ensures CreditSettled(rows, list, now, i)
         == if Listed(list[..i], list[i].player) then 0 else Owed(rows, list[i].player)
  {
    SettledFolds(rows, list[..i], now, list[i].player);
  }

  /** The facility after an approved draw within the limit: what is on line rises by exactly the draw and
      none of it counts as used, whatever the wallet. */
  lemma FacilityAfterDraw(rows: seq<Row>, player: Id, draw: int, limit: int, now: int)
    requires draw > 0 && 0 <= Total(CreditNet, rows, player) && Total(CreditNet, rows, player) + draw <= limit
    ensures var rows' := rows + CreditRows(player, draw, now);
            var before := Breakdown(limit, Total(CreditNet, rows, player), Total(WalletLoop, rows, player), true);
            var after := Breakdown(limit, Total(CreditNet, rows', player), Total(WalletLoop, rows', player), true);
            && before.onLine == Total(CreditNet, rows, player) && after.onLine == before.onLine + draw
            && after.used == 0 && after.consumed == after.onLine
            && after.available == limit - before.onLine - draw
  {
    hide Total, CreditRows;
    CreditEffect(CreditNet, rows, player, draw, now, player);
    CreditEffect(WalletLoop, rows, player, draw, now, player);
  }

  /** The facility after a settlement, for a solvent player within the limit: nothing stays on
      line, what was on line and chips and wallet could not cover shows as used, and available credit
      never falls. */
  lemma FacilityAfterSettlement(rows: seq<Row>, player: Id, chips: int, limit: int, now: int)
    requires chips >= 0 && limit > 0
    requires 0 <= Total(WalletLoop, rows, player)
    requires 0 <= Total(CreditNet, rows, player) <= limit
    ensures var w, l := Total(WalletLoop, rows, player), Total(CreditNet, rows, player);
            var rows' := rows + BuyOutRows(player, chips, Owed(rows, player), now);
            var before := Breakdown(limit, l, w, true);
            var after := Breakdown(limit, Total(CreditNet, rows', player), Total(WalletLoop, rows', player), true);
            && before.onLine == l && before.used == 0
            && after.onLine == 0
            && after.used == Max(0, before.onLine - chips - w)
            && after.available >= before.available
            && after.available - before.available == Min(l, chips + w)
  {
    hide Total, BuyOutRows, Breakdown;
    var w, l := Total(WalletLoop, rows, player), Total(CreditNet, rows, player);
    ClearedLine(limit, l, w, chips);
    BuyOutEffect(WalletLoop, rows, player, chips, Owed(rows, player), now, player);
    BuyOutEffect(CreditNet, rows, player, chips, Owed(rows, player), now, player);
  }

  /** The facility arithmetic of a settlement: credit net from l to 0, cash from w to w + chips - l. */
  lemma ClearedLine(limit: int, l: int, w: int, chips: int)
    requires chips >= 0 && w >= 0 && 0 <= l <= limit && limit > 0
    ensures var before, after := Breakdown(limit, l, w, true), Breakdown(limit, 0, w + chips - l, true);
            && before.onLine == l && before.used == 0
            && after.onLine == 0
            && after.used == Max(0, l - chips - w)
            && after.available >= before.available
            && after.available - before.available == Min(l, chips + w)
  {
  }

  /** A player with an over-repaid line (net -50) and an empty wallet draws 60 for a fee of 60 on a
      limit of 100: available credit falls by 10 only. */
  lemma OverpaidLineAbsorbsDraw()
    ensures var rows := [Plain("p", Deposit, 50, 0), Plain("p", Debit, 50, 0)];
            var rows' := rows + JoinRows("p", 60, 0, 0, 1);
            && Total(WalletLoop, rows, "p") == 0 && Total(CreditNet, rows, "p") == -50
            && MayJoin(60, 0, 0, Breakdown(100, -50, 0, true).available)
            && Total(WalletLoop, rows', "p") == 0 && Total(CreditNet, rows', "p") == 10
            && Breakdown(100, -50, 0, true).available == 100 && Breakdown(100, 10, 0, true).available == 90
  {
    hide Total, JoinRows;
    var a, b := Plain("p", Deposit, 50, 0), Plain("p", Debit, 50, 0);
    TotalTwo(WalletLoop, a, b, "p");
    TotalTwo(CreditNet, a, b, "p");
    JoinEffect([a, b], "p", 60, 0, 0, 1, "p");
  }
}
