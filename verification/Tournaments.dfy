/** Tournament registration and cancellation: the seat counter, the registration rows, and the money
    they move. Each call is one atomic step. */
module Tournaments {
  import opened Basics
  import opened Ledger
  import opened Postings
  import MoneyRuns
  import ClubStore

  datatype Status = Scheduled | Upcoming | RegistrationOpen | Registering | Active | Closed

  datatype Tournament = Tournament(
    status: Status,
    startedAt: Option<int>,   // session_started_at, milliseconds
    lateMinutes: int,
    maxPlayers: int,
    currentPlayers: int,
    rummy: bool,
    buyIn: int,
    entryFee: int)

  datatype Registration = Registration(tournament: Id, player: Id)

  /** A row of tournament_players, as a late entry leaves it. */
  datatype Entrant = Entrant(active: bool, exited: bool, startedAt: Option<int>, invested: int)

  datatype Desk = Desk(
    rows: seq<Row>,
    tournaments: map<Id, Tournament>,
    registrations: seq<Registration>,
    entrants: map<Registration, Entrant>)

  datatype Line = Line(limit: int, enabled: bool)

  datatype Reply =
    | Registered | Cancelled | NoTournament | NotAccepting | LateWindowClosed | Full | NegativeWallet
    | Insufficient | AlreadyRegistered | NoRegistration | StatementFailed

  /** Rummy charges the registration fee only. */
  function BuyInCharged(t: Tournament): int {
    if t.rummy then 0 else t.buyIn
  }

  function Wallet(d: Desk, player: Id): int {
    Total(WalletLoop, d.rows, player)
  }

  function Available(d: Desk, player: Id, line: Line): int {
    Breakdown(line.limit, if line.enabled then Total(CreditNet, d.rows, player) else 0,
              Wallet(d, player), line.enabled).available
  }

  /** Net position of a player: cash minus credit owed. */
  function Position(d: Desk, player: Id): int {
    Total(WalletLoop, d.rows, player) - Total(CreditNet, d.rows, player)
  }

  /** An active tournament takes registrations only inside its late window, measured exactly. */
  predicate LateRefused(t: Tournament, now: int) {
    t.status == Active && t.startedAt.Some?
    && (t.lateMinutes <= 0 || now - t.startedAt.value > t.lateMinutes * 60_000)
  }

  function RegisterReply(d: Desk, tid: Id, player: Id, line: Line, now: int): Reply {
    if tid !in d.tournaments then NoTournament
    else
      var t := d.tournaments[tid];
      var price := BuyInCharged(t) + t.entryFee;
      if t.status == Closed then NotAccepting
      else if LateRefused(t, now) then LateWindowClosed
      else if t.currentPlayers >= t.maxPlayers then Full
      else if Wallet(d, player) < 0 then NegativeWallet
      else if price > 0 && Wallet(d, player) + Available(d, player, line) < price then Insufficient
      else if Registration(tid, player) in d.registrations then AlreadyRegistered
      else Registered
  }

  /** The upsert of a late entry: a returning player is active again, keeps the first start time and
      adds the stake to what was invested. */
  function Enrol(entrants: map<Registration, Entrant>, r: Registration, startedAt: int, stake: int)
    : (m: map<Registration, Entrant>)
    ensures r in m && m[r].active && !m[r].exited
    ensures forall x :: x != r ==> (x in m <==> x in entrants) && (x in m ==> m[x] == entrants[x])
    ensures m[r].invested == stake + (if r in entrants then entrants[r].invested else 0)
    ensures m[r].startedAt
            == if r in entrants && entrants[r].startedAt.Some? then entrants[r].startedAt else Some(startedAt)
  {
    if r in entrants then
      var e := entrants[r];
      entrants[r := Entrant(true, false, if e.startedAt.Some? then e.startedAt else Some(startedAt),
                            e.invested + stake)]
    else entrants[r := Entrant(true, false, Some(startedAt), stake)]
  }

  function EntrantsAfter(d: Desk, t: Tournament, r: Registration, now: int): map<Registration, Entrant> {
    if t.status == Active
    then Enrol(d.entrants, r, if t.startedAt.Some? then t.startedAt.value else now, BuyInCharged(t))
    else d.entrants
  }

  function AfterRegister(d: Desk, tid: Id, player: Id, now: int): Desk
    requires tid in d.tournaments
  {
    var t := d.tournaments[tid];
    Desk(d.rows + JoinRows(player, t.entryFee, BuyInCharged(t), Wallet(d, player), now),
         d.tournaments[tid := t.(currentPlayers := t.currentPlayers + 1)],
         d.registrations + [Registration(tid, player)],
         EntrantsAfter(d, t, Registration(tid, player), now))
  }

  /** DELETE FROM tournament_registrations WHERE tournament AND player. */
  function Unregister(registrations: seq<Registration>, r: Registration): seq<Registration> {
    if |registrations| == 0 then []
    else if registrations[0] == r then Unregister(registrations[1..], r)
    else [registrations[0]] + Unregister(registrations[1..], r)
  }

  function AfterCancel(d: Desk, tid: Id, player: Id, now: int): Desk {
    var refund := if tid in d.tournaments then d.tournaments[tid].buyIn else 0;
    Desk(d.rows + LeaveRows(player, refund, now),
         if tid in d.tournaments
         then d.tournaments[tid := d.tournaments[tid].(currentPlayers := Max(0, d.tournaments[tid].currentPlayers - 1))]
         else d.tournaments,
         Unregister(d.registrations, Registration(tid, player)),
         d.entrants)
  }

  /** The tables the two calls write. `fault` counts the statements that succeed before one throws. */
  class TournamentDesk {
    var rows: seq<Row>
    var tournaments: map<Id, Tournament>
    var registrations: seq<Registration>
    var entrants: map<Registration, Entrant>

    function Contents(): Desk
      reads this
    {
      Desk(rows, tournaments, registrations, entrants)
    }

    method Rollback(d: Desk)
      modifies this
      ensures Contents() == d
    {
      rows, tournaments, registrations, entrants := d.rows, d.tournaments, d.registrations, d.entrants;
    }

    /** The ledger rows of a registration, inside the caller's transaction. */
    method PostPrice(player: Id, entryFee: int, buyInRequired: int, availableBalance: int, now: int, fault: nat)
      returns (ok: bool)
      modifies this`rows
      ensures fault >= 3 ==> ok
      ensures ok ==> rows == old(rows) + JoinRows(player, entryFee, buyInRequired, availableBalance, now)
    {
      var totalRequired := entryFee + buyInRequired;
      if totalRequired <= 0 {
        assert rows == old(rows) + [];
        return true;
      }
      var walletForEntryFee := Min(entryFee, availableBalance);
      var walletForBuyIn := Min(buyInRequired, availableBalance - walletForEntryFee);
      var creditUsed := totalRequired - (walletForEntryFee + walletForBuyIn);
      var left := fault;
      if walletForEntryFee > 0 {
        if left == 0 {
          return false;
        }
        rows := rows + [Plain(player, Register, walletForEntryFee, now)];
        left := left - 1;
      }
      if walletForBuyIn > 0 {
        if left == 0 {
          return false;
        }
        rows := rows + [Plain(player, BuyIn, walletForBuyIn, now)];
        left := left - 1;
      }
      if creditUsed > 0 {
        if left == 0 {
          return false;
        }
        rows := rows + [Plain(player, Credit, creditUsed, now)];
      }
      return true;
    }

    /** registerForTournament: the price is taken from the wallet first, the rest from the line. */
    method RegisterForTournament(player: Id, tid: Id, line: Line, now: int, fault: nat) returns (reply: Reply)
      modifies this
      ensures reply != Registered ==> Contents() == old(Contents())
      ensures reply == Registered ==>
        tid in old(tournaments) && Contents() == AfterRegister(old(Contents()), tid, player, now)
      ensures fault >= 6 ==> reply == RegisterReply(old(Contents()), tid, player, line, now)
      ensures reply == RegisterReply(old(Contents()), tid, player, line, now)
           || (reply == StatementFailed && RegisterReply(old(Contents()), tid, player, line, now) == Registered)
    {
      var saved := Contents();
      if tid !in tournaments {
        return NoTournament;
      }
      var t := tournaments[tid];
      if t.status == Closed {
        return NotAccepting;
      }
      if t.status == Active && t.startedAt.Some? {
        if t.lateMinutes > 0 {
          if now - t.startedAt.value > t.lateMinutes * 60_000 {
            return LateWindowClosed;
          }
        } else {
          return LateWindowClosed;
        }
      }
      if t.currentPlayers >= t.maxPlayers {
        return Full;
      }
      var buyInRequired := if t.rummy then 0 else t.buyIn;
      var totalRequired := buyInRequired + t.entryFee;
      var availableBalance := Wallet(saved, player);
      var availableCredit := Available(saved, player, line);
      if availableBalance < 0 {
        return NegativeWallet;
      }
      if totalRequired > 0 && availableBalance + availableCredit < totalRequired {
        return Insufficient;
      }
      if Registration(tid, player) in registrations {
        return AlreadyRegistered;
      }
      var ok := WriteRegistration(player, tid, buyInRequired, availableBalance, now, fault);
      if !ok {
        Rollback(saved);
        return StatementFailed;
      }
      return Registered;
    }

    /** The writes of a registration, in one transaction; when one throws the caller rolls back. */
    method WriteRegistration(player: Id, tid: Id, buyInRequired: int, availableBalance: int, now: int, fault: nat)
      returns (ok: bool)
      requires tid in tournaments && buyInRequired == BuyInCharged(tournaments[tid])
      requires availableBalance == Wallet(Contents(), player)
      modifies this
      ensures fault >= 6 ==> ok
      ensures ok ==> Contents() == AfterRegister(old(Contents()), tid, player, now)
    {
      hide Wallet, JoinRows;
      var t := tournaments[tid];
      if fault < 2 {
        return false;
      }
      registrations := registrations + [Registration(tid, player)];
      tournaments := tournaments[tid := t.(currentPlayers := t.currentPlayers + 1)];
      var left := fault - 2;
      if t.status == Active {
        if left == 0 {
          return false;
        }
        entrants := Enrol(entrants, Registration(tid, player),
                          if t.startedAt.Some? then t.startedAt.value else now, buyInRequired);
        left := left - 1;
      }
      ok := PostPrice(player, t.entryFee, buyInRequired, availableBalance, now, left);
    }

    /** cancelRegistration: refunds the tournament's buy-in, whatever registration charged. */
    method CancelRegistration(player: Id, tid: Id, now: int, fault: nat) returns (reply: Reply)
      modifies this
      ensures reply != Cancelled ==> Contents() == old(Contents())
      ensures reply == Cancelled ==> Contents() == AfterCancel(old(Contents()), tid, player, now)
      ensures Registration(tid, player) !in old(registrations) <==> reply == NoRegistration
      ensures Registration(tid, player) in old(registrations) && fault >= 3 ==> reply == Cancelled
    {
      var saved := Contents();
      if Registration(tid, player) !in registrations {
        return NoRegistration;
      }
      var buyInAmount := if tid in tournaments then tournaments[tid].buyIn else 0;
      if fault < 2 {
        return StatementFailed;
      }
      registrations := Unregister(registrations, Registration(tid, player));
      if tid in tournaments {
        var t := tournaments[tid];
        tournaments := tournaments[tid := t.(currentPlayers := Max(0, t.currentPlayers - 1))];
      }
      if buyInAmount > 0 {
        if fault == 2 {
          Rollback(saved);
          return StatementFailed;
        }
        rows := rows + [Plain(player, Refund, buyInAmount, now)];
      }
      assert rows == old(rows) + LeaveRows(player, buyInAmount, now);
      return Cancelled;
    }
  }

  // ---------------------------------------------------------------- runs

  datatype Call =
    | DoRegister(tid: Id, player: Id, line: Line, now: int)
    | DoCancel(tid: Id, player: Id, now: int)

  function Step(d: Desk, c: Call): Desk {
    match c
    case DoRegister(tid, player, line, now) =>
      if RegisterReply(d, tid, player, line, now) == Registered then AfterRegister(d, tid, player, now) else d
    case DoCancel(tid, player, now) =>
      if Registration(tid, player) in d.registrations then AfterCancel(d, tid, player, now) else d
  }

  function Play(d: Desk, calls: seq<Call>): Desk
    decreases |calls|
  {
    if |calls| == 0 then d else Step(Play(d, calls[..|calls| - 1]), calls[|calls| - 1])
  }

  function CountFor(registrations: seq<Registration>, tid: Id): nat {
    if |registrations| == 0 then 0
    else (if registrations[0].tournament == tid then 1 else 0) + CountFor(registrations[1..], tid)
  }

  ghost predicate OnePerPlayer(registrations: seq<Registration>) {
    forall i, j :: 0 <= i < j < |registrations| ==> registrations[i] != registrations[j]
  }

  ghost predicate Consistent(d: Desk) {
    && OnePerPlayer(d.registrations)
    && forall tid :: tid in d.tournaments ==>
         d.tournaments[tid].currentPlayers == CountFor(d.registrations, tid) <= d.tournaments[tid].maxPlayers
  }

  lemma {:induction false} CountAppend(a: seq<Registration>, r: Registration, tid: Id)
    ensures CountFor(a + [r], tid) == CountFor(a, tid) + (if r.tournament == tid then 1 else 0)
  {
    if |a| == 0 {
      assert a + [r] == [r];
    } else {
      assert (a + [r])[1..] == a[1..] + [r];
      CountAppend(a[1..], r, tid);
    }
  }

  /** Deleting a registration removes exactly its one row. */
  lemma {:induction false} UnregisterOne(a: seq<Registration>, r: Registration, tid: Id)
    requires OnePerPlayer(a)
    ensures CountFor(Unregister(a, r), tid) == CountFor(a, tid) - (if r in a && r.tournament == tid then 1 else 0)
    ensures forall x :: x in Unregister(a, r) <==> x in a && x != r
    ensures OnePerPlayer(Unregister(a, r))
  {
    if |a| > 0 {
      UnregisterOne(a[1..], r, tid);
      assert a == [a[0]] + a[1..];
      if a[0] == r {
        assert r !in a[1..];
      } else {
        assert a[0] !in Unregister(a[1..], r);
      }
    }
  }

  lemma ConsistentStep(d: Desk, c: Call)
    requires Consistent(d)
    ensures Consistent(Step(d, c))
  {
    match c
    case DoRegister(tid, player, line, now) =>
      forall x ensures CountFor(d.registrations + [Registration(tid, player)], x)
                    == CountFor(d.registrations, x) + (if tid == x then 1 else 0)
      {
        CountAppend(d.registrations, Registration(tid, player), x);
      }
    case DoCancel(tid, player, now) =>
      forall x ensures CountFor(Unregister(d.registrations, Registration(tid, player)), x)
                    == CountFor(d.registrations, x)
                       - (if Registration(tid, player) in d.registrations && tid == x then 1 else 0)
      {
        UnregisterOne(d.registrations, Registration(tid, player), x);
      }
      UnregisterOne(d.registrations, Registration(tid, player), tid);
  }

  /** Over every run that starts consistent, each tournament's seat counter equals its number of
      registrations, never exceeds its capacity, and no player is registered twice. */
  lemma {:induction false} AlwaysConsistent(d: Desk, calls: seq<Call>)
    requires Consistent(d)
    ensures Consistent(Play(d, calls))
    decreases |calls|
  {
    if |calls| > 0 {
      AlwaysConsistent(d, calls[..|calls| - 1]);
      ConsistentStep(Play(d, calls[..|calls| - 1]), calls[|calls| - 1]);
    }
  }

  // ---------------------------------------------------------------- who may register, and what it leaves

  function Net(d: Desk, player: Id): int {
    Total(CreditNet, d.rows, player)
  }

  /** The tournament takes another registration now: not closed, a seat free, and an active one only within
      its late minutes, to the millisecond. */
  predicate TakesOneMore(t: Tournament, now: int) {
    && t.status != Closed && t.currentPlayers < t.maxPlayers
    && (t.status == Active && t.startedAt.Some? ==>
          t.lateMinutes > 0 && now <= t.startedAt.value + t.lateMinutes * 60_000)
  }

  /** A call registers the player exactly if the tournament takes one more, the player is not registered and
      the wallet, not overdrawn, with the line's available credit covers buy-in charged and fee. */
  lemma RegistersExactly(d: Desk, tid: Id, player: Id, line: Line, now: int)
    ensures var d' := Step(d, DoRegister(tid, player, line, now));
            var r := Registration(tid, player);
            var registers := && tid in d.tournaments && TakesOneMore(d.tournaments[tid], now)
                             && r !in d.registrations
                             && var t := d.tournaments[tid];
                                MayJoin(t.entryFee, BuyInCharged(t), Wallet(d, player), Available(d, player, line));
            && (registers ==> d'.registrations == d.registrations + [r])
            && (!registers ==> d' == d)
  {
    hide Total, Breakdown, Available, AfterRegister;
    if tid in d.tournaments && RegisterReply(d, tid, player, line, now) == Registered {
      RegisteredDesk(d, tid, player, now);
    }
  }

  lemma RegisteredDesk(d: Desk, tid: Id, player: Id, now: int)
    requires tid in d.tournaments
    ensures AfterRegister(d, tid, player, now).registrations == d.registrations + [Registration(tid, player)]
    ensures AfterRegister(d, tid, player, now).rows
         == (var t := d.tournaments[tid];
             d.rows + JoinRows(player, t.entryFee, BuyInCharged(t), Wallet(d, player), now))
  {
  }

  /** Funds decide nothing else: a refusal for want of funds means that, all else being right, the wallet is
      overdrawn or does not cover the price with the available credit, and then it is refused for that. */
  lemma RefusedForFunds(d: Desk, tid: Id, player: Id, line: Line, now: int)
    ensures var reply := RegisterReply(d, tid, player, line, now);
            && (reply == NegativeWallet
                <==> tid in d.tournaments && TakesOneMore(d.tournaments[tid], now) && Wallet(d, player) < 0)
            && (reply == Insufficient
                <==> && tid in d.tournaments && TakesOneMore(d.tournaments[tid], now) && Wallet(d, player) >= 0
                     && var t := d.tournaments[tid];
                        var price := t.entryFee + (if t.rummy then 0 else t.buyIn);
                        price > 0 && Wallet(d, player) + Available(d, player, line) < price)
  {
    hide Total, Breakdown, Available;
  }

  /** An accepted registration was affordable: the price leaves the wallet or goes onto the line and nothing
      is lost, the wallet does not go below 0, and credit is drawn only on a line that is on, with the wallet
      used up, within the limit. Conversely, a player whose wallet and available credit cover the price is
      never refused for want of funds. */
  lemma RegistrationAffordable(d: Desk, tid: Id, player: Id, line: Line, now: int)
    requires tid in d.tournaments && d.tournaments[tid].entryFee >= 0 && d.tournaments[tid].buyIn >= 0
    ensures var d' := Step(d, DoRegister(tid, player, line, now));
            var t := d.tournaments[tid];
            var price := t.entryFee + (if t.rummy then 0 else t.buyIn);
            && (|d'.registrations| > |d.registrations| ==>
                  && Wallet(d', player) >= 0
                  && (Wallet(d, player) - Wallet(d', player)) + (Net(d', player) - Net(d, player)) == price
                  && (Net(d', player) != Net(d, player) ==>
                        && Net(d', player) > Net(d, player) && line.enabled
                        && Wallet(d', player) == 0 && Net(d', player) <= line.limit))
            && (Wallet(d, player) >= 0 && Wallet(d, player) + Available(d, player, line) >= price
                && TakesOneMore(t, now) && Registration(tid, player) !in d.registrations ==>
                  d'.registrations == d.registrations + [Registration(tid, player)])
  {
    hide Total, Breakdown, Available, AfterRegister, JoinRows, AmountSum;
    var t := d.tournaments[tid];
    RegistersExactly(d, tid, player, line, now);
    if RegisterReply(d, tid, player, line, now) == Registered {
      RegisteredDesk(d, tid, player, now);
      AvailableIs(d, player, line);
      RegistrationLaw(d.rows, player, t.entryFee, BuyInCharged(t), line.limit, line.enabled, now);
    }
  }

  lemma AvailableIs(d: Desk, player: Id, line: Line)
    ensures Available(d, player, line)
         == Breakdown(line.limit, if line.enabled then Total(CreditNet, d.rows, player) else 0,
                      Total(WalletLoop, d.rows, player), line.enabled).available
  {
  }

  /** On the ledger the calls are the operations of the money runs, so what every run keeps holds of them. */
  lemma CallsAreMoneyOps(d: Desk, b: ClubStore.Books, tid: Id, player: Id, line: Line, now: int)
    requires b.rows == d.rows && tid in d.tournaments
    ensures TakesOneMore(d.tournaments[tid], now) && Registration(tid, player) !in d.registrations ==>
      var t := d.tournaments[tid];
      var joined := MoneyRuns.TournamentJoined(player, t.entryFee, BuyInCharged(t), line.limit, line.enabled, now);
      Step(d, DoRegister(tid, player, line, now)).rows == MoneyRuns.Apply(b, joined).rows
    ensures Registration(tid, player) in d.registrations ==>
      Step(d, DoCancel(tid, player, now)).rows
      == MoneyRuns.Apply(b, MoneyRuns.TournamentLeft(player, d.tournaments[tid].buyIn, now)).rows
  {
    hide Total, Breakdown, JoinRows;
  }

  /** The seat counter of that tournament, the registrations and, for an active one, the late entry are all a
      call touches besides the ledger: a late entry is active, adds the buy-in charged to what was invested
      and keeps an earlier start; cancelling leaves entries alone. */
  lemma OnlyThisTournament(d: Desk, c: Call)
    ensures var d' := Step(d, c);
            var r := Registration(c.tid, c.player);
            && d'.tournaments.Keys == d.tournaments.Keys
            && (forall x :: x in d.tournaments ==>
                  d'.tournaments[x] == d.tournaments[x].(currentPlayers := d'.tournaments[x].currentPlayers))
            && (forall x :: x in d.tournaments && x != c.tid ==> d'.tournaments[x] == d.tournaments[x])
            && (forall x :: x != r ==> (x in d'.entrants <==> x in d.entrants))
            && (forall x :: x in d.entrants && x != r ==> d'.entrants[x] == d.entrants[x])
            && (d' == d || c.DoCancel? || d.tournaments[c.tid].status != Active ==> d'.entrants == d.entrants)
            && (d' != d && c.DoRegister? && d.tournaments[c.tid].status == Active ==>
                  var t, before := d.tournaments[c.tid], if r in d.entrants then d.entrants[r].invested else 0;
                  && r in d'.entrants && d'.entrants[r].active && !d'.entrants[r].exited
                  && d'.entrants[r].invested == before + (if t.rummy then 0 else t.buyIn)
                  && d'.entrants[r].startedAt
                     == if r in d.entrants && d.entrants[r].startedAt.Some? then d.entrants[r].startedAt
                        else if t.startedAt.Some? then t.startedAt else Some(c.now))
  {
    hide Total, Breakdown, Available, JoinRows, Unregister;
  }

  /** Registering and then cancelling costs the player the registration fee plus the buy-in charged,
      less the buy-in refunded; it costs exactly the fee if and only if the tournament is not rummy
      or has no positive buy-in. */
  lemma RegisterThenCancel(d: Desk, tid: Id, player: Id, line: Line, now: int, later: int)
    requires RegisterReply(d, tid, player, line, now) == Registered
    requires d.tournaments[tid].entryFee >= 0 && d.tournaments[tid].buyIn >= 0
    ensures var t := d.tournaments[tid];
            var d' := Step(Step(d, DoRegister(tid, player, line, now)), DoCancel(tid, player, later));
            && Registration(tid, player) !in d'.registrations
            && Position(d', player) - Position(d, player) == -t.entryFee - BuyInCharged(t) + t.buyIn
            && (Position(d', player) - Position(d, player) == -t.entryFee <==> !t.rummy || t.buyIn == 0)
  {
    hide Total, JoinRows, LeaveRows, PriceSplit, Unregister, Available;
    PriceSplitTotal(d.tournaments[tid].entryFee, BuyInCharged(d.tournaments[tid]), Wallet(d, player));
    var t := d.tournaments[tid];
    JoinEffect(d.rows, player, t.entryFee, BuyInCharged(t), Wallet(d, player), now, player);
    var mid := AfterRegister(d, tid, player, now);
    LeaveEffect(WalletLoop, mid.rows, player, t.buyIn, later, player);
    LeaveEffect(CreditNet, mid.rows, player, t.buyIn, later, player);
    UnregisterAll(mid.registrations, Registration(tid, player));
  }

  lemma PriceSplitTotal(entryFee: int, buyIn: int, wallet: int)
    ensures var s := PriceSplit(entryFee, buyIn, wallet); s.walletFee + s.walletBuyIn + s.credit == entryFee + buyIn
  {
  }

  lemma {:induction false} UnregisterAll(a: seq<Registration>, r: Registration)
    ensures r !in Unregister(a, r)
  {
    if |a| > 0 {
      UnregisterAll(a[1..], r);
    }
  }

  const RUMMY := Tournament(RegistrationOpen, None, 0, 9, 0, true, 50, 10)

  function RummyDesk(): Desk {
    Desk([Plain("p", Deposit, 10, 0)], map["t" := RUMMY], [], map[])
  }

  lemma RummyAccepts()
    ensures Wallet(RummyDesk(), "p") == 10 == Position(RummyDesk(), "p")
    ensures RegisterReply(RummyDesk(), "t", "p", Line(0, false), 1) == Registered
  {
    TotalOne(WalletLoop, Plain("p", Deposit, 10, 0), "p");
    TotalOne(CreditNet, Plain("p", Deposit, 10, 0), "p");
  }

  /** A rummy tournament with a 50 buy-in and a 10 fee: registering charges the fee, cancelling pays
      the uncharged buy-in out, and a player who had 10 ends with 50. */
  lemma RummyRefundsUnchargedBuyIn()
    ensures Position(RummyDesk(), "p") == 10
    ensures Position(Step(Step(RummyDesk(), DoRegister("t", "p", Line(0, false), 1)), DoCancel("t", "p", 2)), "p") == 50
  {
    RummyAccepts();
    RegisterThenCancel(RummyDesk(), "t", "p", Line(0, false), 1, 2);
  }
}
