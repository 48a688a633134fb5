/** The club database as the money services change it: every service call is a method that takes
    its row lock, checks, writes statement by statement, and commits or rolls back. */
module ClubStore {
  import opened Basics
  import opened Ledger
  import opened Postings

  datatype Table = Table(id: Id, number: int, seats: int)

  datatype RakeRecord = RakeRecord(tableNumber: int, amount: int)

  /** Everything the writers leave behind outside their own request row. */
  datatype Books = Books(rows: seq<Row>, waitlist: seq<Entry>, tables: seq<Table>, rakes: seq<RakeRecord>)

  datatype RequestStatus = Pending | Approved | Refused

  datatype BuyInRequest = BuyInRequest(player: Id, requested: int, status: RequestStatus)

  datatype BuyOutRequest = BuyOutRequest(player: Option<Id>, table: Option<int>, status: RequestStatus)

  datatype CreditRequest = CreditRequest(player: Id, amount: int, limit: int, visible: bool, status: RequestStatus)

  const CREDIT_CAP := 100_000_000_00   // 100,000,000 rupees in paise

  datatype Outcome =
    | Done | NotFound | AlreadyProcessed | MissingPlayer | PlayerNotFound | InvalidAmount
    | InvalidTable | NotSeated | CreditLocked | PendingExists | NotApproved | QueryFailed

  // ---------------------------------------------------------------- waitlist and tables

  function CancelEntry(e: Entry): Entry {
    e.(status := WaitCancelled, table := None, seatedAt := None)
  }

  /** UPDATE waitlist_entries ... WHERE player AND status = 'SEATED' [AND table_number = n]. */
  predicate Vacates(e: Entry, player: Id, table: Option<int>) {
    e.player == player && e.status == Seated && (table.Some? ==> e.table == table)
  }

  function CancelSeats(waitlist: seq<Entry>, player: Id, table: Option<int>): (w: seq<Entry>)
    ensures |w| == |waitlist|
    ensures forall i :: 0 <= i < |w| ==>
      w[i] == if waitlist[i].player == player && waitlist[i].status == Seated
                 && (table == None || table == waitlist[i].table)
              then Entry(player, WaitCancelled, None, None) else waitlist[i]
  {
    if |waitlist| == 0 then []
    else
      var e := waitlist[0];
      [if Vacates(e, player, table) then CancelEntry(e) else e] + CancelSeats(waitlist[1..], player, table)
  }

  function CancelAll(waitlist: seq<Entry>, list: seq<Settlement>): seq<Entry>
    decreases |list|
  {
    if |list| == 0 then waitlist
    else CancelSeats(CancelAll(waitlist, list[..|list| - 1]), list[|list| - 1].player, None)
  }

  /** The SEATED row the LIMIT 1 queries return. */
  function SeatOf(waitlist: seq<Entry>, player: Id): (e: Option<Entry>)
    ensures e.Some? ==> e.value in waitlist && e.value.player == player && e.value.status == Seated
    ensures e.None? ==> forall i :: 0 <= i < |waitlist| ==>
      !(waitlist[i].player == player && waitlist[i].status == Seated)
  {
    if |waitlist| == 0 then None
    else if waitlist[0].player == player && waitlist[0].status == Seated then Some(waitlist[0])
    else SeatOf(waitlist[1..], player)
  }

  predicate SeatedAt(waitlist: seq<Entry>, player: Id, table: int) {
    exists i :: 0 <= i < |waitlist| && Vacates(waitlist[i], player, Some(table))
  }

  predicate IsFirst(tables: seq<Table>, id: Id, i: int) {
    0 <= i < |tables| && tables[i].id == id && forall k :: 0 <= k < i ==> tables[k].id != id
  }

  function FreeSeat(tables: seq<Table>, number: int): (t: seq<Table>)
    ensures |t| == |tables|
    ensures forall i :: 0 <= i < |t| ==>
      t[i] == if tables[i].number == number then tables[i].(seats := Max(0, tables[i].seats - 1)) else tables[i]
  {
    if |tables| == 0 then []
    else
      var a := tables[0];
      [if a.number == number then a.(seats := Max(0, a.seats - 1)) else a] + FreeSeat(tables[1..], number)
  }

  function EmptyTable(tables: seq<Table>, id: Id): (t: seq<Table>)
    ensures |t| == |tables|
    ensures forall i :: 0 <= i < |t| ==>
      t[i] == if tables[i].id == id then tables[i].(seats := 0) else tables[i]
  {
    if |tables| == 0 then []
    else [if tables[0].id == id then tables[0].(seats := 0) else tables[0]] + EmptyTable(tables[1..], id)
  }

  /** The number of the first row with that id. */
  function NumberOf(tables: seq<Table>, id: Id): (number: Option<int>)
    ensures number.None? <==> forall i :: 0 <= i < |tables| ==> tables[i].id != id
    ensures number.Some? ==> exists i :: IsFirst(tables, id, i) && number.value == tables[i].number
  {
    if |tables| == 0 then None
    else if tables[0].id == id then Some(tables[0].number)
    else NumberOf(tables[1..], id)
  }

  // ---------------------------------------------------------------- what a committed call leaves

  function AfterBuyIn(b: Books, player: Id, amount: int, now: int): Books {
    b.(rows := b.rows + BuyInRows(player, amount, now))
  }

  function AfterCredit(b: Books, player: Id, amount: int, limit: int, now: int): Books {
    b.(rows := b.rows + CreditRows(player, CreditDraw(SeatOf(b.waitlist, player), amount, limit), now))
  }

  function AfterBuyOut(b: Books, player: Id, table: Option<int>, amount: int, now: int): Books {
    b.(rows := b.rows + BuyOutRows(player, amount, Owed(b.rows, player), now),
       waitlist := CancelSeats(b.waitlist, player, None),
       tables := if HasTable(table) then FreeSeat(b.tables, table.value) else b.tables)
  }

  /** dto.amount || requested_amount. */
  function EffectiveAmount(dtoAmount: int, requested: int): int {
    if dtoAmount != 0 then dtoAmount else requested
  }

  function GrantedLimit(limit: Option<int>, amount: int): int {
    if limit.Some? then limit.value else amount
  }

  function DrawFor(waitlist: seq<Entry>, r: CreditRequest, limit: Option<int>): int {
    CreditDraw(SeatOf(waitlist, r.player), r.amount, GrantedLimit(limit, r.amount))
  }

  /** A table number that is present and truthy. */
  predicate HasTable(table: Option<int>) {
    table.Some? && table.value != 0
  }

  function AfterSettleAll(b: Books, tableId: Id, list: seq<Settlement>, rake: int, now: int): Books {
    var number := NumberOf(b.tables, tableId);
    b.(rows := SettledRows(b.rows, list, now),
       waitlist := CancelAll(b.waitlist, list),
       tables := EmptyTable(b.tables, tableId),
       rakes := if rake > 0 && HasTable(number) then b.rakes + [RakeRecord(number.value, rake)] else b.rakes)
  }

  function AfterStaffBuyOut(b: Books, player: Id, table: int, amount: int, now: int): Books {
    b.(rows := b.rows + BuyOutRows(player, Max(0, amount), Owed(b.rows, player), now),
       waitlist := CancelSeats(b.waitlist, player, Some(table)),
       tables := FreeSeat(b.tables, table))
  }

  /** The Table Buy Out row written just before the credit query does not move the credit owed. */
  lemma BuyOutRowKeepsOwed(rows: seq<Row>, player: Id, amount: int, now: int)
    ensures Owed(rows + [Plain(player, TableBuyOut, amount, now)], player) == Owed(rows, player)
  {
    TotalAppend(CreditNet, rows, [Plain(player, TableBuyOut, amount, now)], player);
    TotalOne(CreditNet, Plain(player, TableBuyOut, amount, now), player);
  }

  // ---------------------------------------------------------------- the database

  datatype Image = Image(
    books: Books,
    buyIns: map<Id, BuyInRequest>,
    buyOuts: map<Id, BuyOutRequest>,
    credits: map<Id, CreditRequest>)

  /** `fault` in the methods below is the number of write statements the database executes before
      one of them throws; a value past the last statement means none does. */
  class Store {
    var rows: seq<Row>
    var waitlist: seq<Entry>
    var tables: seq<Table>
    var rakes: seq<RakeRecord>
    var buyIns: map<Id, BuyInRequest>
    var buyOuts: map<Id, BuyOutRequest>
    var credits: map<Id, CreditRequest>
    var creditEnabled: map<Id, bool>   // the players of the club

    function Contents(): Books
      reads this
    {
      Books(rows, waitlist, tables, rakes)
    }

    function Snapshot(): Image
      reads this
    {
      Image(Contents(), buyIns, buyOuts, credits)
    }

    method Rollback(image: Image)
      modifies this
      ensures Snapshot() == image && creditEnabled == old(creditEnabled)
    {
      rows, waitlist, tables, rakes := image.books.rows, image.books.waitlist, image.books.tables, image.books.rakes;
      buyIns, buyOuts, credits := image.buyIns, image.buyOuts, image.credits;
    }

    /** approveBuyInRequest. A zero or missing amount in the call falls back to the requested one. */
    method ApproveBuyIn(requestId: Id, dtoAmount: int, now: int, fault: nat) returns (outcome: Outcome)
      modifies this
      ensures creditEnabled == old(creditEnabled)
      ensures outcome != Done ==> Snapshot() == old(Snapshot())
      ensures outcome == Done ==>
        && requestId in old(buyIns)
        && var r := old(buyIns)[requestId];
           Snapshot() == old(Snapshot()).(
             books := AfterBuyIn(old(Contents()), r.player, EffectiveAmount(dtoAmount, r.requested), now),
             buyIns := old(buyIns)[requestId := r.(status := Approved)])
      ensures outcome == (if requestId !in old(buyIns) || old(buyIns)[requestId].player !in creditEnabled then NotFound
                          else if old(buyIns)[requestId].status != Pending then AlreadyProcessed
                          else if EffectiveAmount(dtoAmount, old(buyIns)[requestId].requested) <= 0 then InvalidAmount
                          else if fault < 3 then QueryFailed else Done)
    {
      var saved := Snapshot();
      if requestId !in buyIns || buyIns[requestId].player !in creditEnabled {
        return NotFound;
      }
      var row := buyIns[requestId];
      if row.status != Pending {
        return AlreadyProcessed;
      }
      var amount := EffectiveAmount(dtoAmount, row.requested);
      if amount <= 0 {
        return InvalidAmount;
      }
      if fault > 0 {
        buyIns := buyIns[requestId := row.(status := Approved)];
        if fault > 1 {
          rows := rows + [Plain(row.player, ClubBuyIn, amount, now)];
          if fault > 2 {
            rows := rows + [Plain(row.player, TableBuyIn, amount, now)];
            assert rows == old(rows) + BuyInRows(row.player, amount, now);
            return Done;
          }
        }
      }
      Rollback(saved);
      return QueryFailed;
    }

    /** rejectBuyInRequest. */
    method RejectBuyIn(requestId: Id, fault: nat) returns (outcome: Outcome)
      modifies this`buyIns
      ensures outcome == (if requestId !in old(buyIns) then NotFound
                          else if old(buyIns)[requestId].status != Pending then AlreadyProcessed
                          else if fault < 1 then QueryFailed else Done)
      ensures buyIns == if outcome == Done then old(buyIns)[requestId := old(buyIns)[requestId].(status := Refused)]
                        else old(buyIns)
    {
      if requestId !in buyIns {
        return NotFound;
      }
      if buyIns[requestId].status != Pending {
        return AlreadyProcessed;
      }
      if fault == 0 {
        return QueryFailed;
      }
      buyIns := buyIns[requestId := buyIns[requestId].(status := Refused)];
      return Done;
    }

    /** approveBuyOutRequest; `amount` is the settled amount after the fallbacks. The player's seat is
        not looked at: every SEATED row of the player is cancelled, whether or not there is one. */
    method ApproveBuyOut(requestId: Id, amount: int, now: int, fault: nat)
      returns (outcome: Outcome, creditSettled: int)
      modifies this
      ensures creditEnabled == old(creditEnabled)
      ensures outcome != Done ==> Snapshot() == old(Snapshot())
      ensures outcome == Done ==>
        && requestId in old(buyOuts)
        && var r := old(buyOuts)[requestId];
           && r.player.Some?
           && creditSettled == Owed(old(rows), r.player.value)
           && Snapshot() == old(Snapshot()).(
                books := AfterBuyOut(old(Contents()), r.player.value, r.table, amount, now),
                buyOuts := old(buyOuts)[requestId := r.(status := Approved)])
      ensures outcome == (if requestId !in old(buyOuts) then NotFound
                          else if old(buyOuts)[requestId].status != Pending then AlreadyProcessed
                          else if old(buyOuts)[requestId].player.None? then MissingPlayer
                          else if amount < 0 then InvalidAmount
                          else if fault < (if Owed(old(rows), old(buyOuts)[requestId].player.value) > 0 then 4 else 3)
                                            + (if HasTable(old(buyOuts)[requestId].table) then 1 else 0)
                          then QueryFailed else Done)
    {
      var saved := Snapshot();
      creditSettled := 0;
      if requestId !in buyOuts {
        return NotFound, 0;
      }
      var request := buyOuts[requestId];
      if request.status != Pending {
        return AlreadyProcessed, 0;
      }
      if request.player.None? {
        return MissingPlayer, 0;
      }
      var player := request.player.value;
      if amount < 0 {
        return InvalidAmount, 0;
      }
      var left := fault;
      if left == 0 {
        Rollback(saved);
        return QueryFailed, 0;
      }
      buyOuts := buyOuts[requestId := request.(status := Approved)];
      var creditOwed := Owed(rows, player);
      left := left - 1;
      if left == 0 {
        Rollback(saved);
        return QueryFailed, 0;
      }
      rows := rows + [Plain(player, TableBuyOut, amount, now)];
      left := left - 1;
      if creditOwed > 0 {
        if left == 0 {
          Rollback(saved);
          return QueryFailed, 0;
        }
        rows := rows + [Plain(player, Debit, creditOwed, now)];
        left := left - 1;
      }
      assert rows == old(rows) + BuyOutRows(player, amount, creditOwed, now);
      if left == 0 {
        Rollback(saved);
        return QueryFailed, 0;
      }
      waitlist := CancelSeats(waitlist, player, None);
      left := left - 1;
      if request.table.Some? && request.table.value != 0 {
        if left == 0 {
          Rollback(saved);
          return QueryFailed, 0;
        }
        tables := FreeSeat(tables, request.table.value);
      }
      return Done, creditOwed;
    }

    /** rejectBuyOutRequest. */
    method RejectBuyOut(requestId: Id, fault: nat) returns (outcome: Outcome)
      modifies this`buyOuts
      ensures outcome == (if requestId !in old(buyOuts) then NotFound
                          else if old(buyOuts)[requestId].status != Pending then AlreadyProcessed
                          else if fault < 1 then QueryFailed else Done)
      ensures buyOuts == if outcome == Done then old(buyOuts)[requestId := old(buyOuts)[requestId].(status := Refused)]
                         else old(buyOuts)
    {
      if requestId !in buyOuts {
        return NotFound;
      }
      if buyOuts[requestId].status != Pending {
        return AlreadyProcessed;
      }
      if fault == 0 {
        return QueryFailed;
      }
      buyOuts := buyOuts[requestId := buyOuts[requestId].(status := Refused)];
      return Done;
    }

    /** The body of the settlement loop for one entry, inside the caller's transaction; when a
        statement throws the caller rolls back. */
    method SettleOne(s: Settlement, now: int, fault: nat) returns (ok: bool, creditOwed: int, left: nat)
      modifies this`rows, this`waitlist
      ensures fault >= 3 ==> ok
      ensures ok ==>
        && rows == old(rows) + BuyOutRows(s.player, s.amount, Owed(old(rows), s.player), now)
        && waitlist == CancelSeats(old(waitlist), s.player, None)
        && creditOwed == Owed(old(rows), s.player)
        && fault - 3 <= left
    {
      left, creditOwed := fault, 0;
      if left == 0 {
        return false, 0, 0;
      }
      rows := rows + [Plain(s.player, TableBuyOut, s.amount, now)];
      left := left - 1;
      BuyOutRowKeepsOwed(old(rows), s.player, s.amount, now);
      creditOwed := Owed(rows, s.player);
      if creditOwed > 0 {
        if left == 0 {
          return false, 0, 0;
        }
        rows := rows + [Plain(s.player, Debit, creditOwed, now)];
        left := left - 1;
      }
      assert rows == old(rows) + BuyOutRows(s.player, s.amount, creditOwed, now);
      if left == 0 {
        return false, 0, 0;
      }
      waitlist := CancelSeats(waitlist, s.player, None);
      return true, creditOwed, left - 1;
    }

    /** settleAllPlayersOnTable: one transaction over the whole settlement list. */
    method SettleAllPlayersOnTable(tableId: Id, settlements: seq<Settlement>, rakeAmount: int, now: int, fault: nat)
      returns (outcome: Outcome, settled: seq<int>)
      modifies this
      ensures creditEnabled == old(creditEnabled)
      ensures outcome == Done || outcome == QueryFailed
      ensures fault >= 3 * |settlements| + 2 ==> outcome == Done
      ensures outcome != Done ==> Snapshot() == old(Snapshot())
      ensures outcome == Done ==>
        && Snapshot()
           == old(Snapshot()).(books := AfterSettleAll(old(Contents()), tableId, settlements, rakeAmount, now))
        && |settled| == |settlements|
        && forall i :: 0 <= i < |settled| ==> settled[i] == CreditSettled(old(rows), settlements, now, i)
    {
      hide BuyOutRows, CancelSeats, Owed, EmptyTable, NumberOf;
      var saved := Snapshot();
      settled := [];
      var tableNumber := NumberOf(tables, tableId);
      var left := fault;
      var i := 0;
      while i < |settlements|
        invariant 0 <= i <= |settlements|
        invariant rows == SettledRows(old(rows), settlements[..i], now)
        invariant waitlist == CancelAll(old(waitlist), settlements[..i])
        invariant tables == old(tables) && rakes == old(rakes) && creditEnabled == old(creditEnabled)
        invariant buyIns == old(buyIns) && buyOuts == old(buyOuts) && credits == old(credits)
        invariant |settled| == i
        invariant forall k :: 0 <= k < i ==> settled[k] == CreditSettled(old(rows), settlements, now, k)
        invariant fault - 3 * i <= left
      {
        var s := settlements[i];
        assert settlements[..i + 1][..i] == settlements[..i];
        var ok, creditOwed;
        ok, creditOwed, left := SettleOne(s, now, left);
        if !ok {
          Rollback(saved);
          return QueryFailed, [];
        }
        settled := settled + [creditOwed];
        i := i + 1;
      }
      assert settlements[..i] == settlements;
      if rakeAmount > 0 && tableNumber.Some? && tableNumber.value != 0 {
        if left == 0 {
          Rollback(saved);
          return QueryFailed, [];
        }
        rakes := rakes + [RakeRecord(tableNumber.value, rakeAmount)];
        left := left - 1;
      }
      if left == 0 {
        Rollback(saved);
        return QueryFailed, [];
      }
      tables := EmptyTable(tables, tableId);
      return Done, settled;
    }

    /** settleStaffManualTableBuyOut: no request row, but the player must be seated at that table. */
    method StaffBuyOut(player: Id, tableNumber: int, amount: int, now: int, fault: nat)
      returns (outcome: Outcome, finalAmount: int, creditSettled: int)
      modifies this
      ensures creditEnabled == old(creditEnabled)
      ensures outcome != Done ==> Snapshot() == old(Snapshot()) && finalAmount == 0 && creditSettled == 0
      ensures outcome == Done ==> finalAmount == Max(0, amount) && creditSettled == Owed(old(rows), player)
      ensures outcome == Done ==>
        && player != "" && tableNumber >= 1 && SeatedAt(old(waitlist), player, tableNumber)
        && Snapshot() == old(Snapshot()).(books := AfterStaffBuyOut(old(Contents()), player, tableNumber, amount, now))
      ensures outcome == (if player == "" then MissingPlayer
                          else if tableNumber < 1 then InvalidTable
                          else if !SeatedAt(old(waitlist), player, tableNumber) then NotSeated
                          else if fault < 3 + (if Owed(old(rows), player) > 0 then 1 else 0) then QueryFailed else Done)
    {
      hide Total, CancelSeats, FreeSeat, SeatedAt;
      var saved := Snapshot();
      finalAmount := Max(0, amount);
      if player == "" {
        return MissingPlayer, 0, 0;
      }
      if tableNumber < 1 {
        return InvalidTable, 0, 0;
      }
      if !SeatedAt(waitlist, player, tableNumber) {
        return NotSeated, 0, 0;
      }
      var left := fault;
      if left == 0 {
        Rollback(saved);
        return QueryFailed, 0, 0;
      }
      rows := rows + [Plain(player, TableBuyOut, finalAmount, now)];
      left := left - 1;
      BuyOutRowKeepsOwed(old(rows), player, finalAmount, now);
      var creditOwed := Owed(rows, player);
      if creditOwed > 0 {
        if left == 0 {
          Rollback(saved);
          return QueryFailed, 0, 0;
        }
        rows := rows + [Plain(player, Debit, creditOwed, now)];
        left := left - 1;
      }
      assert rows == old(rows) + BuyOutRows(player, finalAmount, creditOwed, now);
      if left < 2 {
        Rollback(saved);
        return QueryFailed, 0, 0;
      }
      waitlist := CancelSeats(waitlist, player, Some(tableNumber));
      tables := FreeSeat(tables, tableNumber);
      return Done, finalAmount, creditOwed;
    }

    /** CreditRequestsService.create: at most one pending request per player. */
    method CreateCredit(requestId: Id, player: Id, amount: int, fault: nat) returns (outcome: Outcome)
      requires requestId !in credits
      modifies this`credits
      ensures outcome == (if amount <= 0 || amount > CREDIT_CAP then InvalidAmount
                          else if player !in creditEnabled then PlayerNotFound
                          else if !creditEnabled[player] then CreditLocked
                          else if exists id :: id in old(credits) && old(credits)[id].player == player
                                               && old(credits)[id].status == Pending
                          then PendingExists
                          else if fault < 1 then QueryFailed else Done)
      ensures credits == if outcome == Done
                         then old(credits)[requestId := CreditRequest(player, amount, amount, true, Pending)]
                         else old(credits)
    {
      if amount <= 0 || amount > CREDIT_CAP {
        return InvalidAmount;
      }
      if player !in creditEnabled {
        return PlayerNotFound;
      }
      if !creditEnabled[player] {
        return CreditLocked;
      }
      if exists id :: id in credits && credits[id].player == player && credits[id].status == Pending {
        return PendingExists;
      }
      if fault == 0 {
        return QueryFailed;
      }
      credits := credits[requestId := CreditRequest(player, amount, amount, true, Pending)];
      return Done;
    }

    /** CreditRequestsService.approve; a missing limit means the requested amount. */
    method ApproveCredit(requestId: Id, limit: Option<int>, now: int, fault: nat) returns (outcome: Outcome)
      modifies this
      ensures creditEnabled == old(creditEnabled)
      ensures outcome != Done ==> Snapshot() == old(Snapshot())
      ensures outcome == Done ==>
        && requestId in old(credits)
        && var r := old(credits)[requestId];
           var l := GrantedLimit(limit, r.amount);
           Snapshot() == old(Snapshot()).(
             books := AfterCredit(old(Contents()), r.player, r.amount, l, now),
             credits := old(credits)[requestId := r.(limit := l, visible := true, status := Approved)])
      ensures outcome == (if requestId !in old(credits) then NotFound
                          else if old(credits)[requestId].status != Pending then AlreadyProcessed
                          else if old(credits)[requestId].player !in creditEnabled then PlayerNotFound
                          else if !creditEnabled[old(credits)[requestId].player] then CreditLocked
                          else if limit.Some? && (limit.value < 0 || limit.value > CREDIT_CAP) then InvalidAmount
                          else if fault < 1 + |CreditRows(old(credits)[requestId].player,
                                                          DrawFor(old(waitlist), old(credits)[requestId], limit), now)|
                          then QueryFailed else Done)
    {
      var saved := Snapshot();
      if requestId !in credits {
        return NotFound;
      }
      var request := credits[requestId];
      if request.status != Pending {
        return AlreadyProcessed;
      }
      if request.player !in creditEnabled {
        return PlayerNotFound;
      }
      if !creditEnabled[request.player] {
        return CreditLocked;
      }
      if limit.Some? && (limit.value < 0 || limit.value > CREDIT_CAP) {
        return InvalidAmount;
      }
      var newLimit := GrantedLimit(limit, request.amount);
      if fault == 0 {
        return QueryFailed;
      }
      credits := credits[requestId := request.(limit := newLimit, visible := true, status := Approved)];
      var draw := CreditDraw(SeatOf(waitlist, request.player), request.amount, newLimit);
      if draw > 0 {
        if fault == 1 {
          Rollback(saved);
          return QueryFailed;
        }
        rows := rows + [Plain(request.player, Credit, draw, now)];
        if fault == 2 {
          Rollback(saved);
          return QueryFailed;
        }
        rows := rows + [Marked(request.player, TableBuyIn, draw, now)];
      }
      assert rows == old(rows) + CreditRows(request.player, draw, now);
      return Done;
    }

    /** CreditRequestsService.deny. */
    method DenyCredit(requestId: Id, fault: nat) returns (outcome: Outcome)
      modifies this`credits
      ensures outcome == (if requestId !in old(credits) then NotFound
                          else if old(credits)[requestId].status != Pending then AlreadyProcessed
                          else if fault < 1 then QueryFailed else Done)
      ensures credits == if outcome == Done
                         then
                           var r := old(credits)[requestId];
                           old(credits)[requestId := r.(status := Refused, visible := true, limit := 0)]
                         else old(credits)
    {
      if requestId !in credits {
        return NotFound;
      }
      if credits[requestId].status != Pending {
        return AlreadyProcessed;
      }
      if fault == 0 {
        return QueryFailed;
      }
      credits := credits[requestId := credits[requestId].(status := Refused, visible := true, limit := 0)];
      return Done;
    }

    /** CreditRequestsService.updateLimit: approved requests only. */
    method UpdateLimit(requestId: Id, limit: int, fault: nat) returns (outcome: Outcome)
      modifies this`credits
      ensures outcome == (if limit < 0 || limit > CREDIT_CAP then InvalidAmount
                          else if requestId !in old(credits) then NotFound
                          else if old(credits)[requestId].status != Approved then NotApproved
                          else if fault < 1 then QueryFailed else Done)
      ensures credits == if outcome == Done
                         then old(credits)[requestId := old(credits)[requestId].(limit := limit)]
                         else old(credits)
    {
      if limit < 0 || limit > CREDIT_CAP {
        return InvalidAmount;
      }
      if requestId !in credits {
        return NotFound;
      }
      if credits[requestId].status != Approved {
        return NotApproved;
      }
      if fault == 0 {
        return QueryFailed;
      }
      credits := credits[requestId := credits[requestId].(limit := limit)];
      return Done;
    }

    /** CreditRequestsService.updateVisibility, whatever the status. */
    method UpdateVisibility(requestId: Id, visible: bool, fault: nat) returns (outcome: Outcome)
      modifies this`credits
      ensures outcome == (if requestId !in old(credits) then NotFound else if fault < 1 then QueryFailed else Done)
      ensures credits == if outcome == Done
                         then old(credits)[requestId := old(credits)[requestId].(visible := visible)]
                         else old(credits)
    {
      if requestId !in credits {
        return NotFound;
      }
      if fault == 0 {
        return QueryFailed;
      }
      credits := credits[requestId := credits[requestId].(visible := visible)];
      return Done;
    }
  }
}
