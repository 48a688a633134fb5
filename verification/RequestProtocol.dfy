/** Approve, reject and create calls on buy-in, buy-out and credit requests, and the settlements, as
    concurrent database transactions: lock rows, check, read, write, commit or roll back. Writes are
    invisible to other transactions until the commit; every read sees the committed state. The updates
    of a credit request's limit and visibility run beside them without a lock: they read the whole row
    and save it later. */
module RequestProtocol {
  import opened Basics
  import opened Ledger
  import opened Postings
  import opened ClubStore

  datatype Kind = BuyInKind | BuyOutKind | CreditKind

  /** `limit` and `visible` matter for credit requests only. */
  datatype Request = Request(kind: Kind, player: Id, amount: int, limit: int, visible: bool, status: RequestStatus)

  datatype Job =
    | ApproveBuyIn(rid: Id, dtoAmount: int)
    | ApproveBuyOut(rid: Id, settled: int)
    | ApproveCredit(rid: Id, newLimit: Option<int>)
    | Refuse(rid: Id)                                   // reject or deny
    | CreateCredit(rid: Id, player: Id, amount: int)
    | StaffBuyOut(player: Id, table: int, settled: int) // settleStaffManualTableBuyOut: no request row
    | SettleAll(list: seq<Settlement>)                  // settleAllPlayersOnTable

  /** What a transaction read before deciding which rows to post. */
  datatype Basis = NoRead | OwedRead(owed: int) | SeatRead(seat: Option<Entry>, limit: int)

  /** The rows one transaction posts, with the request they belong to. */
  datatype Posting = Posting(origin: Option<Id>, player: Id, amount: int, now: int, basis: Basis)

  function RowsOf(p: Posting): seq<Row> {
    match p.basis
    case NoRead => BuyInRows(p.player, p.amount, p.now)
    case OwedRead(owed) => BuyOutRows(p.player, p.amount, owed, p.now)
    case SeatRead(seat, limit) => CreditRows(p.player, CreditDraw(seat, p.amount, limit), p.now)
  }

  /** The private writes of a transaction: a new version of a request row, rows to insert, seats
      to cancel. */
  datatype Write = Write(request: Option<(Id, Request)>, postings: seq<Posting>, vacated: Option<int>)

  /** A whole-table settlement collects its postings entry by entry, with one read for each. */
  datatype Phase =
    | Started | HoldsRequest | HoldsPlayer | HoldsClub
    | Collecting(postings: seq<Posting>)
    | Ready(write: Write)
    | Finished(committed: bool)

  /** `seen` is the request row as the transaction read it when it got the lock. A row lock is held
      from the locking read to the end of the transaction, so it is part of the phase. */
  datatype Txn = Txn(job: Job, now: int, seen: Option<Request>, phase: Phase)

  /** updateLimit or updateVisibility between its read of the request and its save. */
  datatype Change = LimitTo(limit: int) | VisibleTo(visible: bool)

  datatype Update = Update(rid: Id, seen: Request, change: Change, saved: bool)

  /** The row the save writes: every column as it was read, but for the one changed. */
  function Saved(u: Update): Request {
    match u.change
    case LimitTo(limit) => u.seen.(limit := limit)
    case VisibleTo(visible) => u.seen.(visible := visible)
  }

  datatype State = State(
    requests: map<Id, Request>,
    used: set<Id>,                 // request ids handed out so far
    other: seq<Row>,               // ledger rows of every other writer
    log: seq<Posting>,             // committed postings, in commit order
    waitlist: seq<Entry>,
    players: map<Id, bool>,        // credit enabled?
    txns: map<nat, Txn>,
    updates: map<nat, Update>)     // updates that have read, saved or not

  function Flatten(log: seq<Posting>): seq<Row> {
    if |log| == 0 then [] else Flatten(log[..|log| - 1]) + RowsOf(log[|log| - 1])
  }

  function LedgerOf(s: State): seq<Row> {
    s.other + Flatten(s.log)
  }

  datatype Step =
    | Begin(t: nat, job: Job, now: int)
    | LockRequest(t: nat)
    | LockPlayer(t: nat)
    | LockClub(t: nat)
    | Read(t: nat)
    | Commit(t: nat)
    | Rollback(t: nat)
    | NewRequest(rid: Id, request: Request)      // a player files a buy-in or buy-out request
    | OtherRows(rows: seq<Row>)
    | MoveSeats(waitlist: seq<Entry>)
    | SetCredit(player: Id, enabled: bool)
    | ReadUpdate(k: nat, rid: Id, change: Change)
    | Save(k: nat)

  predicate HasRequest(job: Job) {
    !job.CreateCredit? && !job.StaffBuyOut? && !job.SettleAll?
  }

  predicate InFlight(x: Txn) {
    !x.phase.Finished?
  }

  predicate KindFits(job: Job, kind: Kind) {
    match job
    case ApproveBuyIn(_, _) => kind == BuyInKind
    case ApproveBuyOut(_, _) => kind == BuyOutKind
    case ApproveCredit(_, _) => kind == CreditKind
    case _ => true
  }

  predicate AmountFits(job: Job, r: Request) {
    match job
    case ApproveBuyIn(_, dto) => EffectiveAmount(dto, r.amount) > 0
    case ApproveBuyOut(_, settled) => settled >= 0
    case _ => true
  }

  predicate LimitFits(job: Job) {
    match job
    case ApproveCredit(_, limit) => limit.Some? ==> 0 <= limit.value <= CREDIT_CAP
    case CreateCredit(_, _, amount) => 0 < amount <= CREDIT_CAP
    case _ => true
  }

  /** The request row passes the checks made right after it was locked. */
  predicate Admits(job: Job, r: Request) {
    r.status == Pending && KindFits(job, r.kind) && AmountFits(job, r)
  }

  predicate PendingCredit(s: State, rid: Id, player: Id) {
    && rid in s.requests && s.requests[rid].kind == CreditKind
    && s.requests[rid].status == Pending && s.requests[rid].player == player
  }

  predicate LocksPlayer(job: Job) {
    job.ApproveCredit? || job.CreateCredit?
  }

  /** The queries that lock a credit request or a player for credit join the club, so they lock its row
      as well, after the row they are for. */
  predicate LocksClub(x: Txn) {
    x.job.ApproveCredit? || x.job.CreateCredit? || (x.job.Refuse? && x.seen.Some? && x.seen.value.kind == CreditKind)
  }

  /** Holds the row lock on its request. */
  predicate OwnsRequest(x: Txn) {
    HasRequest(x.job) && (x.phase.HoldsRequest? || x.phase.HoldsClub? || x.phase.HoldsPlayer? || x.phase.Ready?)
  }

  /** Holds the row lock on its player: an approval locks the club before the player, a new request the
      player before the club. */
  predicate OwnsPlayer(x: Txn) {
    LocksPlayer(x.job) && (x.phase.HoldsPlayer? || x.phase.Ready? || (x.phase.HoldsClub? && x.job.CreateCredit?))
  }

  /** Holds the row lock on the club. */
  predicate OwnsClub(x: Txn) {
    LocksClub(x) && (x.phase.HoldsClub? || x.phase.Ready? || (x.phase.HoldsPlayer? && x.job.ApproveCredit?))
  }

  predicate RequestOwner(s: State, t: nat, rid: Id) {
    t in s.txns && OwnsRequest(s.txns[t]) && s.txns[t].job.rid == rid
  }

  predicate ClubOwner(s: State, t: nat) {
    t in s.txns && OwnsClub(s.txns[t])
  }

  /** The player whose row a credit transaction locks. */
  function PlayerOf(x: Txn): Option<Id> {
    match x.job
    case ApproveCredit(_, _) => if x.seen.Some? then Some(x.seen.value.player) else None
    case CreateCredit(_, player, _) => Some(player)
    case _ => None
  }

  predicate PlayerOwner(s: State, t: nat, player: Id) {
    t in s.txns && OwnsPlayer(s.txns[t]) && PlayerOf(s.txns[t]) == Some(player)
  }

  predicate WantsRequest(x: Txn) {
    x.phase.Started? && HasRequest(x.job)
  }

  predicate WantsClub(x: Txn) {
    LocksClub(x) && (if x.job.CreateCredit? then x.phase.HoldsPlayer? else x.phase.HoldsRequest?)
  }

  predicate WantsPlayer(x: Txn) {
    ((x.phase.HoldsClub? && x.job.ApproveCredit?) || (x.phase.Started? && x.job.CreateCredit?)) && PlayerOf(x).Some?
  }

  predicate MayRead(x: Txn) {
    || (x.phase.HoldsRequest? && HasRequest(x.job) && !LocksClub(x) && x.seen.Some?)
    || (x.phase.HoldsPlayer? && x.job.ApproveCredit? && x.seen.Some?)
    || (x.phase.HoldsClub? && (x.job.CreateCredit? || (x.job.Refuse? && x.seen.Some?)))
    || (x.phase.Started? && x.job.StaffBuyOut?)
    || ((x.phase.Started? || x.phase.Collecting?) && x.job.SettleAll?)
  }

  predicate NoOwner(s: State, rid: Id) {
    forall u :: u in s.txns ==> !RequestOwner(s, u, rid)
  }

  predicate Enabled(s: State, step: Step) {
    match step
    case Begin(t, job, _) => t !in s.txns && (job.CreateCredit? ==> job.rid !in s.used)
    case LockRequest(t) => t in s.txns && WantsRequest(s.txns[t]) && NoOwner(s, s.txns[t].job.rid)
    case LockPlayer(t) =>
      && t in s.txns && WantsPlayer(s.txns[t])
      && forall u :: u in s.txns ==> !PlayerOwner(s, u, PlayerOf(s.txns[t]).value)
    case LockClub(t) => t in s.txns && WantsClub(s.txns[t]) && forall u :: u in s.txns ==> !ClubOwner(s, u)
    case Read(t) => t in s.txns && MayRead(s.txns[t])
    case Commit(t) => t in s.txns && s.txns[t].phase.Ready?
    case Rollback(t) => t in s.txns && InFlight(s.txns[t])
    case NewRequest(rid, r) => rid !in s.used && r.status == Pending && r.kind != CreditKind
    case OtherRows(_) => true
    case MoveSeats(_) => true
    case SetCredit(_, _) => true
    case ReadUpdate(k, rid, change) =>
      && k !in s.updates && rid in s.requests && s.requests[rid].kind == CreditKind
      && (change.LimitTo? ==> s.requests[rid].status == Approved && 0 <= change.limit <= CREDIT_CAP)
    case Save(k) => k in s.updates && !s.updates[k].saved && NoOwner(s, s.updates[k].rid)
  }

  function Enter(s: State, t: nat, x: Txn, phase: Phase): State {
    s.(txns := s.txns[t := x.(phase := phase)])
  }

  /** What a transaction in flight is going to post, as far as it has read. */
  function InFlightPostings(x: Txn): seq<Posting> {
    match x.phase
    case Collecting(postings) => postings
    case Ready(w) => w.postings
    case _ => []
  }

  /** What one read decides to post. A whole-table settlement reads for its next entry and sees its
      own earlier rows besides the committed ones. */
  function ReadPosting(s: State, x: Txn): (p: Option<Posting>)
    requires MayRead(x)
    ensures x.job.ApproveBuyIn? || x.job.ApproveBuyOut? || x.job.ApproveCredit? ==> p.Some?
  {
    match x.job
    case ApproveBuyIn(rid, dto) =>
      var r := x.seen.value;
      Some(Posting(Some(rid), r.player, EffectiveAmount(dto, r.amount), x.now, NoRead))
    case ApproveBuyOut(rid, settled) =>
      var r := x.seen.value;
      Some(Posting(Some(rid), r.player, settled, x.now, OwedRead(Owed(LedgerOf(s), r.player))))
    case ApproveCredit(rid, limit) =>
      var r := x.seen.value;
      Some(Posting(Some(rid), r.player, r.amount, x.now,
                   SeatRead(SeatOf(s.waitlist, r.player), GrantedLimit(limit, r.amount))))
    case StaffBuyOut(player, table, settled) =>
      if !SeatedAt(s.waitlist, player, table) then None
      else Some(Posting(None, player, Max(0, settled), x.now, OwedRead(Owed(LedgerOf(s), player))))
    case SettleAll(list) =>
      var done := InFlightPostings(x);
      if |done| >= |list| then None
      else
        var e := list[|done|];
        Some(Posting(None, e.player, e.amount, x.now, OwedRead(Owed(LedgerOf(s) + Flatten(done), e.player))))
    case _ => None
  }

  /** The phase a read leads to: ready to commit, on to the next entry, or failed. */
  function AfterRead(s: State, x: Txn): (phase: Phase)
    requires MayRead(x)
    ensures phase.Collecting? || phase.Ready? || phase.Finished?
  {
    var p := ReadPosting(s, x);
    match x.job
    case ApproveBuyIn(rid, _) => Ready(Write(Some((rid, x.seen.value.(status := Approved))), [p.value], None))
    case ApproveBuyOut(rid, _) => Ready(Write(Some((rid, x.seen.value.(status := Approved))), [p.value], None))
    case ApproveCredit(rid, limit) =>
      var r := x.seen.value;
      Ready(Write(Some((rid, r.(status := Approved, limit := GrantedLimit(limit, r.amount), visible := true))),
                  [p.value], None))
    case Refuse(rid) =>
      var r := x.seen.value;
      var refused := r.(status := Refused);
      Ready(Write(Some((rid, if r.kind == CreditKind then refused.(limit := 0, visible := true) else refused)), [],
                  None))
    case CreateCredit(rid, player, amount) =>
      if exists other :: other in s.requests && PendingCredit(s, other, player) then Finished(false)
      else Ready(Write(Some((rid, Request(CreditKind, player, amount, amount, true, Pending))), [], None))
    case StaffBuyOut(player, table, settled) =>
      if p.None? then Finished(false) else Ready(Write(None, [p.value], Some(table)))
    case SettleAll(list) =>
      if p.Some? then Collecting(InFlightPostings(x) + [p.value]) else Ready(Write(None, InFlightPostings(x), None))
  }

  /** The seats cancelled with the postings, in order: only settlements cancel any. */
  function Vacated(waitlist: seq<Entry>, postings: seq<Posting>, table: Option<int>): seq<Entry> {
    if |postings| == 0 then waitlist
    else
      var before, p := Vacated(waitlist, postings[..|postings| - 1], table), postings[|postings| - 1];
      if p.basis.OwedRead? then CancelSeats(before, p.player, table) else before
  }

  function Publish(s: State, w: Write): State {
    s.(requests := if w.request.Some? then s.requests[w.request.value.0 := w.request.value.1] else s.requests,
       log := s.log + w.postings,
       waitlist := Vacated(s.waitlist, w.postings, w.vacated))
  }

  function Apply(s: State, step: Step): State
    requires Enabled(s, step)
  {
    match step
    case Begin(t, job, now) =>
      s.(txns := s.txns[t := Txn(job, now, None, Started)],
         used := if job.CreateCredit? then s.used + {job.rid} else s.used)
    case LockRequest(t) =>
      var x := s.txns[t];
      if x.job.rid in s.requests && Admits(x.job, s.requests[x.job.rid])
      then Enter(s, t, x.(seen := Some(s.requests[x.job.rid])), HoldsRequest)
      else Enter(s, t, x, Finished(false))
    case LockPlayer(t) =>
      var x := s.txns[t];
      var player := PlayerOf(x).value;
      if player in s.players && s.players[player] && LimitFits(x.job)
      then Enter(s, t, x, HoldsPlayer) else Enter(s, t, x, Finished(false))
    case LockClub(t) => Enter(s, t, s.txns[t], HoldsClub)
    case Read(t) => Enter(s, t, s.txns[t], AfterRead(s, s.txns[t]))
    case Commit(t) => Enter(Publish(s, s.txns[t].phase.write), t, s.txns[t], Finished(true))
    case Rollback(t) => Enter(s, t, s.txns[t], Finished(false))
    case NewRequest(rid, r) => s.(requests := s.requests[rid := r], used := s.used + {rid})
    case OtherRows(rows) => s.(other := s.other + rows)
    case MoveSeats(waitlist) => s.(waitlist := waitlist)
    case SetCredit(player, enabled) => s.(players := s.players[player := enabled])
    case ReadUpdate(k, rid, change) => s.(updates := s.updates[k := Update(rid, s.requests[rid], change, false)])
    case Save(k) =>
      s.(requests := s.requests[s.updates[k].rid := Saved(s.updates[k])],
         updates := s.updates[k := s.updates[k].(saved := true)])
  }

  /** The states a run passes through, from its first to its last. */
  ghost predicate Behavior(states: seq<State>, steps: seq<Step>) {
    && |states| == |steps| + 1
    && forall i :: 0 <= i < |steps| ==> Enabled(states[i], steps[i]) && states[i + 1] == Apply(states[i], steps[i])
  }

  predicate Init(s: State) {
    s.requests == map[] && s.log == [] && s.txns == map[] && s.updates == map[]
  }

  // ---------------------------------------------------------------- invariants

  ghost predicate Exclusive(s: State) {
    && (forall t, u, rid :: RequestOwner(s, t, rid) && RequestOwner(s, u, rid) ==> t == u)
    && (forall t, u, player :: PlayerOwner(s, t, player) && PlayerOwner(s, u, player) ==> t == u)
    && (forall t, u :: ClubOwner(s, t) && ClubOwner(s, u) ==> t == u)
  }

  /** While a transaction owns a request row, the committed row stays as it was read. */
  predicate SeenFits(s: State, x: Txn) {
    && (x.phase.HoldsRequest? ==> HasRequest(x.job))
    && (x.phase.HoldsPlayer? ==> LocksPlayer(x.job))
    && (x.phase.HoldsClub? ==> LocksClub(x))
    && (OwnsRequest(x) ==>
          && x.seen.Some? && x.job.rid in s.requests && s.requests[x.job.rid] == x.seen.value
          && Admits(x.job, x.seen.value))
  }

  ghost predicate RequestsHeld(s: State) {
    forall t :: t in s.txns ==> SeenFits(s, s.txns[t])
  }

  predicate Creating(s: State, t: nat, rid: Id) {
    t in s.txns && s.txns[t].job.CreateCredit? && s.txns[t].job.rid == rid
  }

  ghost predicate IdsFresh(s: State) {
    && s.requests.Keys <= s.used
    && (forall t, rid :: Creating(s, t, rid) ==> rid in s.used && (InFlight(s.txns[t]) ==> rid !in s.requests))
    && (forall t, u, rid :: Creating(s, t, rid) && Creating(s, u, rid) ==> t == u)
  }

  /** The posting a request of each kind must have once it is approved. */
  predicate PostingFits(r: Request, p: Posting) {
    && p.player == r.player
    && match r.kind
       case BuyInKind => p.basis.NoRead? && p.amount > 0
       case BuyOutKind => p.basis.OwedRead? && p.amount >= 0 && p.basis.owed >= 0
       case CreditKind => p.basis.SeatRead? && p.amount == r.amount
  }

  /** The postings of the first entries of a settlement list. */
  predicate SettlesFit(x: Txn, postings: seq<Posting>) {
    && x.job.SettleAll? && |postings| <= |x.job.list|
    && forall i :: 0 <= i < |postings| ==>
         && postings[i].basis.OwedRead? && postings[i].basis.owed >= 0
         && postings[i] == Posting(None, x.job.list[i].player, x.job.list[i].amount, x.now, postings[i].basis)
  }

  predicate ApprovalFits(x: Txn, w: Write, r': Request, amount: int)
    requires HasRequest(x.job)
  {
    && x.seen.Some? && w.vacated == None
    && w.request == Some((x.job.rid, r')) && r'.status == Approved
    && |w.postings| == 1
    && w.postings[0] == Posting(Some(x.job.rid), x.seen.value.player, amount, x.now, w.postings[0].basis)
    && PostingFits(x.seen.value, w.postings[0])
  }

  /** What a transaction about to commit will write. */
  predicate WriteFits(x: Txn, w: Write) {
    match x.job
    case StaffBuyOut(player, table, settled) =>
      && w.request == None && w.vacated == Some(table) && |w.postings| == 1
      && w.postings[0] == Posting(None, player, Max(0, settled), x.now, w.postings[0].basis)
      && w.postings[0].basis.OwedRead? && w.postings[0].basis.owed >= 0
    case SettleAll(list) =>
      w.request == None && w.vacated == None && |w.postings| == |list| && SettlesFit(x, w.postings)
    case CreateCredit(rid, player, amount) =>
      w.postings == [] && w.request == Some((rid, Request(CreditKind, player, amount, amount, true, Pending)))
    case Refuse(rid) =>
      w.postings == [] && w.request.Some? && w.request.value.0 == rid && w.request.value.1.status == Refused
      && x.seen.Some? && SameOrder(w.request.value.1, x.seen.value)
      && (x.seen.value.kind == CreditKind ==> w.request.value.1.limit == 0)
    case ApproveBuyIn(_, dto) =>
      && x.seen.Some?
      && ApprovalFits(x, w, x.seen.value.(status := Approved), EffectiveAmount(dto, x.seen.value.amount))
    case ApproveBuyOut(_, settled) => x.seen.Some? && ApprovalFits(x, w, x.seen.value.(status := Approved), settled)
    case ApproveCredit(_, limit) =>
      && x.seen.Some?
      && var r, granted := x.seen.value, GrantedLimit(limit, x.seen.value.amount);
         ApprovalFits(x, w, r.(status := Approved, limit := granted, visible := true), r.amount)
         && w.postings[0].basis.SeatRead? && w.postings[0].basis.limit == granted
  }

  /** The same request: whose it is, of which kind, and what was asked for. */
  predicate SameOrder(a: Request, b: Request) {
    a.player == b.player && a.kind == b.kind && a.amount == b.amount
  }

  predicate PhaseFits(x: Txn) {
    match x.phase
    case Ready(w) => WriteFits(x, w)
    case Collecting(postings) => SettlesFit(x, postings)
    case _ => true
  }

  ghost predicate WritesFit(s: State) {
    forall t :: t in s.txns ==> PhaseFits(s.txns[t])
  }

  function PostingsOf(log: seq<Posting>, rid: Id): nat {
    if |log| == 0 then 0
    else PostingsOf(log[..|log| - 1], rid) + (if log[|log| - 1].origin == Some(rid) then 1 else 0)
  }

  predicate IsApproved(s: State, rid: Id) {
    rid in s.requests && s.requests[rid].status == Approved
  }

  /** Every posting made for a request is of the shape its kind calls for. */
  ghost predicate LogFits(s: State) {
    forall i :: 0 <= i < |s.log| && s.log[i].origin.Some? ==>
      s.log[i].origin.value in s.requests && PostingFits(s.requests[s.log[i].origin.value], s.log[i])
  }

  /** A refused credit request has limit 0. */
  predicate RefusedFits(r: Request) {
    r.kind == CreditKind && r.status == Refused ==> r.limit == 0
  }

  /** An update is of an existing credit request and has read it whole. */
  predicate UpdateFits(s: State, u: Update) {
    && u.rid in s.requests && u.seen.kind == CreditKind && SameOrder(u.seen, s.requests[u.rid])
    && (u.change.LimitTo? ==> u.seen.status == Approved) && RefusedFits(u.seen)
  }

  ghost predicate UpdatesFit(s: State) {
    && (forall k :: k in s.updates ==> UpdateFits(s, s.updates[k]))
    && (forall rid :: rid in s.requests ==> RefusedFits(s.requests[rid]))
  }

  ghost predicate Inv(s: State) {
    Exclusive(s) && RequestsHeld(s) && IdsFresh(s) && WritesFit(s) && LogFits(s) && UpdatesFit(s)
  }

  /** Ownership only changes hands through the locking steps, which need the row to be free. */
  lemma RequestOwnerStep(s: State, step: Step, t: nat, rid: Id)
    requires RequestsHeld(s) && Enabled(s, step)
    ensures RequestOwner(Apply(s, step), t, rid) ==>
      RequestOwner(s, t, rid) || (step == LockRequest(t) && s.txns[t].job.rid == rid)
  {
    if t in s.txns {
      assert SeenFits(s, s.txns[t]);
    }
  }

  lemma PlayerOwnerStep(s: State, step: Step, t: nat, player: Id)
    requires RequestsHeld(s) && Enabled(s, step)
    ensures PlayerOwner(Apply(s, step), t, player) ==>
      PlayerOwner(s, t, player) || (step == LockPlayer(t) && PlayerOf(s.txns[t]) == Some(player))
  {
    if t in s.txns {
      assert SeenFits(s, s.txns[t]);
    }
  }

  lemma ClubOwnerStep(s: State, step: Step, t: nat)
    requires RequestsHeld(s) && Enabled(s, step)
    ensures ClubOwner(Apply(s, step), t) ==> ClubOwner(s, t) || step == LockClub(t)
  {
    hide ReadPosting, Vacated;
    if t in s.txns {
      assert SeenFits(s, s.txns[t]);
    }
  }

  lemma ExclusiveStep(s: State, step: Step)
    requires Inv(s) && Enabled(s, step)
    ensures Exclusive(Apply(s, step))
  {
    var s' := Apply(s, step);
    forall t, u, rid | RequestOwner(s', t, rid) && RequestOwner(s', u, rid)
      ensures t == u
    {
      RequestOwnerStep(s, step, t, rid);
      RequestOwnerStep(s, step, u, rid);
    }
    forall t, u, player | PlayerOwner(s', t, player) && PlayerOwner(s', u, player)
      ensures t == u
    {
      PlayerOwnerStep(s, step, t, player);
      PlayerOwnerStep(s, step, u, player);
    }
    forall t, u | ClubOwner(s', t) && ClubOwner(s', u)
      ensures t == u
    {
      ClubOwnerStep(s, step, t);
      ClubOwnerStep(s, step, u);
    }
  }

  /** A request row is only written by the transaction that owns it while it is pending, or by the save of
      an update while nobody owns it, which writes back the row as the update had read it. Whose request
      it is, its kind and its amount never change. */
  lemma RequestRowStep(s: State, step: Step, rid: Id)
    requires Inv(s) && Enabled(s, step) && rid in s.requests
    ensures rid in Apply(s, step).requests
    ensures var before, after := s.requests[rid], Apply(s, step).requests[rid];
      && SameOrder(after, before)
      && (after != before ==>
            || (step.Commit? && RequestOwner(s, step.t, rid) && PhaseFits(s.txns[step.t]) && before.status == Pending)
            || (step.Save? && s.updates[step.k].rid == rid && before.kind == CreditKind && NoOwner(s, rid)
                && after == Saved(s.updates[step.k])))
  {
    hide ReadPosting, AfterRead, Vacated, LogFits, Exclusive;
    if step.Commit? {
      var x := s.txns[step.t];
      assert PhaseFits(x) && SeenFits(s, x);
      if x.job.CreateCredit? {
        assert Creating(s, step.t, x.job.rid);
      }
    } else if step.Save? {
      assert UpdateFits(s, s.updates[step.k]);
    }
  }

  /** The step is one of transaction t. */
  predicate IsOf(step: Step, t: nat) {
    && (step.Begin? || step.LockRequest? || step.LockPlayer? || step.LockClub? || step.Read? || step.Commit?
        || step.Rollback?)
    && step.t == t
  }

  lemma OthersStay(s: State, step: Step, t: nat)
    requires Enabled(s, step) && t in Apply(s, step).txns && !IsOf(step, t)
    ensures t in s.txns && Apply(s, step).txns[t] == s.txns[t]
  {
    hide ReadPosting, AfterRead, Vacated;
  }

  lemma RequestsHeldStep(s: State, step: Step)
    requires Inv(s) && Enabled(s, step)
    ensures RequestsHeld(Apply(s, step))
  {
    hide Inv, Enabled, Apply, SeenFits;
    var s' := Apply(s, step);
    forall t | t in s'.txns
      ensures SeenFits(s', s'.txns[t])
    {
      SeenFitsStep(s, step, t);
    }
  }

  lemma SeenFitsStep(s: State, step: Step, t: nat)
    requires Inv(s) && Enabled(s, step) && t in Apply(s, step).txns
    ensures SeenFits(Apply(s, step), Apply(s, step).txns[t])
  {
    if IsOf(step, t) {
      OwnSeenFits(s, step, t);
    } else {
      hide Apply, Enabled, IdsFresh, WritesFit, LogFits, UpdatesFit, PhaseFits, Saved;
      OthersStay(s, step, t);
      var x := s.txns[t];
      assert SeenFits(s, x);
      if OwnsRequest(x) {
        RequestRowStep(s, step, x.job.rid);
        assert RequestOwner(s, t, x.job.rid);
      }
    }
  }

  lemma OwnSeenFits(s: State, step: Step, t: nat)
    requires Inv(s) && Enabled(s, step) && t in Apply(s, step).txns && IsOf(step, t)
    ensures SeenFits(Apply(s, step), Apply(s, step).txns[t])
  {
    hide ReadPosting, AfterRead, Vacated, RowsOf, Exclusive, IdsFresh, WritesFit, LogFits, UpdatesFit, PhaseFits,
         LimitFits;
    if t in s.txns {
      assert SeenFits(s, s.txns[t]);
    }
  }

  lemma IdsFreshStep(s: State, step: Step)
    requires Inv(s) && Enabled(s, step)
    ensures IdsFresh(Apply(s, step))
  {
    hide Inv, Enabled, Apply;
    UsedStep(s, step);
    var s' := Apply(s, step);
    forall t, rid | Creating(s', t, rid)
      ensures rid in s'.used && (InFlight(s'.txns[t]) ==> rid !in s'.requests)
    {
      CreatingStep(s, step, t, rid);
    }
    forall t, u, rid | Creating(s', t, rid) && Creating(s', u, rid)
      ensures t == u
    {
      OneCreator(s, step, t, u, rid);
    }
  }

  lemma UsedStep(s: State, step: Step)
    requires Inv(s) && Enabled(s, step)
    ensures Apply(s, step).requests.Keys <= Apply(s, step).used
    ensures s.used <= Apply(s, step).used
  {
    hide ReadPosting, AfterRead, Vacated, LogFits, Exclusive, SettlesFit;
    if step.Commit? {
      var x := s.txns[step.t];
      assert PhaseFits(x) && SeenFits(s, x);
      if x.job.CreateCredit? {
        assert Creating(s, step.t, x.job.rid);
      }
    }
  }

  /** A new request's id is taken when its transaction begins, and nobody else writes it. */
  lemma CreatingStep(s: State, step: Step, t: nat, rid: Id)
    requires Inv(s) && Enabled(s, step) && Creating(Apply(s, step), t, rid)
    ensures rid in Apply(s, step).used && (InFlight(Apply(s, step).txns[t]) ==> rid !in Apply(s, step).requests)
    ensures Creating(s, t, rid) || (step.Begin? && step.t == t && step.job.CreateCredit? && rid !in s.used)
  {
    hide ReadPosting, AfterRead, Vacated, LogFits, Exclusive, SettlesFit;
    assert step.Begin? || Creating(s, t, rid);
    if Creating(s, t, rid) {
    }
    if step.Commit? {
      var x := s.txns[step.t];
      assert PhaseFits(x) && SeenFits(s, x);
      if x.job.CreateCredit? {
        assert Creating(s, step.t, x.job.rid);
      }
    }
  }

  lemma OneCreator(s: State, step: Step, t: nat, u: nat, rid: Id)
    requires Inv(s) && Enabled(s, step) && Creating(Apply(s, step), t, rid) && Creating(Apply(s, step), u, rid)
    ensures t == u
  {
    CreatingStep(s, step, t, rid);
    CreatingStep(s, step, u, rid);
    hide Enabled, Apply, Creating, Exclusive, RequestsHeld, WritesFit, LogFits, UpdatesFit;
  }

  /** What a read leads to fits the job, whatever was read. */
  lemma ReadFits(s: State, x: Txn)
    requires SeenFits(s, x) && MayRead(x) && PhaseFits(x)
    ensures PhaseFits(x.(phase := AfterRead(s, x)))
  {
    hide SeatOf, SeatedAt, Flatten, LedgerOf, Total;
  }

  lemma WritesFitStep(s: State, step: Step)
    requires Inv(s) && Enabled(s, step)
    ensures WritesFit(Apply(s, step))
  {
    hide Inv, Enabled, Apply, PhaseFits;
    forall t | t in Apply(s, step).txns
      ensures PhaseFits(Apply(s, step).txns[t])
    {
      PhaseFitsStep(s, step, t);
    }
  }

  lemma PhaseFitsStep(s: State, step: Step, t: nat)
    requires Inv(s) && Enabled(s, step) && t in Apply(s, step).txns
    ensures PhaseFits(Apply(s, step).txns[t])
  {
    hide ReadPosting, AfterRead, Vacated, LogFits, Exclusive, IdsFresh, UpdatesFit, WriteFits, SettlesFit;
    if t in s.txns {
      assert PhaseFits(s.txns[t]) && SeenFits(s, s.txns[t]);
    }
    if !IsOf(step, t) {
      OthersStay(s, step, t);
    } else if step.Read? {
      ReadFits(s, s.txns[t]);
    }
  }

  predicate Approves(job: Job) {
    HasRequest(job) && !job.Refuse?
  }

  predicate ApprovesNow(s: State, step: Step, rid: Id) {
    step.Commit? && step.t in s.txns && Approves(s.txns[step.t].job) && s.txns[step.t].job.rid == rid
  }

  /** The save of an update leaves the request approved or not, as it is. */
  predicate ApprovalKept(s: State, step: Step, rid: Id) {
    step.Save? && step.k in s.updates && s.updates[step.k].rid == rid
    ==> (s.updates[step.k].seen.status == Approved <==> IsApproved(s, rid))
  }

  /** A request becomes approved when a transaction approving it commits, having not been approved before;
      otherwise it is approved afterwards exactly if it was, unless an update saves a row it read before
      or after an approval that no longer stands so. */
  lemma ApprovedStep(s: State, step: Step, rid: Id)
    requires Inv(s) && Enabled(s, step)
    ensures rid in s.requests ==>
      rid in Apply(s, step).requests && SameOrder(Apply(s, step).requests[rid], s.requests[rid])
    ensures ApprovesNow(s, step, rid) ==> !IsApproved(s, rid) && IsApproved(Apply(s, step), rid)
    ensures !ApprovesNow(s, step, rid) ==>
      ((IsApproved(Apply(s, step), rid) <==> IsApproved(s, rid)) <==> ApprovalKept(s, step, rid))
  {
    hide ReadPosting, AfterRead, Vacated, LogFits, Exclusive;
    if rid in s.requests {
      RequestRowStep(s, step, rid);
    }
    if step.Commit? {
      var x := s.txns[step.t];
      assert PhaseFits(x) && SeenFits(s, x);
    } else if step.Save? {
      assert UpdateFits(s, s.updates[step.k]);
    }
  }

  lemma {:induction false} PostingsOfAppend(log: seq<Posting>, more: seq<Posting>, rid: Id)
    ensures PostingsOf(log + more, rid) == PostingsOf(log, rid) + PostingsOf(more, rid)
    decreases |more|
  {
    if |more| == 0 {
      assert log + more == log;
    } else {
      assert (log + more)[..|log + more| - 1] == log + more[..|more| - 1];
      PostingsOfAppend(log, more[..|more| - 1], rid);
    }
  }

  lemma {:induction false} NoPostingsOf(postings: seq<Posting>, rid: Id)
    requires forall i :: 0 <= i < |postings| ==> postings[i].origin != Some(rid)
    ensures PostingsOf(postings, rid) == 0
  {
    if |postings| > 0 {
      NoPostingsOf(postings[..|postings| - 1], rid);
    }
  }

  /** What one transaction writes: a single posting for the request it approves, none with any origin
      otherwise. */
  lemma WrittenPostings(x: Txn, rid: Id)
    requires x.phase.Ready? && PhaseFits(x)
    ensures PostingsOf(x.phase.write.postings, rid) == if Approves(x.job) && x.job.rid == rid then 1 else 0
    ensures forall i :: 0 <= i < |x.phase.write.postings| && x.phase.write.postings[i].origin.Some? ==>
      Approves(x.job) && x.job.rid == x.phase.write.postings[i].origin.value && |x.phase.write.postings| == 1
      && x.seen.Some? && PostingFits(x.seen.value, x.phase.write.postings[i])
      && x.phase.write.request.Some? && SameOrder(x.phase.write.request.value.1, x.seen.value)
  {
    var ps := x.phase.write.postings;
    if !(Approves(x.job) && x.job.rid == rid) {
      NoPostingsOf(ps, rid);
    } else {
      assert ps[..|ps| - 1] == [];
    }
  }

  lemma LogFitsStep(s: State, step: Step)
    requires Inv(s) && Enabled(s, step)
    ensures LogFits(Apply(s, step))
  {
    hide Apply, Enabled, Inv, PostingFits;
    var s' := Apply(s, step);
    forall i | 0 <= i < |s'.log| && s'.log[i].origin.Some?
      ensures s'.log[i].origin.value in s'.requests && PostingFits(s'.requests[s'.log[i].origin.value], s'.log[i])
    {
      PostedFitsStep(s, step, i);
    }
  }

  lemma PostedFitsStep(s: State, step: Step, i: nat)
    requires Inv(s) && Enabled(s, step)
    requires i < |Apply(s, step).log| && Apply(s, step).log[i].origin.Some?
    ensures var s' := Apply(s, step);
      s'.log[i].origin.value in s'.requests && PostingFits(s'.requests[s'.log[i].origin.value], s'.log[i])
  {
    hide ReadPosting, AfterRead, Vacated, Exclusive, IdsFresh;
    var rid := Apply(s, step).log[i].origin.value;
    ApprovedStep(s, step, rid);
    if i >= |s.log| {
      WrittenPostings(s.txns[step.t], rid);
      assert SeenFits(s, s.txns[step.t]);
      assert s.txns[step.t].phase.write.postings[i - |s.log|].origin == Some(rid);
    }
  }

  /** An update stays an update of the same order, and only a refusal sets a credit limit to 0 for good. */
  lemma UpdatesFitStep(s: State, step: Step)
    requires Inv(s) && Enabled(s, step)
    ensures UpdatesFit(Apply(s, step))
  {
    hide Inv, Enabled, Apply, UpdateFits, RefusedFits;
    var s' := Apply(s, step);
    forall k | k in s'.updates
      ensures UpdateFits(s', s'.updates[k])
    {
      UpdateFitsStep(s, step, k);
    }
    forall rid | rid in s'.requests
      ensures RefusedFits(s'.requests[rid])
    {
      RefusedFitsStep(s, step, rid);
    }
  }

  lemma UpdateFitsStep(s: State, step: Step, k: nat)
    requires Inv(s) && Enabled(s, step) && k in Apply(s, step).updates
    ensures UpdateFits(Apply(s, step), Apply(s, step).updates[k])
  {
    UpdateSame(s, step, k);
    if k in s.updates {
      hide Apply, Enabled, Exclusive, IdsFresh, RequestsHeld, WritesFit, LogFits, PhaseFits;
      assert UpdateFits(s, s.updates[k]);
      RequestRowStep(s, step, s.updates[k].rid);
    } else {
      hide Apply, Exclusive, IdsFresh, RequestsHeld, WritesFit, LogFits;
    }
  }

  /** An update stays as it is but for its save, and a new one has read the stored row. */
  lemma UpdateSame(s: State, step: Step, k: nat)
    requires Enabled(s, step) && k in Apply(s, step).updates
    ensures k in s.updates ==>
      && (step != Save(k) ==> Apply(s, step).updates[k] == s.updates[k])
      && (step == Save(k) ==> Apply(s, step).updates[k] == s.updates[k].(saved := true))
    ensures k !in s.updates ==>
      && step.ReadUpdate? && step.k == k && step.rid in s.requests && Apply(s, step).requests == s.requests
      && Apply(s, step).updates[k] == Update(step.rid, s.requests[step.rid], step.change, false)
  {
    hide ReadPosting, AfterRead, Vacated;
  }

  lemma RefusedFitsStep(s: State, step: Step, rid: Id)
    requires Inv(s) && Enabled(s, step) && rid in Apply(s, step).requests
    ensures RefusedFits(Apply(s, step).requests[rid])
  {
    hide ReadPosting, AfterRead, Vacated, LogFits, Exclusive, IdsFresh, SettlesFit;
    if step.Commit? {
      assert PhaseFits(s.txns[step.t]) && SeenFits(s, s.txns[step.t]);
    } else if step.Save? {
      assert UpdateFits(s, s.updates[step.k]);
    }
  }

  /** The log grows by what the committing transaction posts. */
  lemma PostingsStep(s: State, step: Step, rid: Id)
    requires Inv(s) && Enabled(s, step)
    ensures PostingsOf(Apply(s, step).log, rid) == PostingsOf(s.log, rid) + (if ApprovesNow(s, step, rid) then 1 else 0)
  {
    hide ReadPosting, AfterRead, Vacated, WriteFits, LogFits, Exclusive, IdsFresh, RequestsHeld;
    if step.Commit? {
      assert PhaseFits(s.txns[step.t]);
      WrittenPostings(s.txns[step.t], rid);
      PostingsOfAppend(s.log, s.txns[step.t].phase.write.postings, rid);
    }
  }

  lemma InvStep(s: State, step: Step)
    requires Inv(s) && Enabled(s, step)
    ensures Inv(Apply(s, step))
  {
    ExclusiveStep(s, step);
    RequestsHeldStep(s, step);
    IdsFreshStep(s, step);
    WritesFitStep(s, step);
    LogFitsStep(s, step);
    UpdatesFitStep(s, step);
  }

  lemma {:induction false} InvAlways(states: seq<State>, steps: seq<Step>, n: nat)
    requires Behavior(states, steps) && Init(states[0]) && n < |states|
    ensures Inv(states[n])
  {
    if n > 0 {
      InvAlways(states, steps, n - 1);
      InvStep(states[n - 1], steps[n - 1]);
    }
  }

  // ---------------------------------------------------------------- what every interleaving keeps

  /** The same call, begun at the same time. */
  predicate SameTxn(a: Txn, b: Txn) {
    a.job == b.job && a.now == b.now
  }

  /** In state s the transaction's next read decides to post p. */
  predicate Decides(s: State, t: nat, p: Posting) {
    t in s.txns && MayRead(s.txns[t]) && ReadPosting(s, s.txns[t]) == Some(p)
  }

  lemma InFlightStep(s: State, step: Step, t: nat, p: Posting)
    requires Enabled(s, step) && t in Apply(s, step).txns && p in InFlightPostings(Apply(s, step).txns[t])
    ensures t in s.txns && SameTxn(s.txns[t], Apply(s, step).txns[t])
    ensures p in InFlightPostings(s.txns[t]) || (step == Read(t) && Decides(s, t, p))
  {
    hide ReadPosting, Vacated, SeatOf, SeatedAt, LedgerOf;
  }

  /** Whatever a transaction is about to post, it decided by one of its own earlier reads. */
  lemma {:induction false} PledgeWasRead(states: seq<State>, steps: seq<Step>, n: nat, t: nat, p: Posting)
    returns (k: nat)
    requires Behavior(states, steps) && Init(states[0]) && n < |states|
    requires t in states[n].txns && p in InFlightPostings(states[n].txns[t])
    ensures k < n && steps[k] == Read(t) && Decides(states[k], t, p) && SameTxn(states[k].txns[t], states[n].txns[t])
  {
    hide Apply, Enabled, Decides, InFlightPostings;
    assert n > 0;
    assert Enabled(states[n - 1], steps[n - 1]) && states[n] == Apply(states[n - 1], steps[n - 1]);
    hide Behavior, Init;
    InFlightStep(states[n - 1], steps[n - 1], t, p);
    if p in InFlightPostings(states[n - 1].txns[t]) {
      k := PledgeWasRead(states, steps, n - 1, t, p);
    } else {
      k := n - 1;
    }
  }

  /** Every posting in the log was written by the commit of some transaction, at that place. */
  lemma {:induction false} PostingWasCommitted(states: seq<State>, steps: seq<Step>, n: nat, i: nat)
    returns (j: nat, t: nat)
    requires Behavior(states, steps) && Init(states[0]) && n < |states| && i < |states[n].log|
    ensures j < n && steps[j] == Commit(t) && t in states[j].txns && states[j].txns[t].phase.Ready?
    ensures var w := states[j].txns[t].phase.write;
      |states[j].log| <= i < |states[j].log| + |w.postings| && w.postings[i - |states[j].log|] == states[n].log[i]
  {
    var s, step := states[n - 1], steps[n - 1];
    assert states[n] == Apply(s, step);
    if i < |s.log| {
      j, t := PostingWasCommitted(states, steps, n - 1, i);
    } else {
      j, t := n - 1, step.t;
    }
  }

  /** The posting was decided by t's read at step k and written by t's commit at step j. */
  predicate PostedBy(states: seq<State>, steps: seq<Step>, p: Posting, k: int, j: int, t: nat) {
    && 0 <= k < j < |steps| && j < |states| && steps[k] == Read(t) && steps[j] == Commit(t)
    && Decides(states[k], t, p)
    && t in states[j].txns && SameTxn(states[k].txns[t], states[j].txns[t]) && p in InFlightPostings(states[j].txns[t])
  }

  /** Every posting, of whichever job, has such a read and commit: what was posted is exactly what the
      read of the committed ledger and waitlist at that moment called for. */
  lemma PostingWasRead(states: seq<State>, steps: seq<Step>, n: nat, i: nat) returns (k: nat, j: nat, t: nat)
    requires Behavior(states, steps) && Init(states[0]) && n < |states| && i < |states[n].log|
    ensures j < n && PostedBy(states, steps, states[n].log[i], k, j, t)
    ensures |states[j].log| <= i < |states[j + 1].log|
  {
    j, t := PostingWasCommitted(states, steps, n, i);
    k := PledgeWasRead(states, steps, j, t, states[n].log[i]);
  }

  /** The rows a call due on a pending request must post, given the state it reads: two for a buy-in,
      of the amount in the call or else the requested one; a table buy-out of the settled amount and,
      iff the player owes credit on the ledger, a debit of what is owed; a credit with its marked table
      buy-in iff the player is seated at a table and the smaller of amount and granted limit is
      positive. */
  predicate DueRows(s: State, x: Txn, rid: Id, rows: seq<Row>) {
    && rid in s.requests && s.requests[rid].status == Pending
    && var r := s.requests[rid];
       match x.job
       case ApproveBuyIn(id, dto) =>
         && id == rid && r.kind == BuyInKind
         && var amount := if dto != 0 then dto else r.amount;
            && amount > 0
            && rows == [Plain(r.player, ClubBuyIn, amount, x.now), Plain(r.player, TableBuyIn, amount, x.now)]
       case ApproveBuyOut(id, settled) =>
         && id == rid && r.kind == BuyOutKind && settled >= 0
         && var net := Total(CreditNet, LedgerOf(s), r.player);
            rows == (if net > 0 then [Plain(r.player, TableBuyOut, settled, x.now), Plain(r.player, Debit, net, x.now)]
                     else [Plain(r.player, TableBuyOut, settled, x.now)])
       case ApproveCredit(id, newLimit) =>
         && id == rid && r.kind == CreditKind
         && var seat := SeatOf(s.waitlist, r.player);
            var draw := Min(r.amount, if newLimit.Some? then newLimit.value else r.amount);
            rows == (if seat.Some? && seat.value.table.Some? && draw > 0
                     then [Plain(r.player, Credit, draw, x.now), Marked(r.player, TableBuyIn, draw, x.now)]
                     else [])
       case _ => false
  }

  /** A read for a request decides on exactly the rows due. */
  lemma ReadIsDue(s: State, t: nat, p: Posting, rid: Id)
    requires Inv(s) && Decides(s, t, p) && p.origin == Some(rid)
    ensures DueRows(s, s.txns[t], rid, RowsOf(p)) && RequestOwner(s, t, rid)
  {
    hide Total, SeatOf, SeatedAt, LedgerOf, Flatten, WritesFit, LogFits, IdsFresh;
    assert SeenFits(s, s.txns[t]);
  }

  /** The rows a settlement must post, given the state it reads: a table buy-out of the settled amount, none
      below 0 by staff, and a debit of the credit net if it is positive, on the ledger with the settlement's
      own earlier rows. By staff only for a player with a SEATED row at that table. */
  predicate SettlementDue(s: State, x: Txn, rows: seq<Row>) {
    match x.job
    case StaffBuyOut(player, table, settled) =>
      && (exists i :: 0 <= i < |s.waitlist| && s.waitlist[i].player == player && s.waitlist[i].status == Seated
                      && s.waitlist[i].table == Some(table))
      && rows == BuyOutOf(player, if settled > 0 then settled else 0, Total(CreditNet, LedgerOf(s), player), x.now)
    case SettleAll(list) =>
      var done := InFlightPostings(x);
      && |done| < |list|
      && rows == BuyOutOf(list[|done|].player, list[|done|].amount,
                          Total(CreditNet, LedgerOf(s) + Flatten(done), list[|done|].player), x.now)
    case _ => false
  }

  function BuyOutOf(player: Id, amount: int, net: int, now: int): seq<Row> {
    if net > 0 then [Plain(player, TableBuyOut, amount, now), Plain(player, Debit, net, now)]
    else [Plain(player, TableBuyOut, amount, now)]
  }

  /** A read of a settlement without a request decides on exactly the rows due. */
  lemma SettlementReadIsDue(s: State, t: nat, p: Posting)
    requires Inv(s) && Decides(s, t, p) && p.origin == None
    ensures SettlementDue(s, s.txns[t], RowsOf(p))
  {
    hide Total, SeatOf, LedgerOf, Flatten, WritesFit, LogFits, IdsFresh, Exclusive, UpdatesFit;
    assert SeenFits(s, s.txns[t]);
  }

  ghost predicate SettlementPosted(states: seq<State>, steps: seq<Step>, n: nat, i: nat)
    requires n < |states| && i < |states[n].log|
  {
    exists k, j, t :: PostedBy(states, steps, states[n].log[i], k, j, t) && j < n
                      && SettlementDue(states[k], states[k].txns[t], RowsOf(states[n].log[i]))
  }

  /** Every posting without a request is that of a staff or whole-table settlement which, when it read ledger
      and waitlist, owed just these rows, and which later committed. */
  lemma SettlementsPostedAsDue(states: seq<State>, steps: seq<Step>, n: nat, i: nat)
    requires Behavior(states, steps) && Init(states[0]) && n < |states|
    requires i < |states[n].log| && states[n].log[i].origin == None
    ensures SettlementPosted(states, steps, n, i)
  {
    var k, j, t := PostingWasRead(states, steps, n, i);
    InvAlways(states, steps, k);
    SettlementReadIsDue(states[k], t, states[n].log[i]);
  }

  lemma CommittedStep(s: State, step: Step, t: nat)
    requires Enabled(s, step)
    ensures (t in Apply(s, step).txns && Apply(s, step).txns[t].phase == Finished(true))
       <==> step == Commit(t) || (t in s.txns && s.txns[t].phase == Finished(true))
  {
    hide ReadPosting, Vacated;
  }

  /** A transaction counts as committed exactly if it has committed, and that only once. */
  lemma {:induction false} CommittedExactly(states: seq<State>, steps: seq<Step>, n: nat, t: nat)
    requires Behavior(states, steps) && Init(states[0]) && n < |states|
    ensures (t in states[n].txns && states[n].txns[t].phase == Finished(true))
       <==> exists k :: 0 <= k < n && steps[k] == Commit(t)
    ensures forall i, j :: 0 <= i < n && 0 <= j < n && steps[i] == Commit(t) && steps[j] == Commit(t) ==> i == j
  {
    hide Apply;
    if n > 0 {
      CommittedExactly(states, steps, n - 1, t);
      assert Enabled(states[n - 1], steps[n - 1]) && states[n] == Apply(states[n - 1], steps[n - 1]);
      CommittedStep(states[n - 1], steps[n - 1], t);
    }
  }

  // ---------------------------------------------------------------- the credit line was on

  /** When transaction t locked the player's row at step k the player's line was on, and the amount or limit
      asked for was within the cap. */
  predicate LineWasOn(states: seq<State>, steps: seq<Step>, k: int, t: nat, player: Id, job: Job) {
    && 0 <= k < |steps| && k < |states| && steps[k] == LockPlayer(t)
    && player in states[k].players && states[k].players[player]
    && match job
       case ApproveCredit(_, limit) => limit.Some? ==> 0 <= limit.value <= CREDIT_CAP
       case CreateCredit(_, _, amount) => 0 < amount <= CREDIT_CAP
       case _ => false
  }

  /** Before step n the player's line was last switched on, or was on from the start. */
  predicate SwitchedOn(s: State, steps: seq<Step>, n: nat, player: Id)
    requires n <= |steps|
  {
    if n == 0 then player in s.players && s.players[player]
    else if steps[n - 1].SetCredit? && steps[n - 1].player == player then steps[n - 1].enabled
    else SwitchedOn(s, steps, n - 1, player)
  }

  lemma {:induction false} LineIsAsSwitched(states: seq<State>, steps: seq<Step>, n: nat, player: Id)
    requires Behavior(states, steps) && n < |states|
    ensures (player in states[n].players && states[n].players[player]) <==> SwitchedOn(states[0], steps, n, player)
  {
    hide Apply, Enabled;
    if n > 0 {
      LineIsAsSwitched(states, steps, n - 1, player);
      assert Enabled(states[n - 1], steps[n - 1]) && states[n] == Apply(states[n - 1], steps[n - 1]);
      OnlySwitches(states[n - 1], steps[n - 1]);
    }
  }

  lemma OnlySwitches(s: State, step: Step)
    requires Enabled(s, step)
    ensures Apply(s, step).players == if step.SetCredit? then s.players[step.player := step.enabled] else s.players
  {
    hide ReadPosting, AfterRead, Vacated;
  }

  lemma LineCheckedStep(s: State, step: Step, t: nat, player: Id)
    requires RequestsHeld(s) && Enabled(s, step) && PlayerOwner(Apply(s, step), t, player)
    ensures t in s.txns && s.txns[t].job == Apply(s, step).txns[t].job
    ensures || PlayerOwner(s, t, player)
            || (step == LockPlayer(t) && player in s.players && s.players[player] && LimitFits(s.txns[t].job)
                && LocksPlayer(s.txns[t].job))
  {
    hide ReadPosting, Vacated;
    PlayerOwnerStep(s, step, t, player);
  }

  lemma {:induction false} LineChecked(states: seq<State>, steps: seq<Step>, n: nat, t: nat, player: Id)
    returns (k: nat)
    requires Behavior(states, steps) && Init(states[0]) && n < |states| && PlayerOwner(states[n], t, player)
    ensures k < n && LineWasOn(states, steps, k, t, player, states[n].txns[t].job)
  {
    hide Apply, Enabled, PlayerOwner, Inv;
    assert n > 0 by { NobodyOwns(states[0], t, player); }
    assert Enabled(states[n - 1], steps[n - 1]) && states[n] == Apply(states[n - 1], steps[n - 1]);
    InvAlways(states, steps, n - 1);
    HeldByInv(states[n - 1]);
    LineCheckedStep(states[n - 1], steps[n - 1], t, player);
    if PlayerOwner(states[n - 1], t, player) {
      k := LineChecked(states, steps, n - 1, t, player);
    } else {
      k := n - 1;
    }
  }

  lemma NobodyOwns(s: State, t: nat, player: Id)
    requires Init(s)
    ensures !PlayerOwner(s, t, player)
  {
  }

  lemma HeldByInv(s: State)
    requires Inv(s)
    ensures RequestsHeld(s)
  {
  }

  /** Every approval of credit and every new credit request that commits found its player's line on, and the
      limit or amount within the cap, when it locked the player's row; the row stays locked until then. */
  lemma CommitFoundLineOn(states: seq<State>, steps: seq<Step>, n: nat, t: nat) returns (k: nat, player: Id)
    requires Behavior(states, steps) && Init(states[0]) && n < |steps| && steps[n] == Commit(t)
    requires states[n].txns[t].job.ApproveCredit? || states[n].txns[t].job.CreateCredit?
    ensures k < n && LineWasOn(states, steps, k, t, player, states[n].txns[t].job)
    ensures SwitchedOn(states[0], steps, k, player)
    ensures match states[n].txns[t].job
            case ApproveCredit(rid, _) => rid in states[n].requests && states[n].requests[rid].player == player
            case CreateCredit(_, p, _) => p == player
            case _ => false
    ensures PlayerOwner(states[n], t, player)
  {
    InvAlways(states, steps, n);
    assert Enabled(states[n], steps[n]);
    assert SeenFits(states[n], states[n].txns[t]);
    hide Behavior, Init, Inv, Enabled, Apply;
    player := PlayerOf(states[n].txns[t]).value;
    k := LineChecked(states, steps, n, t, player);
    LineIsAsSwitched(states, steps, k, player);
  }

  // ---------------------------------------------------------------- no deadlock

  /** t is blocked on a row that u has locked. */
  predicate WaitsFor(s: State, t: nat, u: nat) {
    && t in s.txns && t != u
    && ((WantsRequest(s.txns[t]) && RequestOwner(s, u, s.txns[t].job.rid))
        || (WantsPlayer(s.txns[t]) && PlayerOwner(s, u, PlayerOf(s.txns[t]).value))
        || (WantsClub(s.txns[t]) && ClubOwner(s, u)))
  }

  /** An approval waits for its player's row, which it asks for while it holds the club's. */
  ghost predicate ApprovalBlocked(s: State, a: nat) {
    a in s.txns && s.txns[a].job.ApproveCredit? && exists u :: WaitsFor(s, a, u) && WantsPlayer(s.txns[a])
  }

  /** How far along a transaction is that waits in no such way. */
  function Rank(x: Txn): nat {
    match x.phase
    case Started => 0
    case HoldsRequest => 1
    case HoldsPlayer => if x.job.CreateCredit? then 1 else 2
    case _ => 2
  }

  /** A step that moves a transaction forward rather than aborting it. */
  predicate Advances(s: State, t: nat, step: Step) {
    && Enabled(s, step)
    && (step == LockRequest(t) || step == LockPlayer(t) || step == LockClub(t) || step == Read(t) || step == Commit(t))
  }

  predicate IsChain(s: State, chain: seq<nat>) {
    forall i :: 0 <= i < |chain| - 1 ==> WaitsFor(s, chain[i], chain[i + 1])
  }

  /** A blocked approval is in a deadlock: the only one who can hold the player's row is a new request of
      the same player, which waits for the club's row that the approval holds. */
  lemma BlockedIsDeadlock(s: State, a: nat, u: nat)
    requires Inv(s) && WaitsFor(s, a, u) && WantsPlayer(s.txns[a]) && s.txns[a].job.ApproveCredit?
    ensures u in s.txns && s.txns[u].job.CreateCredit? && PlayerOf(s.txns[u]) == PlayerOf(s.txns[a])
    ensures WaitsFor(s, u, a)
  {
    assert SeenFits(s, s.txns[a]) && SeenFits(s, s.txns[u]);
    assert ClubOwner(s, a);
    assert ClubOwner(s, u) ==> a == u;
  }

  lemma WaitRanks(s: State, t: nat, u: nat)
    requires Inv(s) && WaitsFor(s, t, u)
    requires !(s.txns[t].job.ApproveCredit? && WantsPlayer(s.txns[t]))
    ensures u in s.txns && Rank(s.txns[u]) > Rank(s.txns[t])
  {
    assert SeenFits(s, s.txns[t]) && SeenFits(s, s.txns[u]);
  }

  /** Along a chain of waits without a blocked approval the transactions are further and further along. */
  lemma {:induction false} ChainClimbs(s: State, chain: seq<nat>, i: nat, j: nat)
    requires Inv(s) && IsChain(s, chain) && i < j < |chain|
    requires forall a :: !ApprovalBlocked(s, a)
    ensures chain[i] in s.txns && chain[j] in s.txns
    ensures Rank(s.txns[chain[j]]) >= Rank(s.txns[chain[i]]) + (j - i)
    decreases j
  {
    hide Inv;
    assert WaitsFor(s, chain[j - 1], chain[j]);
    assert !ApprovalBlocked(s, chain[j - 1]);
    WaitRanks(s, chain[j - 1], chain[j]);
    if i < j - 1 {
      ChainClimbs(s, chain, i, j - 1);
    }
  }

  ghost predicate IsCycle(s: State, chain: seq<nat>) {
    |chain| > 1 && IsChain(s, chain) && chain[0] == chain[|chain| - 1]
  }

  /** Exactly when waits on request, player and club rows deadlock: in every reachable state some chain of
      waits closes if and only if an approval of credit waits for its player's row. Otherwise a chain has
      at most three members and never repeats one. */
  lemma DeadlockExactly(states: seq<State>, steps: seq<Step>, n: nat)
    requires Behavior(states, steps) && Init(states[0]) && n < |states|
    ensures (exists chain :: IsCycle(states[n], chain)) <==> (exists a :: ApprovalBlocked(states[n], a))
    ensures (forall a :: !ApprovalBlocked(states[n], a)) ==>
      forall chain :: IsChain(states[n], chain) ==>
        |chain| <= 3 && forall i, j :: 0 <= i < j < |chain| ==> chain[i] != chain[j]
  {
    InvAlways(states, steps, n);
    var s := states[n];
    if a :| ApprovalBlocked(s, a) {
      var u :| WaitsFor(s, a, u) && WantsPlayer(s.txns[a]);
      BlockedIsDeadlock(s, a, u);
      assert IsCycle(s, [a, u, a]);
    } else {
      forall chain | IsChain(s, chain)
        ensures |chain| <= 3 && !IsCycle(s, chain) && forall i, j :: 0 <= i < j < |chain| ==> chain[i] != chain[j]
      {
        NoWaitCycle(s, chain);
      }
    }
  }

  lemma NoWaitCycle(s: State, chain: seq<nat>)
    requires Inv(s) && IsChain(s, chain) && forall a :: !ApprovalBlocked(s, a)
    ensures |chain| <= 3 && !IsCycle(s, chain)
    ensures forall i, j :: 0 <= i < j < |chain| ==> chain[i] != chain[j]
  {
    hide Inv;
    if |chain| > 1 {
      ChainClimbs(s, chain, 0, |chain| - 1);
    }
    forall i, j | 0 <= i < j < |chain|
      ensures chain[i] != chain[j]
    {
      ChainClimbs(s, chain, i, j);
    }
  }

  /** Whoever is in flight can advance without aborting, or waits, directly or over others, for somebody who
      can, or for an approval that waits for its player's row. */
  lemma {:induction false} NeverStuck(states: seq<State>, steps: seq<Step>, n: nat, t: nat)
    returns (chain: seq<nat>, step: Step)
    requires Behavior(states, steps) && Init(states[0]) && n < |states|
    requires t in states[n].txns && InFlight(states[n].txns[t])
    ensures 0 < |chain| <= 3 - Rank(states[n].txns[t]) && chain[0] == t && IsChain(states[n], chain)
    ensures var u := chain[|chain| - 1];
      && u in states[n].txns && InFlight(states[n].txns[u])
      && (Advances(states[n], u, step) || ApprovalBlocked(states[n], u))
    decreases 2 - Rank(states[n].txns[t])
  {
    var s := states[n];
    InvAlways(states, steps, n);
    var x := s.txns[t];
    assert SeenFits(s, x) && PhaseFits(x);
    chain, step := [t], NextLock(s, t);
    if x.phase.Ready? {
      step := Commit(t);
    } else if MayRead(x) {
      step := Read(t);
    } else if v: nat :| WaitsFor(s, t, v) {
      if !ApprovalBlocked(s, t) {
        WaitRanks(s, t, v);
        assert SeenFits(s, s.txns[v]);
        chain, step := NeverStuck(states, steps, n, v);
        chain := [t] + chain;
      }
    } else {
      FreeLock(s, t);
    }
  }

  /** The lock a transaction asks for next. */
  function NextLock(s: State, t: nat): Step
    requires t in s.txns
  {
    if WantsRequest(s.txns[t]) then LockRequest(t) else if WantsClub(s.txns[t]) then LockClub(t) else LockPlayer(t)
  }

  /** A transaction that waits for nobody can take its next lock. */
  lemma FreeLock(s: State, t: nat)
    requires t in s.txns && SeenFits(s, s.txns[t]) && PhaseFits(s.txns[t]) && InFlight(s.txns[t])
    requires !MayRead(s.txns[t]) && !s.txns[t].phase.Ready?
    requires forall u :: !WaitsFor(s, t, u)
    ensures Advances(s, t, NextLock(s, t))
  {
    var x := s.txns[t];
    forall u | u in s.txns
      ensures WantsRequest(x) ==> !RequestOwner(s, u, x.job.rid)
      ensures WantsClub(x) ==> !ClubOwner(s, u)
      ensures WantsPlayer(x) ==> !PlayerOwner(s, u, PlayerOf(x).value)
    {
      assert !WaitsFor(s, t, u);
    }
  }

  // ---------------------------------------------------------------- building runs

  /** A run from an initial state. */
  datatype Run = Run(states: seq<State>, steps: seq<Step>) {
    ghost predicate Valid() {
      |states| > 0 && Behavior(states, steps) && Init(states[0])
    }

    function Last(): State
      requires |states| > 0
    {
      states[|states| - 1]
    }

    predicate Continues(run: Run) {
      run.states <= states && run.steps <= steps
    }
  }

  lemma Extend(run: Run, step: Step) returns (more: Run)
    requires run.Valid() && Enabled(run.Last(), step)
    ensures more.Valid() && more.Continues(run) && more.Last() == Apply(run.Last(), step)
    ensures more == Run(run.states + [Apply(run.Last(), step)], run.steps + [step])
  {
    hide Enabled, Apply, Init;
    more := Run(run.states + [Apply(run.Last(), step)], run.steps + [step]);
    forall i | 0 <= i < |more.steps|
      ensures Enabled(more.states[i], more.steps[i]) && more.states[i + 1] == Apply(more.states[i], more.steps[i])
    {
      if i < |run.steps| {
        assert Enabled(run.states[i], run.steps[i]) && run.states[i + 1] == Apply(run.states[i], run.steps[i]);
      }
    }
  }
}
