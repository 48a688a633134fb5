/** Runs in which a credit request goes wrong: an update that saves an old row of it after its approval,
    and an approval that meets a new request of the same player. */
module RequestRaces {
  import opened Basics
  import opened Ledger
  import opened Postings
  import opened ClubStore
  import opened RequestProtocol

  /** No transaction is in flight. */
  ghost predicate Quiet(s: State) {
    forall t :: t in s.txns ==> s.txns[t].phase.Finished?
  }

  predicate CreditOpen(s: State, player: Id) {
    player in s.players && s.players[player]
  }

  // ---------------------------------------------------------------- one approval

  /** The state with approval t of the request added in that phase. */
  function Approving(s: State, t: nat, rid: Id, phase: Phase): State
    requires rid in s.requests
  {
    var seen := if phase.Started? then None else Some(s.requests[rid]);
    s.(txns := s.txns[t := Txn(ApproveCredit(rid, None), 0, seen, phase)])
  }

  ghost predicate CanApprove(s: State, t: nat, rid: Id) {
    && Quiet(s) && t !in s.txns && rid in s.requests
    && s.requests[rid].kind == CreditKind && s.requests[rid].status == Pending
    && CreditOpen(s, s.requests[rid].player)
  }

  function ApprovalPosting(s: State, rid: Id): Posting
    requires rid in s.requests
  {
    var r := s.requests[rid];
    Posting(Some(rid), r.player, r.amount, 0, SeatRead(SeatOf(s.waitlist, r.player), r.amount))
  }

  function ApprovedRow(r: Request): Request {
    r.(status := Approved, limit := r.amount, visible := true)
  }

  function ApprovalWrite(s: State, rid: Id): Write
    requires rid in s.requests
  {
    Write(Some((rid, ApprovedRow(s.requests[rid]))), [ApprovalPosting(s, rid)], None)
  }

  function AfterApproval(s: State, t: nat, rid: Id): State
    requires rid in s.requests
  {
    Approving(s, t, rid, Finished(true))
      .(requests := s.requests[rid := ApprovedRow(s.requests[rid])], log := s.log + [ApprovalPosting(s, rid)])
  }

  lemma ApprovalLocks(s: State, t: nat, rid: Id)
    requires CanApprove(s, t, rid)
    ensures Enabled(s, Begin(t, ApproveCredit(rid, None), 0))
         && Apply(s, Begin(t, ApproveCredit(rid, None), 0)) == Approving(s, t, rid, Started)
    ensures Enabled(Approving(s, t, rid, Started), LockRequest(t))
         && Apply(Approving(s, t, rid, Started), LockRequest(t)) == Approving(s, t, rid, HoldsRequest)
    ensures Enabled(Approving(s, t, rid, HoldsRequest), LockClub(t))
         && Apply(Approving(s, t, rid, HoldsRequest), LockClub(t)) == Approving(s, t, rid, HoldsClub)
    ensures Enabled(Approving(s, t, rid, HoldsClub), LockPlayer(t))
         && Apply(Approving(s, t, rid, HoldsClub), LockPlayer(t)) == Approving(s, t, rid, HoldsPlayer)
  {
  }

  lemma ApprovalCommits(s: State, t: nat, rid: Id)
    requires CanApprove(s, t, rid)
    ensures var ready := Approving(s, t, rid, Ready(ApprovalWrite(s, rid)));
      && Enabled(Approving(s, t, rid, HoldsPlayer), Read(t))
      && Apply(Approving(s, t, rid, HoldsPlayer), Read(t)) == ready
      && Enabled(ready, Commit(t)) && Apply(ready, Commit(t)) == AfterApproval(s, t, rid)
  {
    hide SeatOf;
    assert Vacated(s.waitlist, [ApprovalPosting(s, rid)], None) == s.waitlist by {
      assert [ApprovalPosting(s, rid)][..0] == [];
    }
  }

  lemma RunApproval(run: Run, t: nat, rid: Id) returns (more: Run)
    requires run.Valid() && CanApprove(run.Last(), t, rid)
    ensures more.Valid() && more.Continues(run) && more.Last() == AfterApproval(run.Last(), t, rid)
  {
    var s := run.Last();
    hide Enabled, Apply, CanApprove, Init, Behavior, Approving, AfterApproval;
    ApprovalLocks(s, t, rid);
    ApprovalCommits(s, t, rid);
    more := Extend(run, Begin(t, ApproveCredit(rid, None), 0));
    more := Extend(more, LockRequest(t));
    more := Extend(more, LockClub(t));
    more := Extend(more, LockPlayer(t));
    more := Extend(more, Read(t));
    more := Extend(more, Commit(t));
  }

  // ---------------------------------------------------------------- one new request

  function Creating(s: State, t: nat, rid: Id, player: Id, amount: int, phase: Phase): State {
    s.(txns := s.txns[t := Txn(CreateCredit(rid, player, amount), 0, None, phase)], used := s.used + {rid})
  }

  function NewCredit(player: Id, amount: int): Request {
    Request(CreditKind, player, amount, amount, true, Pending)
  }

  ghost predicate CanCreate(s: State, t: nat, rid: Id, player: Id, amount: int) {
    && t !in s.txns && rid !in s.used && CreditOpen(s, player) && 0 < amount <= CREDIT_CAP
    && forall u :: u in s.txns ==> !PlayerOwner(s, u, player)
  }

  function AfterCreate(s: State, t: nat, rid: Id, player: Id, amount: int): State {
    Creating(s, t, rid, player, amount, Finished(true)).(requests := s.requests[rid := NewCredit(player, amount)])
  }

  lemma CreateLocks(s: State, t: nat, rid: Id, player: Id, amount: int)
    requires CanCreate(s, t, rid, player, amount)
    ensures Enabled(s, Begin(t, CreateCredit(rid, player, amount), 0))
         && Apply(s, Begin(t, CreateCredit(rid, player, amount), 0)) == Creating(s, t, rid, player, amount, Started)
    ensures Enabled(Creating(s, t, rid, player, amount, Started), LockPlayer(t))
         && Apply(Creating(s, t, rid, player, amount, Started), LockPlayer(t))
            == Creating(s, t, rid, player, amount, HoldsPlayer)
  {
    var c := Creating(s, t, rid, player, amount, Started);
    forall u | u in c.txns
      ensures !PlayerOwner(c, u, player)
    {
      assert u != t ==> !PlayerOwner(s, u, player);
    }
  }

  function CreateWrite(rid: Id, player: Id, amount: int): Write {
    Write(Some((rid, NewCredit(player, amount))), [], None)
  }

  lemma CreateReads(s: State, t: nat, rid: Id, player: Id, amount: int)
    requires CanCreate(s, t, rid, player, amount) && Quiet(s) && forall other :: !PendingCredit(s, other, player)
    ensures Enabled(Creating(s, t, rid, player, amount, HoldsPlayer), LockClub(t))
    ensures Apply(Creating(s, t, rid, player, amount, HoldsPlayer), LockClub(t))
         == Creating(s, t, rid, player, amount, HoldsClub)
    ensures Enabled(Creating(s, t, rid, player, amount, HoldsClub), Read(t))
    ensures Apply(Creating(s, t, rid, player, amount, HoldsClub), Read(t))
         == Creating(s, t, rid, player, amount, Ready(CreateWrite(rid, player, amount)))
  {
    hide SeatOf, SeatedAt, LedgerOf, Owed, Vacated;
    var c := Creating(s, t, rid, player, amount, HoldsClub);
    assert forall other :: PendingCredit(c, other, player) ==> PendingCredit(s, other, player);
  }

  lemma CreateCommits(s: State, t: nat, rid: Id, player: Id, amount: int)
    ensures var ready := Creating(s, t, rid, player, amount, Ready(CreateWrite(rid, player, amount)));
      Enabled(ready, Commit(t)) && Apply(ready, Commit(t)) == AfterCreate(s, t, rid, player, amount)
  {
    hide SeatOf, SeatedAt, LedgerOf, Owed, CancelSeats;
    assert s.log + [] == s.log;
  }

  lemma RunCreate(run: Run, t: nat, rid: Id, player: Id, amount: int) returns (more: Run)
    requires run.Valid() && CanCreate(run.Last(), t, rid, player, amount)
    requires Quiet(run.Last()) && forall other :: !PendingCredit(run.Last(), other, player)
    ensures more.Valid() && more.Continues(run) && more.Last() == AfterCreate(run.Last(), t, rid, player, amount)
  {
    var s := run.Last();
    hide Enabled, Apply, CanCreate, Init, Behavior, Creating, AfterCreate, Quiet, PendingCredit;
    CreateLocks(s, t, rid, player, amount);
    CreateReads(s, t, rid, player, amount);
    CreateCommits(s, t, rid, player, amount);
    more := Extend(run, Begin(t, CreateCredit(rid, player, amount), 0));
    more := Extend(more, LockPlayer(t));
    more := Extend(more, LockClub(t));
    more := Extend(more, Read(t));
    more := Extend(more, Commit(t));
  }

  // ---------------------------------------------------------------- a request posted twice

  /** From every reachable state: an update that read the request pending can save after its approval and
      set it back to pending, and a second approval posts its rows again. */
  lemma StaleSavePostsAgain(run: Run, k: nat, t: nat, rid: Id) returns (more: Run)
    requires run.Valid() && Quiet(run.Last()) && t !in run.Last().txns
    requires k in run.Last().updates && run.Last().updates[k].rid == rid && !run.Last().updates[k].saved
    requires run.Last().updates[k].seen.status == Pending
    requires IsApproved(run.Last(), rid) && CreditOpen(run.Last(), run.Last().requests[rid].player)
    ensures more.Valid() && more.Continues(run)
    ensures IsApproved(more.Last(), rid) && PostingsOf(more.Last().log, rid) == PostingsOf(run.Last().log, rid) + 1
    ensures more.Last() == AfterApproval(Apply(run.Last(), Save(k)), t, rid)
  {
    var s := run.Last();
    InvAlways(run.states, run.steps, |run.states| - 1);
    assert UpdateFits(s, s.updates[k]);
    more := Extend(run, Save(k));
    more := RunApproval(more, t, rid);
    assert more.Last().log[..|s.log|] == s.log;
  }

  const SEAT := Entry("p", Seated, Some(1), Some(0))

  /** A seated player with the credit line on, and an empty ledger. */
  function Opening(): State {
    State(map[], {}, [], [], [SEAT], map["p" := true], map[], map[])
  }

  /** The player has filed a request of 100, and updateVisibility has read it. */
  function Filed(): State {
    AfterCreate(Opening(), 1, "a", "p", 100)
      .(updates := map[0 := Update("a", NewCredit("p", 100), VisibleTo(true), false)])
  }

  /** Then it was approved. */
  function OnceApproved(): State {
    AfterApproval(Filed(), 2, "a")
  }

  lemma ApprovedMeanwhile() returns (run: Run)
    ensures run.Valid() && run.Last() == OnceApproved()
  {
    hide AfterApproval;
    run := Run([Opening()], []);
    run := RunCreate(run, 1, "a", "p", 100);
    run := Extend(run, ReadUpdate(0, "a", VisibleTo(true)));
    run := RunApproval(run, 2, "a");
  }

  lemma OnceApprovedIs()
    ensures var s := OnceApproved();
      && Quiet(s) && s.txns.Keys == {1, 2} && s.used == {"a"} && CreditOpen(s, "p")
      && s.requests == map["a" := ApprovedRow(NewCredit("p", 100))]
      && s.updates == map[0 := Update("a", NewCredit("p", 100), VisibleTo(true), false)]
      && s.other == [] && s.log == [Draw100()] && s.waitlist == [SEAT]
  {
  }

  /** It does happen, from an empty ledger: a credit request of 100 is filed, updateVisibility reads it, it
      is approved, the update saves, it is approved again. The player owes 200 on a line of 100. */
  lemma PostedTwice() returns (run: Run)
    ensures run.Valid() && PostingsOf(run.Last().log, "a") == 2
    ensures run.Last().requests == map["a" := ApprovedRow(NewCredit("p", 100))]
    ensures Total(CreditNet, LedgerOf(run.Last()), "p") == 200
  {
    OnceApprovedIs();
    hide OnceApproved, Total, Quiet;
    run := ApprovedMeanwhile();
    run := StaleSavePostsAgain(run, 0, 3, "a");
    TwoDraws(run.Last());
  }

  function Draw100(): Posting {
    Posting(Some("a"), "p", 100, 0, SeatRead(Some(SEAT), 100))
  }

  lemma TwoDraws(s: State)
    requires s.other == [] && s.log == [Draw100(), Draw100()]
    ensures PostingsOf(s.log, "a") == 2 && Total(CreditNet, LedgerOf(s), "p") == 200
  {
    var once := [] + CreditRows("p", 100, 0);
    assert s.log[..1] == [Draw100()] && [Draw100()][..0] == [];
    assert Flatten([Draw100()]) == once;
    assert LedgerOf(s) == once + CreditRows("p", 100, 0);
    CreditEffect(CreditNet, [], "p", 100, 0, "p");
    CreditEffect(CreditNet, once, "p", 100, 0, "p");
  }

  // ---------------------------------------------------------------- two pending requests

  /** The same save, after the player filed the next request, leaves two pending ones. */
  lemma TwoPending() returns (run: Run)
    ensures run.Valid() && PendingCredit(run.Last(), "a", "p") && PendingCredit(run.Last(), "b", "p")
  {
    OnceApprovedIs();
    hide OnceApproved, Quiet;
    run := ApprovedMeanwhile();
    run := RunCreate(run, 3, "b", "p", 100);
    run := Extend(run, Save(0));
  }

  // ---------------------------------------------------------------- an approval that meets a new request

  /** From every reachable state without transactions in flight: the approval of a pending credit request
      and the filing of a new one by the same player can come to wait for each other. */
  lemma ApprovalMeetsCreate(run: Run, t: nat, u: nat, rid: Id, filed: Id, amount: int) returns (more: Run)
    requires run.Valid() && CanApprove(run.Last(), t, rid) && t != u
    requires CanCreate(run.Last(), u, filed, run.Last().requests[rid].player, amount)
    ensures more.Valid() && more.Continues(run)
    ensures WaitsFor(more.Last(), t, u) && WaitsFor(more.Last(), u, t) && ApprovalBlocked(more.Last(), t)
  {
    var s := run.Last();
    var player := s.requests[rid].player;
    ApprovalLocks(s, t, rid);
    var held := Approving(s, t, rid, HoldsClub);
    assert CanCreate(held, u, filed, player, amount) by {
      assert forall v :: v in held.txns && v != t ==> held.txns[v] == s.txns[v];
    }
    CreateLocks(held, u, filed, player, amount);
    more := CrossingRun(run, t, u, rid, filed, amount);
    assert WaitsFor(more.Last(), t, u);
  }

  lemma CrossingRun(run: Run, t: nat, u: nat, rid: Id, filed: Id, amount: int) returns (more: Run)
    requires run.Valid() && CanApprove(run.Last(), t, rid)
    requires CanCreate(Approving(run.Last(), t, rid, HoldsClub), u, filed, run.Last().requests[rid].player, amount)
    ensures more.Valid() && more.Continues(run)
    ensures more.Last() == Creating(Approving(run.Last(), t, rid, HoldsClub), u, filed,
                                    run.Last().requests[rid].player, amount, HoldsPlayer)
  {
    var s := run.Last();
    hide Enabled, Apply, CanApprove, CanCreate, Init, Behavior, Approving, Creating;
    var player := s.requests[rid].player;
    ApprovalLocks(s, t, rid);
    CreateLocks(Approving(s, t, rid, HoldsClub), u, filed, player, amount);
    more := Extend(run, Begin(t, ApproveCredit(rid, None), 0));
    more := Extend(more, LockRequest(t));
    more := Extend(more, LockClub(t));
    more := Extend(more, Begin(u, CreateCredit(filed, player, amount), 0));
    more := Extend(more, LockPlayer(u));
  }
}
