/** The unlocked updates of a credit request against its decisions: updateLimit and updateVisibility save
    the whole row as they have read it, so a decision that commits in between is undone. This module says
    exactly when decisions, postings and the rule of one pending request per player survive that. */
module RequestUpdates {
  import opened Basics
  import opened Ledger
  import opened Postings
  import opened ClubStore
  import opened RequestProtocol

  /** Which decisions count: approvals and refusals, or approvals only. */
  datatype Scope = Decisions | Approvals

  /** When only approvals count, a refused request is as good as a pending one. */
  function View(status: RequestStatus, scope: Scope): RequestStatus {
    if scope.Approvals? && status == Refused then Pending else status
  }

  /** A transaction decides the request by committing. */
  predicate DecidesNow(s: State, step: Step, rid: Id, scope: Scope) {
    && step.Commit? && step.t in s.txns && HasRequest(s.txns[step.t].job) && s.txns[step.t].job.rid == rid
    && (scope.Approvals? ==> !s.txns[step.t].job.Refuse?)
  }

  /** An update that saves the request finds the status it has read. */
  predicate Fresh(s: State, step: Step, rid: Id, scope: Scope) {
    step.Save? && step.k in s.updates && s.updates[step.k].rid == rid && rid in s.requests
    ==> View(s.requests[rid].status, scope) == View(s.updates[step.k].seen.status, scope)
  }

  ghost predicate AllFresh(states: seq<State>, steps: seq<Step>, m: nat, n: nat, rid: Id, scope: Scope) {
    forall i :: m <= i < n && i < |steps| && i < |states| ==> Fresh(states[i], steps[i], rid, scope)
  }

  /** What one step does to a status: a decision takes pending to decided, a fresh save or anything else
      leaves it. */
  lemma StatusStep(s: State, step: Step, rid: Id, scope: Scope)
    requires Inv(s) && Enabled(s, step) && rid in s.requests
    ensures rid in Apply(s, step).requests
    ensures var before, after := View(s.requests[rid].status, scope), View(Apply(s, step).requests[rid].status, scope);
      && (DecidesNow(s, step, rid, scope) ==> before == Pending && after != Pending)
      && (!DecidesNow(s, step, rid, scope) ==> (after == before <==> Fresh(s, step, rid, scope)))
      && (step.Save? && s.updates[step.k].rid == rid ==> after == View(s.updates[step.k].seen.status, scope))
  {
    hide ReadPosting, AfterRead, Vacated, LogFits, Exclusive;
    RequestRowStep(s, step, rid);
    if step.Commit? {
      assert PhaseFits(s.txns[step.t]) && SeenFits(s, s.txns[step.t]);
    } else if step.Save? {
      assert UpdateFits(s, s.updates[step.k]);
    }
  }

  /** The decided status of the request, if it has one, stands through step i. */
  predicate Stands(states: seq<State>, i: int, rid: Id, scope: Scope) {
    0 <= i && i + 1 < |states| && rid in states[i].requests && View(states[i].requests[rid].status, scope) != Pending
    ==> && rid in states[i + 1].requests
        && View(states[i + 1].requests[rid].status, scope) == View(states[i].requests[rid].status, scope)
  }

  /** Up to step n, every decided status of the request stands through the next step. */
  ghost predicate DecisionsStand(states: seq<State>, n: nat, rid: Id, scope: Scope) {
    forall i :: 0 <= i < n ==> Stands(states, i, rid, scope)
  }

  /** The decision at step i falls between the read and the save of the update that saves at step b. */
  predicate Crosses(states: seq<State>, steps: seq<Step>, i: int, b: int, rid: Id, scope: Scope) {
    && 0 <= i < b < |steps| && b < |states|
    && steps[b].Save? && steps[b].k in states[b].updates && states[b].updates[steps[b].k].rid == rid
    && steps[b].k in states[i].updates && DecidesNow(states[i], steps[i], rid, scope)
  }

  /** No decision falls between the read and the save of an update that saves at step b. */
  ghost predicate NoneCrossesAt(states: seq<State>, steps: seq<Step>, b: int, rid: Id, scope: Scope) {
    forall i :: 0 <= i < b ==> !Crosses(states, steps, i, b, rid, scope)
  }

  ghost predicate NoneCrosses(states: seq<State>, steps: seq<Step>, n: nat, rid: Id, scope: Scope) {
    forall b :: 0 <= b < n ==> NoneCrossesAt(states, steps, b, rid, scope)
  }

  /** A decision at step i while update k had read and not saved. */
  predicate DecidedSince(states: seq<State>, steps: seq<Step>, i: int, k: nat, rid: Id, scope: Scope) {
    0 <= i < |steps| && i < |states| && k in states[i].updates && DecidesNow(states[i], steps[i], rid, scope)
  }

  lemma UpdatesStay(s: State, step: Step, k: nat)
    requires Enabled(s, step) && k in s.updates
    ensures k in Apply(s, step).updates
  {
    hide ReadPosting, AfterRead, Vacated;
  }

  lemma {:induction false} KeptSince(states: seq<State>, steps: seq<Step>, i: nat, b: nat, k: nat)
    requires Behavior(states, steps) && i <= b < |states| && k in states[i].updates
    ensures k in states[b].updates
    decreases b
  {
    hide Apply, Enabled;
    if i < b {
      KeptSince(states, steps, i, b - 1, k);
      UpdatesStay(states[b - 1], steps[b - 1], k);
    }
  }

  /** Before step b no decision on the request has committed since update k read it. */
  ghost predicate NoneSince(states: seq<State>, steps: seq<Step>, b: nat, k: nat, rid: Id, scope: Scope) {
    forall i :: 0 <= i < b ==> !DecidedSince(states, steps, i, k, rid, scope)
  }

  lemma NoneSinceStep(states: seq<State>, steps: seq<Step>, b: nat, k: nat, rid: Id, scope: Scope)
    requires b < |steps| && b < |states| && k in states[b].updates
    ensures NoneSince(states, steps, b + 1, k, rid, scope)
       <==> NoneSince(states, steps, b, k, rid, scope) && !DecidesNow(states[b], steps[b], rid, scope)
  {
    hide DecidesNow;
    assert DecidedSince(states, steps, b, k, rid, scope) <==> DecidesNow(states[b], steps[b], rid, scope);
  }

  lemma NoneBefore(states: seq<State>, steps: seq<Step>, b: nat, k: nat, rid: Id, scope: Scope)
    requires Behavior(states, steps) && b < |states| && k !in states[b].updates
    ensures NoneSince(states, steps, b + 1, k, rid, scope)
  {
    hide DecidesNow, Apply, Enabled;
    forall i | 0 <= i < b + 1
      ensures !DecidedSince(states, steps, i, k, rid, scope)
    {
      if k in states[i].updates {
        KeptSince(states, steps, i, b, k);
        assert false;
      }
    }
  }

  /** The status differs from the one update k read exactly if a decision has committed since; and a
      decided status that was read still stands. */
  ghost predicate ReadStands(states: seq<State>, steps: seq<Step>, b: nat, k: nat, scope: Scope)
    requires b < |states| && k in states[b].updates
  {
    var s, u := states[b], states[b].updates[k];
    && u.rid in s.requests
    && (View(s.requests[u.rid].status, scope) == View(u.seen.status, scope)
        <==> NoneSince(states, steps, b, k, u.rid, scope))
    && (View(u.seen.status, scope) != Pending ==> View(s.requests[u.rid].status, scope) == View(u.seen.status, scope))
  }

  lemma ReadStandsStep(states: seq<State>, steps: seq<Step>, b: nat, k: nat, scope: Scope)
    requires b + 1 < |states| && b < |steps| && Inv(states[b]) && Enabled(states[b], steps[b])
    requires states[b + 1] == Apply(states[b], steps[b]) && k in states[b].updates && k in states[b + 1].updates
    requires states[b].updates[k] == states[b + 1].updates[k]
    requires ReadStands(states, steps, b, k, scope) && Fresh(states[b], steps[b], states[b].updates[k].rid, scope)
    ensures ReadStands(states, steps, b + 1, k, scope)
  {
    hide Apply, Enabled, Inv, DecidesNow, Fresh, NoneSince;
    StatusStep(states[b], steps[b], states[b].updates[k].rid, scope);
    NoneSinceStep(states, steps, b, k, states[b].updates[k].rid, scope);
  }

  /** Between the read and the save of an update this is so, on a request whose earlier saves were fresh. */
  lemma {:induction false} SinceRead(states: seq<State>, steps: seq<Step>, b: nat, k: nat, scope: Scope)
    requires Behavior(states, steps) && Init(states[0]) && b < |states|
    requires k in states[b].updates && !states[b].updates[k].saved
    requires AllFresh(states, steps, 0, b, states[b].updates[k].rid, scope)
    ensures ReadStands(states, steps, b, k, scope)
    decreases b
  {
    hide Apply, Enabled, Inv, DecidesNow, Fresh, ReadStands;
    assert b > 0;
    var u, s, step := states[b].updates[k], states[b - 1], steps[b - 1];
    assert Enabled(s, step) && states[b] == Apply(s, step);
    assert AllFresh(states, steps, 0, b - 1, u.rid, scope) && Fresh(s, step, u.rid, scope);
    hide Init, AllFresh, Behavior;
    InvAlways(states, steps, b - 1);
    UpdateSame(s, step, k);
    if k in s.updates {
      SinceRead(states, steps, b - 1, k, scope);
      ReadStandsStep(states, steps, b - 1, k, scope);
    } else {
      JustRead(states, steps, b - 1, k, scope);
    }
  }

  lemma JustRead(states: seq<State>, steps: seq<Step>, b: nat, k: nat, scope: Scope)
    requires Behavior(states, steps) && b + 1 < |states| && k !in states[b].updates
    requires k in states[b + 1].updates && !states[b + 1].updates[k].saved
    ensures ReadStands(states, steps, b + 1, k, scope)
  {
    hide Apply, Enabled, NoneSince;
    assert Enabled(states[b], steps[b]) && states[b + 1] == Apply(states[b], steps[b]);
    UpdateSame(states[b], steps[b], k);
    NoneBefore(states, steps, b, k, states[b + 1].updates[k].rid, scope);
  }

  /** The next save is fresh exactly if no decision falls between its read and itself. */
  lemma FreshStep(states: seq<State>, steps: seq<Step>, n: nat, rid: Id, scope: Scope)
    requires Behavior(states, steps) && Init(states[0]) && n < |steps|
    requires AllFresh(states, steps, 0, n, rid, scope)
    ensures Fresh(states[n], steps[n], rid, scope) <==> NoneCrossesAt(states, steps, n, rid, scope)
    ensures !Fresh(states[n], steps[n], rid, scope) ==>
      rid in states[n].requests && View(states[n].requests[rid].status, scope) != Pending
      && rid in states[n + 1].requests && View(states[n + 1].requests[rid].status, scope) == Pending
  {
    InvAlways(states, steps, n);
    assert Enabled(states[n], steps[n]) && states[n + 1] == Apply(states[n], steps[n]);
    hide Apply, Init, Inv, DecidesNow;
    if steps[n].Save? && states[n].updates[steps[n].k].rid == rid {
      SinceRead(states, steps, n, steps[n].k, scope);
      StatusStep(states[n], steps[n], rid, scope);
      assert forall i :: 0 <= i < n ==>
        (Crosses(states, steps, i, n, rid, scope) <==> DecidedSince(states, steps, i, steps[n].k, rid, scope));
    }
  }

  lemma OneMoreFresh(states: seq<State>, steps: seq<Step>, n: nat, rid: Id, scope: Scope)
    requires n < |steps| && n < |states|
    ensures AllFresh(states, steps, 0, n + 1, rid, scope)
      <==> AllFresh(states, steps, 0, n, rid, scope) && Fresh(states[n], steps[n], rid, scope)
    ensures NoneCrosses(states, steps, n + 1, rid, scope)
      <==> NoneCrosses(states, steps, n, rid, scope) && NoneCrossesAt(states, steps, n, rid, scope)
    ensures DecisionsStand(states, n + 1, rid, scope)
      <==> DecisionsStand(states, n, rid, scope) && Stands(states, n, rid, scope)
  {
    hide Fresh, Crosses, Stands;
  }

  /** After fresh saves only, the next step keeps a decided status exactly if it is fresh itself. */
  lemma FreshIsStanding(states: seq<State>, steps: seq<Step>, n: nat, rid: Id, scope: Scope)
    requires Behavior(states, steps) && Init(states[0]) && n < |steps|
    requires AllFresh(states, steps, 0, n, rid, scope)
    ensures Fresh(states[n], steps[n], rid, scope) <==> NoneCrossesAt(states, steps, n, rid, scope)
    ensures Fresh(states[n], steps[n], rid, scope) <==> Stands(states, n, rid, scope)
  {
    InvAlways(states, steps, n);
    assert Enabled(states[n], steps[n]) && states[n + 1] == Apply(states[n], steps[n]);
    hide Apply, Enabled, Init, Inv, Crosses, AllFresh;
    FreshStep(states, steps, n, rid, scope);
    if rid in states[n].requests {
      StatusStep(states[n], steps[n], rid, scope);
    }
  }

  /** Exactly when decisions stand: in any run, every decision on a request stands if and only if none
      commits between the read and the save of an update of that request. */
  lemma {:induction false} DecisionsStandExactly(states: seq<State>, steps: seq<Step>, n: nat, rid: Id, scope: Scope)
    requires Behavior(states, steps) && Init(states[0]) && n < |states|
    ensures DecisionsStand(states, n, rid, scope) <==> NoneCrosses(states, steps, n, rid, scope)
    ensures DecisionsStand(states, n, rid, scope) <==> AllFresh(states, steps, 0, n, rid, scope)
  {
    hide Inv, Apply, Enabled, Init, Crosses, Fresh;
    if n > 0 {
      assert |states| == |steps| + 1;
      hide Behavior, AllFresh, NoneCrosses, DecisionsStand;
      DecisionsStandExactly(states, steps, n - 1, rid, scope);
      OneMoreFresh(states, steps, n - 1, rid, scope);
      if AllFresh(states, steps, 0, n - 1, rid, scope) {
        FreshIsStanding(states, steps, n - 1, rid, scope);
      }
    }
  }

  /** So it is from step m on while every save of an update is fresh. */
  lemma {:induction false} KeptWhileFresh(states: seq<State>, steps: seq<Step>, m: nat, n: nat, rid: Id)
    requires Behavior(states, steps) && Init(states[0]) && m <= n < |states|
    requires rid in states[m].requests && states[m].requests[rid].status != Pending
    requires AllFresh(states, steps, m, n, rid, Decisions)
    ensures rid in states[n].requests
    ensures var a, b := states[m].requests[rid], states[n].requests[rid];
      && b.status == a.status && SameOrder(b, a)
      && (a.status == Refused || a.kind != CreditKind ==> b.limit == a.limit)
      && (a.kind != CreditKind ==> b == a)
    decreases n
  {
    hide Apply, Enabled, Init;
    if m < n {
      KeptWhileFresh(states, steps, m, n - 1, rid);
      InvAlways(states, steps, n - 1);
      InvAlways(states, steps, n);
      RequestRowStep(states[n - 1], steps[n - 1], rid);
      StatusStep(states[n - 1], steps[n - 1], rid, Decisions);
    }
    InvAlways(states, steps, m);
  }

  /** Once a request has left pending, and as long as no decision on it commits between the read and the
      save of an update, its status, player, kind and amount never change again, in any continuation of any
      run; only an approved credit request's limit and a credit request's visibility still may. */
  lemma DecidedForever(states: seq<State>, steps: seq<Step>, m: nat, n: nat, rid: Id)
    requires Behavior(states, steps) && Init(states[0]) && m <= n < |states|
    requires rid in states[m].requests && states[m].requests[rid].status != Pending
    requires NoneCrosses(states, steps, n, rid, Decisions)
    ensures rid in states[n].requests
    ensures var a, b := states[m].requests[rid], states[n].requests[rid];
      && b.status == a.status && SameOrder(b, a)
      && (a.status == Refused || a.kind != CreditKind ==> b.limit == a.limit)
      && (a.kind != CreditKind ==> b == a)
  {
    DecisionsStandExactly(states, steps, n, rid, Decisions);
    KeptWhileFresh(states, steps, m, n, rid);
  }

  /** Update k read the request's row at step a, and the change it wants is one the call allows: a limit within
      the cap, for an approved request only. */
  predicate ReadAt(states: seq<State>, steps: seq<Step>, a: int, k: nat, u: Update) {
    && 0 <= a < |steps| && a < |states| && steps[a] == ReadUpdate(k, u.rid, u.change)
    && u.rid in states[a].requests && states[a].requests[u.rid] == u.seen && u.seen.kind == CreditKind
    && (u.change.LimitTo? ==> u.seen.status == Approved && 0 <= u.change.limit <= 100_000_000_00)
  }

  lemma {:induction false} UpdateWasRead(states: seq<State>, steps: seq<Step>, n: nat, k: nat) returns (a: nat)
    requires Behavior(states, steps) && Init(states[0]) && n < |states| && k in states[n].updates
    ensures a < n && ReadAt(states, steps, a, k, states[n].updates[k])
  {
    hide Apply, Inv, ReadPosting, AfterRead;
    var s, step := states[n - 1], steps[n - 1];
    assert Enabled(s, step) && states[n] == Apply(s, step);
    UpdateSame(s, step, k);
    if k in s.updates {
      a := UpdateWasRead(states, steps, n - 1, k);
    } else {
      a := n - 1;
    }
  }

  /** A save writes the row its update had read, status and all, but for the one column the call changes, and
      into no other request. */
  lemma SavesAsRead(states: seq<State>, steps: seq<Step>, n: nat, k: nat) returns (a: nat)
    requires Behavior(states, steps) && Init(states[0]) && n < |steps| && steps[n] == Save(k)
    ensures k in states[n].updates && a < n
    ensures var u := states[n].updates[k];
      && ReadAt(states, steps, a, k, u)
      && (forall rid :: rid != u.rid ==> (rid in states[n + 1].requests <==> rid in states[n].requests))
      && (forall rid :: rid in states[n].requests && rid != u.rid ==>
            states[n + 1].requests[rid] == states[n].requests[rid])
      && u.rid in states[n + 1].requests
      && var read, row := states[a].requests[u.rid], states[n + 1].requests[u.rid];
         && SameOrder(row, read) && row.status == read.status
         && (u.change.LimitTo? ==> row.limit == u.change.limit && row.visible == read.visible)
         && (u.change.VisibleTo? ==> row.visible == u.change.visible && row.limit == read.limit)
  {
    assert Enabled(states[n], steps[n]) && states[n + 1] == Apply(states[n], steps[n]);
    a := UpdateWasRead(states, steps, n, k);
  }

  // ---------------------------------------------------------------- posted exactly once

  /** The request's rows are in the ledger exactly once if it is approved, and not at all otherwise. */
  ghost predicate PostedOnce(s: State, rid: Id) {
    PostingsOf(s.log, rid) == if IsApproved(s, rid) then 1 else 0
  }

  /** A save leaves the request approved or not exactly if it is fresh as to approvals. */
  lemma KeptIsFresh(s: State, step: Step, rid: Id)
    requires Inv(s) && Enabled(s, step)
    ensures ApprovalKept(s, step, rid) <==> Fresh(s, step, rid, Approvals)
  {
    hide ReadPosting, AfterRead, Vacated, Exclusive, RequestsHeld, IdsFresh, WritesFit, LogFits;
    if step.Save? {
      assert UpdateFits(s, s.updates[step.k]);
    }
  }

  lemma PostedOnceStep(s: State, step: Step, rid: Id)
    requires Inv(s) && Enabled(s, step) && PostedOnce(s, rid)
    ensures PostedOnce(Apply(s, step), rid) <==> Fresh(s, step, rid, Approvals)
  {
    hide Inv, Apply, Enabled, PostingsOf, IsApproved, ApprovalKept, Fresh;
    KeptIsFresh(s, step, rid);
    ApprovedStep(s, step, rid);
    PostingsStep(s, step, rid);
    assert ApprovesNow(s, step, rid) ==> ApprovalKept(s, step, rid) by { NoSaveKept(s, step, rid); }
  }

  lemma NoSaveKept(s: State, step: Step, rid: Id)
    ensures ApprovesNow(s, step, rid) ==> ApprovalKept(s, step, rid)
  {
  }

  ghost predicate DuePosted(states: seq<State>, steps: seq<Step>, n: nat, i: nat, rid: Id)
    requires n < |states| && i < |states[n].log|
  {
    exists k, j, t :: PostedBy(states, steps, states[n].log[i], k, j, t) && j < n
                      && DueRows(states[k], states[k].txns[t], rid, RowsOf(states[n].log[i]))
  }

  ghost predicate AllPostedOnce(states: seq<State>, n: nat, rid: Id) {
    forall m :: 0 <= m <= n && m < |states| ==> PostedOnce(states[m], rid)
  }

  /** In every interleaving, whatever was posted for a request is what was due when the approving
      transaction, which later committed, read the ledger and the waitlist. And up to any point of a run the
      request's rows are in the ledger exactly once while it is approved, and not at all while it is pending
      or refused, if and only if none of its approvals commits between the read and the save of an update. */
  lemma PostedExactlyOnce(states: seq<State>, steps: seq<Step>, n: nat, rid: Id)
    requires Behavior(states, steps) && Init(states[0]) && n < |states|
    ensures AllPostedOnce(states, n, rid) <==> NoneCrosses(states, steps, n, rid, Approvals)
    ensures forall i :: 0 <= i < |states[n].log| && states[n].log[i].origin == Some(rid) ==>
      DuePosted(states, steps, n, i, rid)
  {
    PostedUpTo(states, steps, n, rid);
    DecisionsStandExactly(states, steps, n, rid, Approvals);
    forall i | 0 <= i < |states[n].log| && states[n].log[i].origin == Some(rid)
      ensures DuePosted(states, steps, n, i, rid)
    {
      var k, j, t := PostingWasRead(states, steps, n, i);
      InvAlways(states, steps, k);
      ReadIsDue(states[k], t, states[n].log[i], rid);
    }
  }

  lemma {:induction false} PostedUpTo(states: seq<State>, steps: seq<Step>, n: nat, rid: Id)
    requires Behavior(states, steps) && Init(states[0]) && n < |states|
    ensures AllPostedOnce(states, n, rid) <==> AllFresh(states, steps, 0, n, rid, Approvals)
  {
    if n == 0 {
      assert PostedOnce(states[0], rid);
    } else {
      hide Apply, Enabled, Inv, Init, PostedOnce, Fresh, AllPostedOnce, AllFresh;
      PostedUpTo(states, steps, n - 1, rid);
      InvAlways(states, steps, n - 1);
      OneMorePosted(states, steps, n - 1, rid);
      var s, step := states[n - 1], steps[n - 1];
      assert Enabled(s, step) && states[n] == Apply(s, step);
      hide Behavior;
      if AllPostedOnce(states, n - 1, rid) {
        PostedOnceStep(s, step, rid);
      }
    }
  }

  lemma OneMorePosted(states: seq<State>, steps: seq<Step>, n: nat, rid: Id)
    requires n < |steps| && n + 1 < |states|
    ensures AllPostedOnce(states, n, rid) ==> PostedOnce(states[n], rid)
    ensures AllPostedOnce(states, n + 1, rid) <==> AllPostedOnce(states, n, rid) && PostedOnce(states[n + 1], rid)
    ensures AllFresh(states, steps, 0, n + 1, rid, Approvals)
      <==> AllFresh(states, steps, 0, n, rid, Approvals) && Fresh(states[n], steps[n], rid, Approvals)
  {
    hide PostedOnce, Fresh;
  }

  // ---------------------------------------------------------------- one pending request per player

  ghost predicate OnePending(s: State) {
    forall a, b, p :: PendingCredit(s, a, p) && PendingCredit(s, b, p) ==> a == b
  }

  predicate CreateReady(s: State, t: nat, player: Id) {
    t in s.txns && s.txns[t].phase.Ready? && s.txns[t].job.CreateCredit? && s.txns[t].job.player == player
  }

  /** The save of an update sets a decided credit request of the player back to pending. */
  predicate Reopens(s: State, step: Step, a: Id, player: Id) {
    && step.Save? && step.k in s.updates && s.updates[step.k].rid == a && s.updates[step.k].seen.status == Pending
    && a in s.requests && s.requests[a].kind == CreditKind && s.requests[a].player == player
    && s.requests[a].status != Pending
  }

  /** Step j reopens a request while another one of the player is pending, or files a new one beside a
      request that was reopened after the new one's check for pending ones. */
  ghost predicate Clash(states: seq<State>, steps: seq<Step>, j: int, a: Id, p: Id) {
    && 0 <= j < |steps| && j < |states|
    && (|| (Reopens(states[j], steps[j], a, p) && exists b :: b != a && PendingCredit(states[j], b, p))
        || (steps[j].Commit? && CreateReady(states[j], steps[j].t, p) && PendingCredit(states[j], a, p)
            && exists i :: ReopenedAt(states, steps, i, j, steps[j].t, a, p)))
  }

  predicate ReopenedAt(states: seq<State>, steps: seq<Step>, i: int, j: int, t: nat, a: Id, p: Id) {
    0 <= i < j && i < |states| && i < |steps| && Reopens(states[i], steps[i], a, p) && CreateReady(states[i], t, p)
  }

  /** A request is newly pending by being filed or by being reopened. */
  lemma PendingCreditStep(s: State, step: Step, a: Id, p: Id)
    requires Inv(s) && Enabled(s, step) && PendingCredit(Apply(s, step), a, p)
    ensures || PendingCredit(s, a, p) || Reopens(s, step, a, p)
            || (step.Commit? && CreateReady(s, step.t, p) && s.txns[step.t].job.rid == a)
  {
    hide ReadPosting, AfterRead, Vacated, LogFits, Exclusive, IdsFresh, SettlesFit;
    if a in s.requests {
      RequestRowStep(s, step, a);
    }
    if step.Commit? {
      assert PhaseFits(s.txns[step.t]) && SeenFits(s, s.txns[step.t]);
    } else if step.Save? {
      assert UpdateFits(s, s.updates[step.k]);
    }
  }

  /** A new request about to be filed has seen none pending, and locks everybody else out of filing one. */
  lemma CreateReadyStep(s: State, step: Step, t: nat, p: Id)
    requires Inv(s) && Enabled(s, step) && CreateReady(Apply(s, step), t, p)
    ensures CreateReady(s, t, p) || (step == Read(t) && forall a :: !PendingCredit(s, a, p))
    ensures step.Commit? ==> !CreateReady(s, step.t, p)
  {
    hide LedgerOf, SeatOf, SeatedAt, Vacated, IdsFresh, WritesFit, LogFits, UpdatesFit, ReadPosting;
    assert SeenFits(s, s.txns[t]);
    assert PlayerOwner(s, t, p);
    assert forall u :: CreateReady(s, u, p) ==> PlayerOwner(s, u, p);
  }

  /** If a request is pending beside a new one about to be filed, an update has reopened it meanwhile. */
  lemma {:induction false} ReopenedMeanwhile(states: seq<State>, steps: seq<Step>, n: nat, t: nat, a: Id, p: Id)
    requires Behavior(states, steps) && Init(states[0]) && n < |states|
    requires CreateReady(states[n], t, p) && PendingCredit(states[n], a, p)
    ensures exists i :: ReopenedAt(states, steps, i, n, t, a, p)
  {
    hide Apply, Enabled, Inv, CreateReady, Reopens;
    assert n > 0;
    var s, step := states[n - 1], steps[n - 1];
    assert Enabled(s, step) && states[n] == Apply(s, step);
    InvAlways(states, steps, n - 1);
    CreateReadyStep(s, step, t, p);
    PendingCreditStep(s, step, a, p);
    if PendingCredit(s, a, p) {
      ReopenedMeanwhile(states, steps, n - 1, t, a, p);
      var i :| ReopenedAt(states, steps, i, n - 1, t, a, p);
      assert ReopenedAt(states, steps, i, n, t, a, p);
    } else {
      assert Reopens(s, step, a, p);
      assert step != Read(t) by { SavesOnly(s, step, a, p); }
      assert ReopenedAt(states, steps, n - 1, n, t, a, p);
    }
  }

  lemma SavesOnly(s: State, step: Step, a: Id, p: Id)
    requires Reopens(s, step, a, p)
    ensures step.Save? && step.k in s.updates && s.updates[step.k].rid == a
  {
  }

  /** A step that makes two requests of a player pending clashes. */
  lemma TwoPendingClash(states: seq<State>, steps: seq<Step>, j: nat, a: Id, b: Id, p: Id)
    requires Behavior(states, steps) && Init(states[0]) && j < |steps| && OnePending(states[j])
    requires PendingCredit(states[j + 1], a, p) && PendingCredit(states[j + 1], b, p) && a != b
    ensures Clash(states, steps, j, a, p) || Clash(states, steps, j, b, p)
  {
    var s, step := states[j], steps[j];
    InvAlways(states, steps, j);
    hide Apply, Enabled, Inv, CreateReady, Reopens, PendingCredit;
    assert Enabled(s, step) && states[j + 1] == Apply(s, step);
    PendingCreditStep(s, step, a, p);
    PendingCreditStep(s, step, b, p);
    if Reopens(s, step, a, p) {
      SavesOnly(s, step, a, p);
      if Reopens(s, step, b, p) {
        SavesOnly(s, step, b, p);
      }
    } else if Reopens(s, step, b, p) {
      SavesOnly(s, step, b, p);
    } else if PendingCredit(s, a, p) {
      ReopenedMeanwhile(states, steps, j, step.t, a, p);
    } else {
      ReopenedMeanwhile(states, steps, j, step.t, b, p);
    }
  }

  /** And a clash makes two requests pending. */
  lemma ClashTwoPending(states: seq<State>, steps: seq<Step>, j: nat, a: Id, p: Id)
    requires Behavior(states, steps) && Init(states[0]) && j < |steps| && Clash(states, steps, j, a, p)
    ensures !OnePending(states[j + 1])
  {
    var s, step := states[j], steps[j];
    assert Enabled(s, step) && states[j + 1] == Apply(s, step);
    InvAlways(states, steps, j);
    if Reopens(s, step, a, p) && exists b :: b != a && PendingCredit(s, b, p) {
      var b :| b != a && PendingCredit(s, b, p);
      ReopenedStays(s, step, a, b, p);
    } else {
      FiledStays(s, step, a, p);
    }
  }

  lemma ReopenedStays(s: State, step: Step, a: Id, b: Id, p: Id)
    requires Inv(s) && Enabled(s, step) && Reopens(s, step, a, p) && b != a && PendingCredit(s, b, p)
    ensures PendingCredit(Apply(s, step), a, p) && PendingCredit(Apply(s, step), b, p)
  {
    assert UpdateFits(s, s.updates[step.k]);
  }

  lemma FiledStays(s: State, step: Step, a: Id, p: Id)
    requires Inv(s) && Enabled(s, step) && step.Commit? && CreateReady(s, step.t, p) && PendingCredit(s, a, p)
    ensures var filed := s.txns[step.t].job.rid;
      filed != a && PendingCredit(Apply(s, step), a, p) && PendingCredit(Apply(s, step), filed, p)
  {
    hide Vacated, LogFits, Exclusive, UpdatesFit, SettlesFit;
    assert PhaseFits(s.txns[step.t]) && Creating(s, step.t, s.txns[step.t].job.rid);
  }

  ghost predicate AlwaysOnePending(states: seq<State>, n: nat) {
    forall m :: 0 <= m <= n && m < |states| ==> OnePending(states[m])
  }

  ghost predicate NoClash(states: seq<State>, steps: seq<Step>, n: nat) {
    forall j, a, p :: 0 <= j < n ==> !Clash(states, steps, j, a, p)
  }

  /** Exactly when no player ever has two pending credit requests, in every interleaving of create, approve,
      deny and updates: no update sets a decided request back to pending while another one is pending, or
      between the check and the commit of a new one that is filed while it is still pending. */
  lemma {:induction false} OnePendingExactly(states: seq<State>, steps: seq<Step>, n: nat)
    requires Behavior(states, steps) && Init(states[0]) && n < |states|
    ensures AlwaysOnePending(states, n) <==> NoClash(states, steps, n)
  {
    if n > 0 {
      hide Apply, Enabled, Inv, Init, Clash;
      OnePendingExactly(states, steps, n - 1);
      if AlwaysOnePending(states, n - 1) {
        LastClash(states, steps, n - 1);
      }
      hide OnePending;
      assert AlwaysOnePending(states, n) <==> AlwaysOnePending(states, n - 1) && OnePending(states[n]);
    }
  }

  lemma LastClash(states: seq<State>, steps: seq<Step>, j: nat)
    requires Behavior(states, steps) && Init(states[0]) && j < |steps| && OnePending(states[j])
    ensures |states| == |steps| + 1
    ensures OnePending(states[j + 1]) <==> !exists a, p :: Clash(states, steps, j, a, p)
  {
    assert |states| == |steps| + 1;
    hide Behavior, Init, Clash, PendingCredit;
    if a, p :| Clash(states, steps, j, a, p) {
      ClashTwoPending(states, steps, j, a, p);
    } else if !OnePending(states[j + 1]) {
      var a, b, p :| PendingCredit(states[j + 1], a, p) && PendingCredit(states[j + 1], b, p) && a != b;
      TwoPendingClash(states, steps, j, a, b, p);
      assert false;
    }
  }

  /** So it is in particular while no decision commits between the read and the save of an update. */
  lemma OnePendingAlways(states: seq<State>, steps: seq<Step>, n: nat)
    requires Behavior(states, steps) && Init(states[0]) && n < |states|
    requires forall rid :: NoneCrosses(states, steps, n, rid, Decisions)
    ensures AlwaysOnePending(states, n)
  {
    hide Behavior, Init, NoneCrosses;
    forall j, a, p | 0 <= j < n
      ensures !Clash(states, steps, j, a, p)
    {
      NoReopening(states, steps, n, a);
    }
    OnePendingExactly(states, steps, n);
  }

  lemma NoReopening(states: seq<State>, steps: seq<Step>, n: nat, a: Id)
    requires Behavior(states, steps) && Init(states[0]) && n < |states|
    requires NoneCrosses(states, steps, n, a, Decisions)
    ensures forall i, p :: 0 <= i < n ==> !Reopens(states[i], steps[i], a, p)
  {
    DecisionsStandExactly(states, steps, n, a, Decisions);
    forall i, p | 0 <= i < n
      ensures !Reopens(states[i], steps[i], a, p)
    {
      assert Fresh(states[i], steps[i], a, Decisions);
    }
  }
}
