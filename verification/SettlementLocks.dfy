/** Waiting on waitlist rows. A settlement updates a player's SEATED rows right after reading the debt and
    keeps them locked until it commits; a whole-table settlement does so player by player. This module
    says when such waits, together with those on request, player and club rows, can close a cycle, and for
    which lists whole-table settlements can come to wait for each other. */
module SettlementLocks {
  import opened Basics
  import opened Ledger
  import opened Postings
  import opened ClubStore
  import opened RequestProtocol

  predicate IsSeated(waitlist: seq<Entry>, player: Id) {
    SeatOf(waitlist, player).Some?
  }

  /** For how many of its postings the transaction has surely updated the seats: all but the latest, until a
      whole-table settlement is through with its list. */
  function HeldCount(x: Txn): nat {
    var ps := InFlightPostings(x);
    if x.phase.Ready? && x.job.SettleAll? then |ps| else if |ps| > 0 then |ps| - 1 else 0
  }

  predicate HoldsEntry(x: Txn, player: Id, i: int) {
    0 <= i < HeldCount(x) && InFlightPostings(x)[i].basis.OwedRead? && InFlightPostings(x)[i].player == player
  }

  /** The player's seats were updated for an earlier entry. */
  ghost predicate HoldsSeats(x: Txn, player: Id) {
    exists i :: HoldsEntry(x, player, i)
  }

  /** The player whose seats the transaction updates next. */
  function Wanted(x: Txn): Option<Id> {
    var ps := InFlightPostings(x);
    if HeldCount(x) < |ps| && ps[HeldCount(x)].basis.OwedRead? then Some(ps[HeldCount(x)].player) else None
  }

  /** t's next update needs seats that u, itself at a later entry, has updated and not released. */
  ghost predicate WaitsForSeats(s: State, t: nat, u: nat) {
    && t in s.txns && u in s.txns && t != u
    && Wanted(s.txns[t]).Some? && IsSeated(s.waitlist, Wanted(s.txns[t]).value)
    && HoldsSeats(s.txns[u], Wanted(s.txns[t]).value)
  }

  ghost predicate Waits(s: State, t: nat, u: nat) {
    WaitsFor(s, t, u) || WaitsForSeats(s, t, u)
  }

  ghost predicate IsWaitChain(s: State, chain: seq<nat>) {
    forall i :: 0 <= i < |chain| - 1 ==> Waits(s, chain[i], chain[i + 1])
  }

  /** None of the chain is an approval that waits for its player's row. */
  ghost predicate NoneBlocked(s: State, chain: seq<nat>) {
    forall i :: 0 <= i < |chain| ==> !ApprovalBlocked(s, chain[i])
  }

  // ---------------------------------------------------------------- which cycles there can be

  /** Only whole-table settlements hold seats while others wait. */
  lemma HoldersSettle(x: Txn, player: Id)
    requires PhaseFits(x) && HoldsSeats(x, player)
    ensures x.job.SettleAll? && Rank(x) == 2 && SettlesFit(x, InFlightPostings(x))
  {
    var i :| HoldsEntry(x, player, i);
  }

  /** A wait leads to a transaction further along, or from one update of seats to another. */
  lemma WaitRises(s: State, t: nat, u: nat)
    requires Inv(s) && Waits(s, t, u) && !ApprovalBlocked(s, t)
    ensures t in s.txns && u in s.txns && Rank(s.txns[u]) >= Rank(s.txns[t])
    ensures Rank(s.txns[u]) == Rank(s.txns[t]) ==>
      WaitsForSeats(s, t, u) && Rank(s.txns[t]) == 2 && s.txns[u].job.SettleAll?
  {
    if WaitsFor(s, t, u) {
      WaitRanks(s, t, u);
    } else {
      hide Inv, HoldsSeats, SettlesFit;
      assert PhaseFits(s.txns[u]) by { InvPhases(s, u); }
      HoldersSettle(s.txns[u], Wanted(s.txns[t]).value);
    }
  }

  lemma InvPhases(s: State, t: nat)
    requires Inv(s) && t in s.txns
    ensures PhaseFits(s.txns[t])
  {
  }

  lemma {:induction false} ChainRises(s: State, chain: seq<nat>, i: nat, j: nat)
    requires Inv(s) && IsWaitChain(s, chain) && NoneBlocked(s, chain) && i < j < |chain|
    ensures chain[i] in s.txns && chain[j] in s.txns && Rank(s.txns[chain[j]]) >= Rank(s.txns[chain[i]])
    decreases j
  {
    hide Inv, Waits, ApprovalBlocked;
    WaitRises(s, chain[j - 1], chain[j]);
    if i < j - 1 {
      ChainRises(s, chain, i, j - 1);
    }
  }

  /** Around a closed chain everybody is equally far along. */
  lemma CycleIsLevel(s: State, chain: seq<nat>, i: nat)
    requires Inv(s) && IsWaitChain(s, chain) && NoneBlocked(s, chain)
    requires |chain| > 1 && chain[0] == chain[|chain| - 1] && i < |chain|
    ensures chain[0] in s.txns && chain[i] in s.txns && Rank(s.txns[chain[i]]) == Rank(s.txns[chain[0]])
  {
    hide Inv, Waits, ApprovalBlocked;
    ChainRises(s, chain, 0, |chain| - 1);
    if 0 < i < |chain| - 1 {
      ChainRises(s, chain, 0, i);
      ChainRises(s, chain, i, |chain| - 1);
    }
  }

  lemma EdgeIsLevel(s: State, chain: seq<nat>, i: nat)
    requires Inv(s) && IsWaitChain(s, chain) && NoneBlocked(s, chain)
    requires |chain| > 1 && chain[0] == chain[|chain| - 1] && i < |chain| - 1
    ensures WaitsForSeats(s, chain[i], chain[i + 1])
    ensures chain[i + 1] in s.txns && s.txns[chain[i + 1]].job.SettleAll?
  {
    CycleIsLevel(s, chain, i);
    CycleIsLevel(s, chain, i + 1);
    assert Waits(s, chain[i], chain[i + 1]) && !ApprovalBlocked(s, chain[i]);
    hide Inv, Waits, WaitsForSeats, IsWaitChain, NoneBlocked, ApprovalBlocked;
    WaitRises(s, chain[i], chain[i + 1]);
  }

  /** In every reachable state a closed chain of waits on request, player, club and waitlist rows has an
      approval in it that waits for its player's row, or is a ring of whole-table settlements, each
      waiting for seats that the next one holds. */
  lemma CyclesAreRings(states: seq<State>, steps: seq<Step>, n: nat, chain: seq<nat>, i: nat)
    requires Behavior(states, steps) && Init(states[0]) && n < |states|
    requires IsWaitChain(states[n], chain) && |chain| > 1 && chain[0] == chain[|chain| - 1]
    requires NoneBlocked(states[n], chain) && i < |chain| - 1
    ensures WaitsForSeats(states[n], chain[i], chain[i + 1])
    ensures states[n].txns[chain[i]].job.SettleAll? && states[n].txns[chain[i + 1]].job.SettleAll?
  {
    InvAlways(states, steps, n);
    hide Inv, WaitsForSeats, Behavior, Init, IsWaitChain, NoneBlocked;
    EdgeIsLevel(states[n], chain, i);
    EdgeIsLevel(states[n], chain, if i > 0 then i - 1 else |chain| - 2);
  }

  // ---------------------------------------------------------------- one common order

  /** A whole-table settlement lists its players in the given order, each once. */
  predicate Ordered(job: Job, order: Id -> int) {
    job.SettleAll? ==> forall i, j :: 0 <= i < j < |job.list| ==> order(job.list[i].player) < order(job.list[j].player)
  }

  /** The seats a settlement waits for come after all it holds. */
  lemma WantedIsLast(x: Txn, player: Id, order: Id -> int)
    requires PhaseFits(x) && Ordered(x.job, order) && HoldsSeats(x, player) && Wanted(x).Some?
    ensures order(player) < order(Wanted(x).value)
  {
    HoldersSettle(x, player);
    var i :| HoldsEntry(x, player, i);
  }

  /** Along a ring the players waited for come later and later. */
  lemma {:induction false} RingClimbs(s: State, chain: seq<nat>, i: nat, j: nat, order: Id -> int)
    requires Inv(s) && i < j < |chain|
    requires forall k :: 0 <= k < |chain| - 1 ==> WaitsForSeats(s, chain[k], chain[k + 1])
    requires forall v :: v in s.txns ==> Ordered(s.txns[v].job, order)
    requires chain[j] in s.txns && Wanted(s.txns[chain[j]]).Some?
    ensures chain[i] in s.txns && Wanted(s.txns[chain[i]]).Some?
    ensures order(Wanted(s.txns[chain[i]]).value) < order(Wanted(s.txns[chain[j]]).value)
    decreases j - i
  {
    hide Inv, Ordered, Wanted, HoldsSeats;
    assert WaitsForSeats(s, chain[i], chain[i + 1]);
    if i + 1 < j {
      assert WaitsForSeats(s, chain[i + 1], chain[i + 2]);
      RingClimbs(s, chain, i + 1, j, order);
    }
    InvPhases(s, chain[i + 1]);
    WantedIsLast(s.txns[chain[i + 1]], Wanted(s.txns[chain[i]]).value, order);
  }

  /** As long as all whole-table settlements in flight list their players in one common order, a chain of
      waits on request, player, club and waitlist rows closes only through an approval that waits for its
      player's row, in any interleaving. */
  lemma OrderedSettlementsNeverDeadlock(states: seq<State>, steps: seq<Step>, n: nat, chain: seq<nat>, order: Id -> int)
    requires Behavior(states, steps) && Init(states[0]) && n < |states|
    requires IsWaitChain(states[n], chain) && NoneBlocked(states[n], chain)
    requires forall v :: v in states[n].txns ==> Ordered(states[n].txns[v].job, order)
    ensures forall i, j :: 0 <= i < j < |chain| ==> chain[i] != chain[j]
  {
    forall i, j | 0 <= i < j < |chain|
      ensures chain[i] != chain[j]
    {
      if chain[i] == chain[j] {
        NoOrderedCycle(states, steps, n, chain[i..j + 1], order);
      }
    }
  }

  lemma NoOrderedCycle(states: seq<State>, steps: seq<Step>, n: nat, chain: seq<nat>, order: Id -> int)
    requires Behavior(states, steps) && Init(states[0]) && n < |states|
    requires IsWaitChain(states[n], chain) && NoneBlocked(states[n], chain) && |chain| > 1
    requires forall v :: v in states[n].txns ==> Ordered(states[n].txns[v].job, order)
    ensures chain[0] != chain[|chain| - 1]
  {
    hide Behavior, Init, IsWaitChain, NoneBlocked, Ordered, HoldsSeats;
    if chain[0] == chain[|chain| - 1] {
      forall k | 0 <= k < |chain| - 1
        ensures WaitsForSeats(states[n], chain[k], chain[k + 1])
      {
        CyclesAreRings(states, steps, n, chain, k);
      }
      InvAlways(states, steps, n);
      assert WaitsForSeats(states[n], chain[0], chain[1]);
      RingClimbs(states[n], chain, 0, |chain| - 1, order);
    }
  }

  // ---------------------------------------------------------------- which lists can deadlock

  /** Before its n-th entry the list names the player. */
  predicate Listed(list: seq<Settlement>, n: int, player: Id) {
    exists m :: 0 <= m < n && m < |list| && list[m].player == player
  }

  function Next(i: nat, k: nat): nat {
    if i + 1 == k then 0 else i + 1
  }

  /** Each list is stopped at an entry whose player sits and is named by the next list before that one's
      own stop; and up to their stops no two lists name the same sitting player. */
  predicate Crossing(lists: seq<seq<Settlement>>, stops: seq<nat>, waitlist: seq<Entry>) {
    && |stops| == |lists| && |lists| > 1
    && (forall i :: 0 <= i < |lists| ==> Stuck(lists, stops, waitlist, i))
    && (forall i, j :: 0 <= i < j < |lists| ==> Apart(lists[i], stops[i], lists[j], stops[j], waitlist))
  }

  /** Up to their stops the two lists name no sitting player in common. */
  predicate Apart(one: seq<Settlement>, j: int, two: seq<Settlement>, l: int, waitlist: seq<Entry>) {
    forall a, b :: 0 <= a < j && a < |one| && 0 <= b < l && b < |two| && one[a].player == two[b].player ==>
      !IsSeated(waitlist, one[a].player)
  }

  predicate Stuck(lists: seq<seq<Settlement>>, stops: seq<nat>, waitlist: seq<Entry>, i: nat)
    requires i < |lists| == |stops|
  {
    && stops[i] < |lists[i]| && IsSeated(waitlist, lists[i][stops[i]].player)
    && Listed(lists[Next(i, |lists|)], stops[Next(i, |lists|)], lists[i][stops[i]].player)
  }

  /** A transaction that goes on after an update of seats has found them held by nobody else. */
  ghost predicate SeatsFree(s: State, step: Step) {
    (step.Read? || step.Commit?) && step.t in s.txns && Wanted(s.txns[step.t]).Some?
    && IsSeated(s.waitlist, Wanted(s.txns[step.t]).value)
    ==> forall v :: v in s.txns && v != step.t ==> !HoldsSeats(s.txns[v], Wanted(s.txns[step.t]).value)
  }

  ghost predicate RespectsSeats(run: Run) {
    forall i :: 0 <= i < |run.steps| && i < |run.states| ==> SeatsFree(run.states[i], run.steps[i])
  }

  /** From the time one of the settlements has begun the player sits, or not, as in the waitlist. */
  ghost predicate StaysPut(run: Run, ts: seq<nat>, waitlist: seq<Entry>, player: Id) {
    forall i, k :: 0 <= i < |run.states| && 0 <= k < |ts| && ts[k] in run.states[i].txns ==>
      (IsSeated(run.states[i].waitlist, player) <==> IsSeated(waitlist, player))
  }

  predicate IsListed(lists: seq<seq<Settlement>>, player: Id) {
    exists i :: 0 <= i < |lists| && Listed(lists[i], |lists[i]|, player)
  }

  /** At the end of the run the transactions settle these lists and wait for each other in a ring. */
  ghost predicate EndsInRing(run: Run, ts: seq<nat>, lists: seq<seq<Settlement>>, waitlist: seq<Entry>) {
    && run.Valid() && RespectsSeats(run)
    && |ts| == |lists| > 1 && (forall i, j :: 0 <= i < j < |ts| ==> ts[i] != ts[j])
    && (forall player :: IsListed(lists, player) ==> StaysPut(run, ts, waitlist, player))
    && (forall i :: 0 <= i < |ts| ==> InRing(run.Last(), ts, lists, i))
  }

  ghost predicate InRing(s: State, ts: seq<nat>, lists: seq<seq<Settlement>>, i: nat)
    requires i < |ts| == |lists|
  {
    && ts[i] in s.txns && s.txns[ts[i]].job == SettleAll(lists[i])
    && WaitsForSeats(s, ts[i], ts[Next(i, |ts|)])
  }

  // ---------------------------------------------------------------- a ring needs crossing lists

  /** Seats are taken by going on to the next entry, which needs them free. */
  lemma HeldStep(s: State, step: Step, t: nat, player: Id)
    requires Inv(s) && Enabled(s, step)
    requires t in Apply(s, step).txns && HoldsSeats(Apply(s, step).txns[t], player)
    ensures t in s.txns
    ensures HoldsSeats(s.txns[t], player) || (step == Read(t) && Wanted(s.txns[t]) == Some(player))
  {
    hide LedgerOf, SeatOf, SeatedAt, Flatten, Vacated, Inv, ReadPosting, AfterRead, WriteFits, SettlesFit;
    assert t in s.txns;
    InvPhases(s, t);
    if step == Read(t) {
      HeldRead(s, s.txns[t], player);
    }
  }

  lemma HeldRead(s: State, x: Txn, player: Id)
    requires MayRead(x) && PhaseFits(x) && HoldsSeats(x.(phase := AfterRead(s, x)), player)
    ensures HoldsSeats(x, player) || Wanted(x) == Some(player)
  {
    hide LedgerOf, SeatOf, SeatedAt, Flatten, Vacated;
    var i :| HoldsEntry(x.(phase := AfterRead(s, x)), player, i);
    if i < HeldCount(x) {
      assert HoldsEntry(x, player, i);
    }
  }

  ghost predicate Held(s: State, t: nat, player: Id) {
    t in s.txns && HoldsSeats(s.txns[t], player)
  }

  lemma SeatsExclusiveStep(s: State, step: Step, t: nat, u: nat, player: Id)
    requires Inv(s) && Enabled(s, step) && SeatsFree(s, step) && t != u
    requires t in s.txns ==> IsSeated(s.waitlist, player)
    requires !(Held(s, t, player) && Held(s, u, player))
    ensures !(Held(Apply(s, step), t, player) && Held(Apply(s, step), u, player))
  {
    hide Inv, Enabled, Apply, HoldsSeats, IsSeated, Wanted;
    var s' := Apply(s, step);
    if Held(s', t, player) && Held(s', u, player) {
      HeldStep(s, step, t, player);
      HeldStep(s, step, u, player);
    }
  }

  /** No two of the settlements ever hold the seats of the same sitting player. */
  lemma {:induction false} SeatsExclusive(run: Run, ts: seq<nat>, waitlist: seq<Entry>, player: Id, n: nat, t: nat,
                                          u: nat)
    requires run.Valid() && RespectsSeats(run) && StaysPut(run, ts, waitlist, player) && IsSeated(waitlist, player)
    requires t in ts && t != u && n < |run.states|
    ensures !(Held(run.states[n], t, player) && Held(run.states[n], u, player))
  {
    hide Inv, Enabled, Apply, HoldsSeats, IsSeated, SeatsFree;
    if n == 0 {
      assert run.states[0].txns == map[];
    } else {
      hide Held, Init;
      var s, step := run.states[n - 1], run.steps[n - 1];
      assert Enabled(s, step) && run.states[n] == Apply(s, step);
      assert SeatsFree(s, step);
      InvAlways(run.states, run.steps, n - 1);
      SeatsExclusive(run, ts, waitlist, player, n - 1, t, u);
      SeatsExclusiveStep(s, step, t, u, player);
    }
  }

  /** The entries a settlement has gone through are those of its list. */
  lemma HeldListed(s: State, t: nat, list: seq<Settlement>)
    requires Inv(s) && t in s.txns && s.txns[t].job == SettleAll(list)
    ensures HeldCount(s.txns[t]) <= |list|
    ensures forall i :: 0 <= i < HeldCount(s.txns[t]) ==> HoldsEntry(s.txns[t], list[i].player, i)
    ensures forall i, player :: HoldsEntry(s.txns[t], player, i) ==> list[i].player == player
    ensures Wanted(s.txns[t]).Some? ==>
      HeldCount(s.txns[t]) < |list| && Wanted(s.txns[t]).value == list[HeldCount(s.txns[t])].player
  {
    assert PhaseFits(s.txns[t]);
  }

  function StopsOf(s: State, ts: seq<nat>): (stops: seq<nat>)
    requires forall i :: 0 <= i < |ts| ==> ts[i] in s.txns
    ensures |stops| == |ts|
  {
    seq(|ts|, i requires 0 <= i < |ts| => HeldCount(s.txns[ts[i]]))
  }

  lemma RingNeedsCrossing(run: Run, ts: seq<nat>, lists: seq<seq<Settlement>>, waitlist: seq<Entry>)
    requires EndsInRing(run, ts, lists, waitlist)
    ensures exists stops :: Crossing(lists, stops, waitlist)
  {
    var s := run.Last();
    InvAlways(run.states, run.steps, |run.states| - 1);
    hide Inv, HoldsSeats, IsSeated, Wanted, HeldCount, StaysPut, Stuck, Apart;
    forall i | 0 <= i < |ts|
      ensures ts[i] in s.txns
    {
      assert InRing(s, ts, lists, i);
    }
    var stops := StopsOf(s, ts);
    forall i | 0 <= i < |lists|
      ensures Stuck(lists, stops, waitlist, i)
    {
      RingIsStuck(run, ts, lists, waitlist, stops, i);
    }
    forall i, j | 0 <= i < j < |lists|
      ensures Apart(lists[i], stops[i], lists[j], stops[j], waitlist)
    {
      RingIsApart(run, ts, lists, waitlist, stops, i, j);
    }
    assert Crossing(lists, stops, waitlist);
  }

  lemma RingIsStuck(run: Run, ts: seq<nat>, lists: seq<seq<Settlement>>, waitlist: seq<Entry>, stops: seq<nat>, i: nat)
    requires EndsInRing(run, ts, lists, waitlist) && i < |ts|
    requires (forall k :: 0 <= k < |ts| ==> ts[k] in run.Last().txns) && stops == StopsOf(run.Last(), ts)
    ensures Stuck(lists, stops, waitlist, i)
  {
    var s, next := run.Last(), Next(i, |ts|);
    InvAlways(run.states, run.steps, |run.states| - 1);
    hide Inv, IsSeated, Wanted, HeldCount, HoldsEntry;
    assert InRing(s, ts, lists, i) && InRing(s, ts, lists, next);
    HeldListed(s, ts[i], lists[i]);
    HeldListed(s, ts[next], lists[next]);
    var player := lists[i][stops[i]].player;
    assert Listed(lists[i], |lists[i]|, player);
    assert IsListed(lists, player);
    assert StaysPut(run, ts, waitlist, player);
    var m :| HoldsEntry(s.txns[ts[next]], player, m);
    HeldBelow(s.txns[ts[next]], player, m);
  }

  lemma HeldBelow(x: Txn, player: Id, m: int)
    requires HoldsEntry(x, player, m)
    ensures 0 <= m < HeldCount(x)
  {
  }

  lemma RingIsApart(run: Run, ts: seq<nat>, lists: seq<seq<Settlement>>, waitlist: seq<Entry>, stops: seq<nat>, i: nat,
                    j: nat)
    requires EndsInRing(run, ts, lists, waitlist) && i < j < |ts|
    requires (forall k :: 0 <= k < |ts| ==> ts[k] in run.Last().txns) && stops == StopsOf(run.Last(), ts)
    ensures Apart(lists[i], stops[i], lists[j], stops[j], waitlist)
  {
    var s := run.Last();
    InvAlways(run.states, run.steps, |run.states| - 1);
    hide Inv, IsSeated, Wanted, HeldCount, HoldsEntry, StaysPut;
    assert InRing(s, ts, lists, i) && InRing(s, ts, lists, j);
    HeldListed(s, ts[i], lists[i]);
    HeldListed(s, ts[j], lists[j]);
    forall a, b | 0 <= a < stops[i] && a < |lists[i]| && 0 <= b < stops[j] && b < |lists[j]|
                  && lists[i][a].player == lists[j][b].player
      ensures !IsSeated(waitlist, lists[i][a].player)
    {
      var player := lists[i][a].player;
      assert HoldsEntry(s.txns[ts[i]], player, a) && HoldsEntry(s.txns[ts[j]], player, b);
      assert Listed(lists[i], |lists[i]|, player);
      assert IsListed(lists, player);
      if IsSeated(waitlist, player) {
        SeatsExclusive(run, ts, waitlist, player, |run.states| - 1, ts[i], ts[j]);
      }
    }
  }

  // ---------------------------------------------------------------- crossing lists reach a ring

  /** Settlement i of the lists is transaction i and has read counts[i] entries; nothing else runs. */
  ghost predicate Staged(s: State, lists: seq<seq<Settlement>>, counts: seq<nat>, waitlist: seq<Entry>) {
    && |counts| <= |lists| && s.waitlist == waitlist
    && (forall t: nat :: t in s.txns <==> t < |counts|)
    && (forall t :: 0 <= t < |counts| ==> AtEntry(s.txns[t], lists[t], counts[t]))
  }

  predicate AtEntry(x: Txn, list: seq<Settlement>, count: nat) {
    && x.job == SettleAll(list) && x.now == 0 && count <= |list|
    && (if count == 0 then x.phase.Started? else x.phase.Collecting? && |x.phase.postings| == count)
  }

  /** After so many reads of a list, the updates surely made. */
  function Updated(count: nat): nat {
    if count == 0 then 0 else count - 1
  }

  /** A run that keeps to the seat locks and leaves the waitlist as it is, and ends at that stage. */
  ghost predicate Reaches(run: Run, lists: seq<seq<Settlement>>, counts: seq<nat>, waitlist: seq<Entry>) {
    && run.Valid() && RespectsSeats(run) && Staged(run.Last(), lists, counts, waitlist)
    && (forall i :: 0 <= i < |run.states| ==> run.states[i].waitlist == waitlist)
  }

  lemma ExtendStage(run: Run, lists: seq<seq<Settlement>>, counts: seq<nat>, counts': seq<nat>, waitlist: seq<Entry>,
                    step: Step)
    returns (more: Run)
    requires Reaches(run, lists, counts, waitlist)
    requires Enabled(run.Last(), step) && SeatsFree(run.Last(), step)
    requires Staged(Apply(run.Last(), step), lists, counts', waitlist)
    ensures Reaches(more, lists, counts', waitlist)
  {
    hide Enabled, Apply, SeatsFree, Behavior, Init;
    assert |run.states| == |run.steps| + 1 by { RunLength(run); }
    more := Extend(run, step);
    assert Apply(run.Last(), step).waitlist == waitlist;
    forall i | 0 <= i < |more.steps| && i < |more.states|
      ensures SeatsFree(more.states[i], more.steps[i])
    {
      if i < |run.steps| {
        assert SeatsFree(run.states[i], run.steps[i]);
      }
    }
  }

  lemma RunLength(run: Run)
    requires run.Valid()
    ensures |run.states| == |run.steps| + 1
  {
  }

  lemma ReachesState(run: Run, lists: seq<seq<Settlement>>, counts: seq<nat>, waitlist: seq<Entry>)
    requires Reaches(run, lists, counts, waitlist)
    ensures |run.states| > 0 && Inv(run.Last()) && Staged(run.Last(), lists, counts, waitlist)
  {
    hide Inv, Init, Staged, RespectsSeats, Enabled, Apply;
    InvAlways(run.states, run.steps, |run.states| - 1);
  }

  function NoReads(k: nat): (counts: seq<nat>)
    ensures |counts| == k
  {
    seq(k, _ => 0)
  }

  lemma BeginStage(s: State, lists: seq<seq<Settlement>>, waitlist: seq<Entry>, k: nat)
    requires k < |lists| && Staged(s, lists, NoReads(k), waitlist)
    ensures var step := Begin(k, SettleAll(lists[k]), 0);
      Enabled(s, step) && SeatsFree(s, step) && Staged(Apply(s, step), lists, NoReads(k + 1), waitlist)
  {
    var s' := Apply(s, Begin(k, SettleAll(lists[k]), 0));
    forall t | 0 <= t < k + 1
      ensures AtEntry(s'.txns[t], lists[t], NoReads(k + 1)[t])
    {
      if t < k {
        assert AtEntry(s.txns[t], lists[t], NoReads(k)[t]);
      }
    }
  }

  lemma AtRest(lists: seq<seq<Settlement>>, waitlist: seq<Entry>) returns (run: Run)
    ensures Reaches(run, lists, NoReads(0), waitlist)
  {
    var s := State(map[], {}, [], [], waitlist, map[], map[], map[]);
    run := Run([s], []);
    assert Staged(s, lists, NoReads(0), waitlist);
    assert run.Valid() && run.Last() == s;
  }

  /** The first settlements begin, one after the other. */
  lemma {:induction false} BeginAll(lists: seq<seq<Settlement>>, waitlist: seq<Entry>, k: nat) returns (run: Run)
    requires k <= |lists|
    ensures Reaches(run, lists, NoReads(k), waitlist)
  {
    if k == 0 {
      run := AtRest(lists, waitlist);
    } else {
      hide Staged, Enabled, Apply, SeatsFree, Reaches;
      run := BeginAll(lists, waitlist, k - 1);
      ReachesState(run, lists, NoReads(k - 1), waitlist);
      BeginStage(run.Last(), lists, waitlist, k - 1);
      run := ExtendStage(run, lists, NoReads(k - 1), NoReads(k), waitlist, Begin(k - 1, SettleAll(lists[k - 1]), 0));
    }
  }

  /** The next read of a staged settlement. */
  lemma ReadStage(s: State, lists: seq<seq<Settlement>>, counts: seq<nat>, waitlist: seq<Entry>, t: nat)
    requires Inv(s) && Staged(s, lists, counts, waitlist) && t < |counts| && counts[t] < |lists[t]|
    ensures Enabled(s, Read(t)) && Staged(Apply(s, Read(t)), lists, counts[t := counts[t] + 1], waitlist)
  {
    hide LedgerOf, Flatten, Owed, Inv, SettlesFit;
    assert AtEntry(s.txns[t], lists[t], counts[t]);
    forall u | 0 <= u < |counts|
      ensures AtEntry(Apply(s, Read(t)).txns[u], lists[u], counts[t := counts[t] + 1][u])
    {
      assert AtEntry(s.txns[u], lists[u], counts[u]);
    }
  }

  /** What a staged settlement holds and wants, read off its list. */
  lemma StagedSeats(s: State, lists: seq<seq<Settlement>>, counts: seq<nat>, waitlist: seq<Entry>, t: nat)
    requires Inv(s) && Staged(s, lists, counts, waitlist) && t < |counts|
    ensures Wanted(s.txns[t]) == if counts[t] == 0 then None else Some(lists[t][counts[t] - 1].player)
    ensures forall player :: HoldsSeats(s.txns[t], player) <==> Listed(lists[t], Updated(counts[t]), player)
  {
    assert AtEntry(s.txns[t], lists[t], counts[t]) && PhaseFits(s.txns[t]);
    hide Inv, SettlesFit;
    HeldListed(s, t, lists[t]);
    assert counts[t] > 0 ==> SettlesFit(s.txns[t], InFlightPostings(s.txns[t]));
    forall player
      ensures HoldsSeats(s.txns[t], player) <==> Listed(lists[t], Updated(counts[t]), player)
    {
      if m :| 0 <= m < Updated(counts[t]) && m < |lists[t]| && lists[t][m].player == player {
        assert HoldsEntry(s.txns[t], player, m);
      }
      if m :| HoldsEntry(s.txns[t], player, m) {
        assert lists[t][m].player == player;
      }
    }
  }

  /** The next read finds its seats free if no other settlement has gone through an entry of them. */
  lemma StagedFree(s: State, lists: seq<seq<Settlement>>, counts: seq<nat>, waitlist: seq<Entry>, t: nat)
    requires Inv(s) && Staged(s, lists, counts, waitlist) && t < |counts|
    requires forall u :: 0 <= u < |counts| && u != t ==>
      Apart(lists[t], counts[t], lists[u], Updated(counts[u]), waitlist)
    ensures SeatsFree(s, Read(t))
  {
    assert AtEntry(s.txns[t], lists[t], counts[t]);
    hide Inv, HoldsSeats, IsSeated, Wanted;
    StagedSeats(s, lists, counts, waitlist, t);
    if counts[t] > 0 && IsSeated(waitlist, lists[t][counts[t] - 1].player) {
      forall u | u in s.txns && u != t
        ensures !HoldsSeats(s.txns[u], lists[t][counts[t] - 1].player)
      {
        StagedSeats(s, lists, counts, waitlist, u);
        assert Apart(lists[t], counts[t], lists[u], Updated(counts[u]), waitlist);
      }
    }
  }

  lemma ReadNext(run: Run, lists: seq<seq<Settlement>>, counts: seq<nat>, waitlist: seq<Entry>, t: nat)
    returns (more: Run)
    requires Reaches(run, lists, counts, waitlist) && t < |counts| && t < |lists| && counts[t] < |lists[t]|
    requires forall u :: 0 <= u < |counts| && u < |lists| && u != t ==>
      Apart(lists[t], counts[t], lists[u], Updated(counts[u]), waitlist)
    ensures Reaches(more, lists, counts[t := counts[t] + 1], waitlist)
  {
    hide Enabled, Apply, Inv, SeatsFree, Reaches, Apart;
    ReachesState(run, lists, counts, waitlist);
    ReadStage(run.Last(), lists, counts, waitlist, t);
    StagedFree(run.Last(), lists, counts, waitlist, t);
    more := ExtendStage(run, lists, counts, counts[t := counts[t] + 1], waitlist, Read(t));
  }

  /** Settlement t can go on to its n-th read while the others rest, if none of them holds what it updates. */
  lemma {:induction false} ReadOn(run: Run, lists: seq<seq<Settlement>>, counts: seq<nat>, waitlist: seq<Entry>,
                                  t: nat, n: nat)
    returns (more: Run)
    requires Reaches(run, lists, counts, waitlist) && t < |counts| == |lists| && counts[t] == 0 && n <= |lists[t]|
    requires forall u :: 0 <= u < |lists| && u != t ==>
      Apart(lists[t], Updated(n), lists[u], Updated(counts[u]), waitlist)
    ensures Reaches(more, lists, counts[t := n], waitlist)
  {
    hide Reaches, Apart;
    if n == 0 {
      assert counts[t := n] == counts;
      more := run;
    } else {
      forall u | 0 <= u < |lists| && u != t
        ensures Apart(lists[t], Updated(n - 1), lists[u], Updated(counts[u]), waitlist)
      {
        ApartBelow(lists[t], Updated(n), Updated(n - 1), lists[u], Updated(counts[u]), waitlist);
      }
      more := ReadOn(run, lists, counts, waitlist, t, n - 1);
      more := ReadNext(more, lists, counts[t := n - 1], waitlist, t);
      assert counts[t := n - 1][t := n] == counts[t := n];
    }
  }

  lemma ApartBelow(one: seq<Settlement>, j: int, i: int, two: seq<Settlement>, l: int, waitlist: seq<Entry>)
    requires Apart(one, j, two, l, waitlist) && i <= j
    ensures Apart(one, i, two, l, waitlist)
  {
  }

  /** How many reads each has made once the first d settlements have come to their stops. */
  function ReadsUpTo(stops: seq<nat>, d: nat): (counts: seq<nat>)
    ensures |counts| == |stops|
  {
    seq(|stops|, i requires 0 <= i < |stops| => if i < d then stops[i] + 1 else 0)
  }

  lemma CrossingSize(lists: seq<seq<Settlement>>, stops: seq<nat>, waitlist: seq<Entry>)
    requires Crossing(lists, stops, waitlist)
    ensures |stops| == |lists| > 1 && forall i :: 0 <= i < |lists| ==> Stuck(lists, stops, waitlist, i)
  {
    hide Stuck;
  }

  lemma NoStops(stops: seq<nat>)
    ensures ReadsUpTo(stops, 0) == NoReads(|stops|)
  {
  }

  lemma NextStop(stops: seq<nat>, d: nat)
    requires d < |stops|
    ensures ReadsUpTo(stops, d)[d] == 0
    ensures ReadsUpTo(stops, d)[d := stops[d] + 1] == ReadsUpTo(stops, d + 1)
  {
  }

  lemma ApartSoFar(lists: seq<seq<Settlement>>, stops: seq<nat>, waitlist: seq<Entry>, d: nat)
    requires Crossing(lists, stops, waitlist) && d < |lists|
    ensures forall u :: 0 <= u < |lists| && u != d ==>
      Apart(lists[d], stops[d], lists[u], Updated(ReadsUpTo(stops, d)[u]), waitlist)
  {
    hide IsSeated, Listed;
    forall u | 0 <= u < |lists| && u != d
      ensures Apart(lists[d], stops[d], lists[u], Updated(ReadsUpTo(stops, d)[u]), waitlist)
    {
      if u < d {
        assert Apart(lists[u], stops[u], lists[d], stops[d], waitlist);
      }
    }
  }

  lemma {:induction false} ReadAll(lists: seq<seq<Settlement>>, stops: seq<nat>, waitlist: seq<Entry>, d: nat)
    returns (run: Run)
    requires Crossing(lists, stops, waitlist) && d <= |lists|
    ensures Reaches(run, lists, ReadsUpTo(stops, d), waitlist)
  {
    hide Reaches, Crossing, Apart, ReadsUpTo, NoReads, IsSeated, Listed;
    CrossingSize(lists, stops, waitlist);
    if d == 0 {
      run := BeginAll(lists, waitlist, |lists|);
      NoStops(stops);
    } else {
      run := ReadAll(lists, stops, waitlist, d - 1);
      var counts := ReadsUpTo(stops, d - 1);
      ApartSoFar(lists, stops, waitlist, d - 1);
      NextStop(stops, d - 1);
      assert Stuck(lists, stops, waitlist, d - 1);
      run := ReadOn(run, lists, counts, waitlist, d - 1, stops[d - 1] + 1);
    }
  }

  lemma AtStop(s: State, lists: seq<seq<Settlement>>, stops: seq<nat>, waitlist: seq<Entry>, i: nat)
    requires Inv(s) && Staged(s, lists, ReadsUpTo(stops, |stops|), waitlist) && i < |stops|
    ensures i in s.txns && s.txns[i].job == SettleAll(lists[i]) && s.waitlist == waitlist
    ensures stops[i] < |lists[i]| && Wanted(s.txns[i]) == Some(lists[i][stops[i]].player)
    ensures forall player :: HoldsSeats(s.txns[i], player) <==> Listed(lists[i], stops[i], player)
  {
    hide Inv, HoldsSeats, Wanted, Listed;
    var counts := ReadsUpTo(stops, |stops|);
    assert counts[i] == stops[i] + 1 && AtEntry(s.txns[i], lists[i], counts[i]);
    StagedSeats(s, lists, counts, waitlist, i);
  }

  lemma AllAtStops(s: State, lists: seq<seq<Settlement>>, stops: seq<nat>, waitlist: seq<Entry>, ts: seq<nat>, i: nat)
    requires Inv(s) && Crossing(lists, stops, waitlist) && Staged(s, lists, ReadsUpTo(stops, |lists|), waitlist)
    requires |ts| == |lists| && (forall k :: 0 <= k < |ts| ==> ts[k] == k) && i < |ts|
    ensures InRing(s, ts, lists, i)
  {
    hide Inv, HoldsSeats, IsSeated, Wanted, Listed, Crossing, Staged, ReadsUpTo;
    CrossingSize(lists, stops, waitlist);
    assert Stuck(lists, stops, waitlist, i);
    AtStop(s, lists, stops, waitlist, i);
    AtStop(s, lists, stops, waitlist, Next(i, |ts|));
  }

  lemma CrossingReachesRing(lists: seq<seq<Settlement>>, stops: seq<nat>, waitlist: seq<Entry>)
    returns (run: Run, ts: seq<nat>)
    requires Crossing(lists, stops, waitlist)
    ensures EndsInRing(run, ts, lists, waitlist)
  {
    hide Behavior, Init, Inv, IsSeated, RespectsSeats, Crossing, Stuck, Staged, InRing;
    run := ReadAll(lists, stops, waitlist, |lists|);
    ts := seq(|lists|, i requires 0 <= i < |lists| => i);
    InvAlways(run.states, run.steps, |run.states| - 1);
    forall i | 0 <= i < |ts|
      ensures InRing(run.Last(), ts, lists, i)
    {
      AllAtStops(run.Last(), lists, stops, waitlist, ts, i);
    }
    CrossingSize(lists, stops, waitlist);
  }

  /** Exactly when whole-table settlements can come to wait for each other in a ring, whatever the lists and
      however many: some run that keeps to the seat locks, and in which the listed players stay where they
      sit, ends so if and only if each list can be stopped at a sitting player whom the next list names
      before its own stop, with no sitting player named by two lists before their stops. */
  lemma RingExactly(lists: seq<seq<Settlement>>, waitlist: seq<Entry>)
    ensures (exists run, ts :: EndsInRing(run, ts, lists, waitlist))
       <==> (exists stops :: Crossing(lists, stops, waitlist))
  {
    hide EndsInRing, Crossing;
    if run, ts :| EndsInRing(run, ts, lists, waitlist) {
      RingNeedsCrossing(run, ts, lists, waitlist);
    }
    if stops :| Crossing(lists, stops, waitlist) {
      var run, ts := CrossingReachesRing(lists, stops, waitlist);
    }
  }

  /** Two settlements wait for each other in such a run exactly if each has an entry of a sitting player
      whom the other lists earlier, and before these entries they list no sitting player in common. */
  lemma MutualWaitExactly(one: seq<Settlement>, two: seq<Settlement>, waitlist: seq<Entry>)
    ensures (exists run, ts :: EndsInRing(run, ts, [one, two], waitlist))
       <==> (exists j, l :: 0 <= j < |one| && 0 <= l < |two|
              && IsSeated(waitlist, one[j].player) && Listed(two, l, one[j].player)
              && IsSeated(waitlist, two[l].player) && Listed(one, j, two[l].player)
              && Apart(one, j, two, l, waitlist))
  {
    RingExactly([one, two], waitlist);
    hide EndsInRing, IsSeated, Listed, Apart;
    if stops :| Crossing([one, two], stops, waitlist) {
      assert Stuck([one, two], stops, waitlist, 0) && Stuck([one, two], stops, waitlist, 1);
      assert Apart(one, stops[0], two, stops[1], waitlist);
    }
    if j, l :| 0 <= j < |one| && 0 <= l < |two|
               && IsSeated(waitlist, one[j].player) && Listed(two, l, one[j].player)
               && IsSeated(waitlist, two[l].player) && Listed(one, j, two[l].player)
               && Apart(one, j, two, l, waitlist) {
      assert Crossing([one, two], [j, l], waitlist);
    }
  }

  /** Lists that begin with the same sitting player never do, in whatever order they go on. */
  lemma SameFirstNeverWait(one: seq<Settlement>, two: seq<Settlement>, waitlist: seq<Entry>)
    requires |one| > 0 && |two| > 0 && one[0].player == two[0].player && IsSeated(waitlist, one[0].player)
    ensures !exists run, ts :: EndsInRing(run, ts, [one, two], waitlist)
  {
    MutualWaitExactly(one, two, waitlist);
  }

  /** Two sitting players listed in opposite orders are enough. */
  lemma OppositeOrdersDeadlock(a: Settlement, b: Settlement, waitlist: seq<Entry>)
    requires a.player != b.player && IsSeated(waitlist, a.player) && IsSeated(waitlist, b.player)
    ensures exists run, ts :: EndsInRing(run, ts, [[a, b], [b, a]], waitlist)
  {
    MutualWaitExactly([a, b], [b, a], waitlist);
    assert [b, a][0].player == [a, b][1].player && [a, b][0].player == [b, a][1].player;
    assert Apart([a, b], 1, [b, a], 1, waitlist);
  }
}
