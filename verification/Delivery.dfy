/** Guaranteed delivery: a message goes to the recipient's connected clients at once, or is queued
    and flushed when one of them subscribes. Queue insert, flush select, flush emit, flush mark and
    cleanup are separate steps that interleave freely. */
module Delivery {
  import opened Basics

  datatype Recipient = Recipient(isPlayer: bool, id: string)

  type Client = string

  /** An emission to one client; `queuedAt` is the queue time of a flushed message. */
  datatype Emission = Emission(message: nat, recipient: Recipient, client: Client, queuedAt: Option<int>)

  /** A row of undelivered_messages. */
  datatype QueueRow = QueueRow(rowId: nat, message: nat, recipient: Recipient, createdAt: int, deliveredAt: Option<int>)

  datatype Stage = Selecting | Selected(rows: seq<QueueRow>) | Emitted(ids: seq<nat>) | Marked

  datatype Flush = Flush(recipient: Recipient, client: Client, stage: Stage)

  datatype State = State(
    online: map<Recipient, set<Client>>,        // player and staff subscription maps
    attached: set<(Recipient, Client)>,         // every subscription there ever was
    sent: map<nat, Recipient>,                  // every guaranteed message and whom it is for
    inserting: set<nat>,                        // queue inserts in flight
    queue: seq<QueueRow>,
    rowsOf: map<nat, nat>,                      // message of every row id ever inserted
    flushes: map<nat, Flush>,
    emitted: seq<Emission>,
    now: int)

  const HOUR := 3_600_000

  datatype Step =
    | Send(message: nat, recipient: Recipient, order: seq<Client>)
    | Inserted(message: nat, rowId: nat, createdAt: int)
    | Subscribe(recipient: Recipient, client: Client)
    | Unsubscribe(recipient: Recipient, client: Client)
    | StartFlush(f: nat, recipient: Recipient, client: Client)
    | SelectRows(f: nat, rows: seq<QueueRow>)
    | EmitRows(f: nat, broken: set<nat>)
    | MarkRows(f: nat)
    | Cleanup
    | Tick(now: int)

  function ClientsOf(s: State, r: Recipient): set<Client> {
    if r in s.online then s.online[r] else {}
  }

  /** WHERE recipient AND delivered_at IS NULL. */
  function Pending(queue: seq<QueueRow>, r: Recipient): seq<QueueRow> {
    if |queue| == 0 then []
    else (if queue[0].recipient == r && queue[0].deliveredAt.None? then [queue[0]] else []) + Pending(queue[1..], r)
  }

  ghost predicate InQueueOrder(rows: seq<QueueRow>) {
    forall i, j :: 0 <= i < j < |rows| ==> rows[i].createdAt <= rows[j].createdAt
  }

  /** The flush loop over the selected rows: a row whose payload cannot be emitted is skipped. */
  function EmissionsOf(rows: seq<QueueRow>, broken: set<nat>, client: Client): seq<Emission> {
    if |rows| == 0 then []
    else
      var r := rows[|rows| - 1];
      EmissionsOf(rows[..|rows| - 1], broken, client)
      + (if r.rowId in broken then [] else [Emission(r.message, r.recipient, client, Some(r.createdAt))])
  }

  function IdsOf(rows: seq<QueueRow>, broken: set<nat>): seq<nat> {
    if |rows| == 0 then []
    else
      var r := rows[|rows| - 1];
      IdsOf(rows[..|rows| - 1], broken) + (if r.rowId in broken then [] else [r.rowId])
  }

  /** The loop of flushUndeliveredMessages. */
  method FlushLoop(rows: seq<QueueRow>, broken: set<nat>, client: Client)
    returns (emissions: seq<Emission>, deliveredIds: seq<nat>)
    ensures emissions == EmissionsOf(rows, broken, client) && deliveredIds == IdsOf(rows, broken)
    ensures |emissions| == |deliveredIds|
    ensures InQueueOrder(rows) ==> forall i, j :: 0 <= i < j < |emissions| ==>
      QueueTime(emissions[i]) <= QueueTime(emissions[j])
    ensures forall id :: id in deliveredIds <==> id !in broken && exists k :: HasId(rows, id, k)
    ensures forall i :: 0 <= i < |emissions| ==> OfOneRow(rows, broken, client, emissions[i], deliveredIds[i])
    ensures DistinctIds(rows) ==> forall i, j :: 0 <= i < j < |deliveredIds| ==> deliveredIds[i] != deliveredIds[j]
  {
    emissions, deliveredIds := [], [];
    var i := 0;
    while i < |rows|
      invariant 0 <= i <= |rows|
      invariant emissions == EmissionsOf(rows[..i], broken, client) && deliveredIds == IdsOf(rows[..i], broken)
      invariant |emissions| == |deliveredIds|
    {
      assert rows[..i + 1][..i] == rows[..i];
      if rows[i].rowId !in broken {
        emissions := emissions + [Emission(rows[i].message, rows[i].recipient, client, Some(rows[i].createdAt))];
        deliveredIds := deliveredIds + [rows[i].rowId];
      }
      i := i + 1;
    }
    assert rows[..i] == rows;
    forall i, j | 0 <= i < j < |emissions| && InQueueOrder(rows)
      ensures QueueTime(emissions[i]) <= QueueTime(emissions[j])
    {
      EmissionsOrdered(rows, broken, client, i, j);
    }
    forall i | 0 <= i < |emissions|
      ensures OfOneRow(rows, broken, client, emissions[i], deliveredIds[i])
    {
      var k := EmittedAndReported(rows, broken, client, i);
    }
    forall i, j | 0 <= i < j < |deliveredIds| && DistinctIds(rows)
      ensures deliveredIds[i] != deliveredIds[j]
    {
      ReportedOnce(rows, broken, i, j);
    }
    forall id: nat
      ensures id in deliveredIds <==> id !in broken && exists k :: HasId(rows, id, k)
    {
      if id in deliveredIds {
        var k := IdsSound(rows, broken, id);
      }
      if k :| HasId(rows, id, k) && id !in broken {
        EmissionsComplete(rows, broken, client, k);
      }
    }
  }

  function EmissionOf(r: QueueRow, client: Client): Emission {
    Emission(r.message, r.recipient, client, Some(r.createdAt))
  }

  function QueueTime(e: Emission): int {
    if e.queuedAt.Some? then e.queuedAt.value else 0
  }

  /** The k-th selected row is emitted as e. */
  predicate EmittedFrom(rows: seq<QueueRow>, broken: set<nat>, client: Client, e: Emission, k: int) {
    0 <= k < |rows| && rows[k].rowId !in broken && e == EmissionOf(rows[k], client)
  }

  predicate HasId(rows: seq<QueueRow>, id: nat, k: int) {
    0 <= k < |rows| && rows[k].rowId == id
  }

  /** The emission and the id are those of the same row. */
  ghost predicate OfOneRow(rows: seq<QueueRow>, broken: set<nat>, client: Client, e: Emission, id: nat) {
    exists k :: EmittedFrom(rows, broken, client, e, k) && HasId(rows, id, k)
  }

  ghost predicate DistinctIds(rows: seq<QueueRow>) {
    forall i, j :: 0 <= i < j < |rows| ==> rows[i].rowId != rows[j].rowId
  }

  lemma {:induction false} EmittedAndReported(rows: seq<QueueRow>, broken: set<nat>, client: Client, i: nat)
    returns (k: nat)
    requires i < |EmissionsOf(rows, broken, client)|
    ensures i < |IdsOf(rows, broken)| && |IdsOf(rows, broken)| == |EmissionsOf(rows, broken, client)|
    ensures EmittedFrom(rows, broken, client, EmissionsOf(rows, broken, client)[i], k)
    ensures HasId(rows, IdsOf(rows, broken)[i], k)
    decreases |rows|
  {
    var init := rows[..|rows| - 1];
    SameLength(init, broken, client);
    if i < |EmissionsOf(init, broken, client)| {
      k := EmittedAndReported(init, broken, client, i);
    } else {
      k := |rows| - 1;
    }
  }

  lemma {:induction false} SameLength(rows: seq<QueueRow>, broken: set<nat>, client: Client)
    ensures |IdsOf(rows, broken)| == |EmissionsOf(rows, broken, client)|
    decreases |rows|
  {
    if |rows| > 0 {
      SameLength(rows[..|rows| - 1], broken, client);
    }
  }

  lemma {:induction false} ReportedOnce(rows: seq<QueueRow>, broken: set<nat>, i: nat, j: nat)
    requires DistinctIds(rows) && i < j < |IdsOf(rows, broken)|
    ensures IdsOf(rows, broken)[i] != IdsOf(rows, broken)[j]
    decreases |rows|
  {
    var init := rows[..|rows| - 1];
    if j < |IdsOf(init, broken)| {
      ReportedOnce(init, broken, i, j);
    } else {
      var k := IdsSound(init, broken, IdsOf(init, broken)[i]);
    }
  }

  lemma {:induction false} EmissionsSound(rows: seq<QueueRow>, broken: set<nat>, client: Client, i: nat)
    returns (k: nat)
    requires i < |EmissionsOf(rows, broken, client)|
    ensures EmittedFrom(rows, broken, client, EmissionsOf(rows, broken, client)[i], k)
    decreases |rows|
  {
    var init := rows[..|rows| - 1];
    if i < |EmissionsOf(init, broken, client)| {
      k := EmissionsSound(init, broken, client, i);
    } else {
      k := |rows| - 1;
    }
  }

  lemma {:induction false} EmissionsComplete(rows: seq<QueueRow>, broken: set<nat>, client: Client, k: nat)
    requires k < |rows| && rows[k].rowId !in broken
    ensures EmissionOf(rows[k], client) in EmissionsOf(rows, broken, client)
    ensures rows[k].rowId in IdsOf(rows, broken)
    decreases |rows|
  {
    if k < |rows| - 1 {
      EmissionsComplete(rows[..|rows| - 1], broken, client, k);
    }
  }

  lemma {:induction false} IdsSound(rows: seq<QueueRow>, broken: set<nat>, id: nat) returns (k: nat)
    requires id in IdsOf(rows, broken)
    ensures HasId(rows, id, k) && id !in broken
    decreases |rows|
  {
    var init := rows[..|rows| - 1];
    if id in IdsOf(init, broken) {
      k := IdsSound(init, broken, id);
    } else {
      k := |rows| - 1;
    }
  }

  /** Flushed messages go out in queue order. */
  lemma {:induction false} EmissionsOrdered(rows: seq<QueueRow>, broken: set<nat>, client: Client, i: nat, j: nat)
    requires InQueueOrder(rows) && i < j < |EmissionsOf(rows, broken, client)|
    ensures var es := EmissionsOf(rows, broken, client);
            QueueTime(es[i]) <= QueueTime(es[j])
    decreases |rows|
  {
    var init := rows[..|rows| - 1];
    if j < |EmissionsOf(init, broken, client)| {
      EmissionsOrdered(init, broken, client, i, j);
    } else {
      var k := EmissionsSound(init, broken, client, i);
    }
  }

  predicate Enabled(s: State, step: Step) {
    match step
    case Send(m, r, order) =>
      && m !in s.sent
      && (forall c :: c in order ==> c in ClientsOf(s, r)) && (forall c :: c in ClientsOf(s, r) ==> c in order)
      && (forall i, j :: 0 <= i < j < |order| ==> order[i] != order[j])
    case Inserted(m, rowId, _) => m in s.inserting && m in s.sent && rowId !in s.rowsOf
    case Subscribe(_, _) => true
    case Unsubscribe(_, _) => true
    case StartFlush(f, r, c) => f !in s.flushes && (r, c) in s.attached
    case SelectRows(f, rows) =>
      && f in s.flushes && s.flushes[f].stage.Selecting?
      && multiset(rows) == multiset(Pending(s.queue, s.flushes[f].recipient))
      && forall i, j :: 0 <= i < j < |rows| ==> rows[i].createdAt <= rows[j].createdAt
    case EmitRows(f, _) => f in s.flushes && s.flushes[f].stage.Selected?
    case MarkRows(f) => f in s.flushes && s.flushes[f].stage.Emitted?
    case Cleanup => true
    case Tick(now) => now >= s.now
  }

  function Direct(m: nat, r: Recipient, order: seq<Client>): seq<Emission> {
    if |order| == 0 then [] else [Emission(m, r, order[0], None)] + Direct(m, r, order[1..])
  }

  /** UPDATE ... SET delivered_at = NOW() WHERE id = ANY(ids). */
  function Mark(queue: seq<QueueRow>, ids: seq<nat>, now: int): (q: seq<QueueRow>)
    ensures |q| == |queue|
    ensures forall i :: 0 <= i < |q| ==>
      q[i] == if queue[i].rowId in ids then queue[i].(deliveredAt := Some(now)) else queue[i]
  {
    if |queue| == 0 then []
    else [if queue[0].rowId in ids then queue[0].(deliveredAt := Some(now)) else queue[0]] + Mark(queue[1..], ids, now)
  }

  predicate Expired(r: QueueRow, now: int) {
    r.deliveredAt.Some? && r.deliveredAt.value < now - HOUR
  }

  /** DELETE ... WHERE delivered more than an hour ago. */
  function Sweep(queue: seq<QueueRow>, now: int): (q: seq<QueueRow>)
    ensures forall r :: r in q <==> r in queue && !(r.deliveredAt.Some? && now - r.deliveredAt.value > 60 * 60 * 1000)
  {
    if |queue| == 0 then []
    else if Expired(queue[0], now) then Sweep(queue[1..], now)
    else [queue[0]] + Sweep(queue[1..], now)
  }

  function Apply(s: State, step: Step): State
    requires Enabled(s, step)
  {
    match step
    case Send(m, r, order) =>
      if ClientsOf(s, r) != {}
      then s.(sent := s.sent[m := r], emitted := s.emitted + Direct(m, r, order))
      else s.(sent := s.sent[m := r], inserting := s.inserting + {m})
    case Inserted(m, rowId, createdAt) =>
      s.(inserting := s.inserting - {m}, rowsOf := s.rowsOf[rowId := m],
         queue := s.queue + [QueueRow(rowId, m, s.sent[m], createdAt, None)])
    case Subscribe(r, c) => s.(online := s.online[r := ClientsOf(s, r) + {c}], attached := s.attached + {(r, c)})
    case Unsubscribe(r, c) => s.(online := s.online[r := ClientsOf(s, r) - {c}])
    case StartFlush(f, r, c) => s.(flushes := s.flushes[f := Flush(r, c, Selecting)])
    case SelectRows(f, rows) => s.(flushes := s.flushes[f := s.flushes[f].(stage := Selected(rows))])
    case EmitRows(f, broken) =>
      var rows := s.flushes[f].stage.rows;
      s.(emitted := s.emitted + EmissionsOf(rows, broken, s.flushes[f].client),
         flushes := s.flushes[f := s.flushes[f].(stage := Emitted(IdsOf(rows, broken)))])
    case MarkRows(f) =>
      s.(queue := Mark(s.queue, s.flushes[f].stage.ids, s.now),
         flushes := s.flushes[f := s.flushes[f].(stage := Marked)])
    case Cleanup => s.(queue := Sweep(s.queue, s.now))
    case Tick(now) => s.(now := now)
  }

  ghost predicate Behavior(states: seq<State>, steps: seq<Step>) {
    && |states| == |steps| + 1
    && forall i :: 0 <= i < |steps| ==> Enabled(states[i], steps[i]) && states[i + 1] == Apply(states[i], steps[i])
  }

  predicate Init(s: State) {
    s.online == map[] && s.attached == {} && s.sent == map[] && s.inserting == {} && s.queue == []
    && s.rowsOf == map[] && s.flushes == map[] && s.emitted == []
  }

  // ---------------------------------------------------------------- invariants

  /** The message has been emitted to a client that subscribed as its recipient. */
  ghost predicate Reached(s: State, m: nat) {
    exists i :: 0 <= i < |s.emitted| && s.emitted[i].message == m
  }

  predicate Stored(s: State, m: nat) {
    exists i :: 0 <= i < |s.queue| && s.queue[i].message == m && s.queue[i].deliveredAt.None?
  }

  ghost predicate NothingLost(s: State) {
    forall m :: m in s.sent ==> Reached(s, m) || m in s.inserting || Stored(s, m)
  }

  /** Rows belong to the message their id was inserted for, and to its recipient. */
  predicate RowFits(s: State, r: QueueRow) {
    r.rowId in s.rowsOf && s.rowsOf[r.rowId] == r.message && r.message in s.sent && s.sent[r.message] == r.recipient
  }

  ghost predicate RowsFit(s: State) {
    && (forall i :: 0 <= i < |s.queue| ==> RowFits(s, s.queue[i]))
    && (forall f, k :: f in s.flushes && s.flushes[f].stage.Selected? && 0 <= k < |s.flushes[f].stage.rows| ==>
          RowFits(s, s.flushes[f].stage.rows[k]) && s.flushes[f].stage.rows[k].recipient == s.flushes[f].recipient)
  }

  /** A row id is reported, marked or deleted only after its message was emitted. */
  ghost predicate MarkedWasEmitted(s: State) {
    && (forall i :: 0 <= i < |s.queue| && s.queue[i].deliveredAt.Some? ==> Reached(s, s.queue[i].message))
    && (forall f, id :: f in s.flushes && s.flushes[f].stage.Emitted? && id in s.flushes[f].stage.ids ==>
          id in s.rowsOf && Reached(s, s.rowsOf[id]))
  }

  /** Every emission went to a client subscribed, at some time, as the message's own recipient. */
  ghost predicate RightRecipient(s: State) {
    && (forall r, c :: c in ClientsOf(s, r) ==> (r, c) in s.attached)
    && (forall f :: f in s.flushes ==> (s.flushes[f].recipient, s.flushes[f].client) in s.attached)
    && (forall i :: 0 <= i < |s.emitted| ==>
          && s.emitted[i].message in s.sent && s.sent[s.emitted[i].message] == s.emitted[i].recipient
          && (s.emitted[i].recipient, s.emitted[i].client) in s.attached)
  }

  ghost predicate Inv(s: State) {
    NothingLost(s) && RowsFit(s) && MarkedWasEmitted(s) && RightRecipient(s)
  }

  lemma {:induction false} DirectFacts(m: nat, r: Recipient, order: seq<Client>)
    ensures |Direct(m, r, order)| == |order|
    ensures forall i :: 0 <= i < |order| ==> Direct(m, r, order)[i] == Emission(m, r, order[i], None)
  {
    if |order| > 0 {
      DirectFacts(m, r, order[1..]);
    }
  }

  lemma {:induction false} PendingFacts(queue: seq<QueueRow>, r: Recipient)
    ensures forall x :: x in Pending(queue, r) <==> x in queue && x.recipient == r && x.deliveredAt.None?
  {
    if |queue| > 0 {
      PendingFacts(queue[1..], r);
    }
  }

  lemma SelectedFacts(s: State, r: Recipient, rows: seq<QueueRow>)
    requires multiset(rows) == multiset(Pending(s.queue, r))
    ensures forall x :: x in rows <==> x in s.queue && x.recipient == r && x.deliveredAt.None?
  {
    PendingFacts(s.queue, r);
    forall x
      ensures x in rows <==> x in Pending(s.queue, r)
    {
      assert x in rows <==> x in multiset(rows);
      assert x in Pending(s.queue, r) <==> x in multiset(Pending(s.queue, r));
    }
  }

  /** What was emitted stays emitted. */
  lemma ReachedStays(s: State, step: Step, m: nat)
    requires Enabled(s, step) && Reached(s, m)
    ensures Reached(Apply(s, step), m)
  {
    var i :| 0 <= i < |s.emitted| && s.emitted[i].message == m;
    assert Apply(s, step).emitted[i] == s.emitted[i];
  }

  lemma RowsFitStep(s: State, step: Step)
    requires Inv(s) && Enabled(s, step)
    ensures RowsFit(Apply(s, step))
  {
    hide EmissionsOf, IdsOf, Pending, Direct, NothingLost, MarkedWasEmitted, RightRecipient;
    var s' := Apply(s, step);
    if step.SelectRows? {
      SelectedFacts(s, s.flushes[step.f].recipient, step.rows);
    }
    forall i | 0 <= i < |s'.queue|
      ensures RowFits(s', s'.queue[i])
    {
      if step.Cleanup? {
        assert s'.queue[i] in s.queue;
      } else if i < |s.queue| {
        assert RowFits(s, s.queue[i]);
      }
    }
    forall f, k | f in s'.flushes && s'.flushes[f].stage.Selected? && 0 <= k < |s'.flushes[f].stage.rows|
      ensures RowFits(s', s'.flushes[f].stage.rows[k])
        && s'.flushes[f].stage.rows[k].recipient == s'.flushes[f].recipient
    {
      if step.SelectRows? && step.f == f {
        assert step.rows[k] in s.queue;
      } else {
        assert RowFits(s, s.flushes[f].stage.rows[k]);
      }
    }
  }

  /** Everything a flush emits goes to its own client, for its own recipient. */
  lemma FlushedRightly(s: State, f: nat, broken: set<nat>)
    requires RowsFit(s) && f in s.flushes && s.flushes[f].stage.Selected?
    ensures forall i :: 0 <= i < |EmissionsOf(s.flushes[f].stage.rows, broken, s.flushes[f].client)| ==>
              var e := EmissionsOf(s.flushes[f].stage.rows, broken, s.flushes[f].client)[i];
              && e.client == s.flushes[f].client && e.recipient == s.flushes[f].recipient
              && e.message in s.sent && s.sent[e.message] == e.recipient
  {
    var rows, client := s.flushes[f].stage.rows, s.flushes[f].client;
    forall i | 0 <= i < |EmissionsOf(rows, broken, client)|
      ensures var e := EmissionsOf(rows, broken, client)[i];
              && e.client == client && e.recipient == s.flushes[f].recipient
              && e.message in s.sent && s.sent[e.message] == e.recipient
    {
      var k := EmissionsSound(rows, broken, client, i);
      assert RowFits(s, rows[k]);
    }
  }

  lemma RightRecipientStep(s: State, step: Step)
    requires Inv(s) && Enabled(s, step)
    ensures RightRecipient(Apply(s, step))
  {
    hide Pending, Mark, Sweep, IdsOf, EmissionsOf, Direct, RowsFit, NothingLost, MarkedWasEmitted;
    match step
    case Send(m, r, order) => DirectFacts(m, r, order);
    case EmitRows(f, broken) => FlushedRightly(s, f, broken);
    case _ =>
  }

  lemma MarkedRowsStep(s: State, step: Step, i: nat)
    requires Inv(s) && Enabled(s, step)
    requires i < |Apply(s, step).queue| && Apply(s, step).queue[i].deliveredAt.Some?
    ensures Reached(Apply(s, step), Apply(s, step).queue[i].message)
  {
    hide Pending, EmissionsOf, IdsOf, Direct, NothingLost, RightRecipient, Reached;
    var row := Apply(s, step).queue[i];
    if step.Cleanup? {
      assert row in Sweep(s.queue, s.now);
      var j :| 0 <= j < |s.queue| && s.queue[j] == row;
      ReachedStays(s, step, row.message);
    } else if i < |s.queue| {
      assert RowFits(s, s.queue[i]);
      ReachedStays(s, step, s.queue[i].message);
    }
  }

  lemma ReportedStep(s: State, step: Step, f: nat, id: nat)
    requires Inv(s) && Enabled(s, step)
    requires f in Apply(s, step).flushes && Apply(s, step).flushes[f].stage.Emitted?
      && id in Apply(s, step).flushes[f].stage.ids
    ensures id in Apply(s, step).rowsOf && Reached(Apply(s, step), Apply(s, step).rowsOf[id])
  {
    hide Pending, EmissionsOf, Direct, NothingLost, RightRecipient, Reached, Mark, Sweep;
    if step.EmitRows? && step.f == f {
      FlushedReached(s, step.f, step.broken, id);
    } else {
      assert id in s.flushes[f].stage.ids;
      ReachedStays(s, step, s.rowsOf[id]);
    }
  }

  lemma MarkedWasEmittedStep(s: State, step: Step)
    requires Inv(s) && Enabled(s, step)
    ensures MarkedWasEmitted(Apply(s, step))
  {
    hide Apply, Inv, Enabled, Reached;
    var s' := Apply(s, step);
    forall i | 0 <= i < |s'.queue| && s'.queue[i].deliveredAt.Some?
      ensures Reached(s', s'.queue[i].message)
    {
      MarkedRowsStep(s, step, i);
    }
    forall f, id | f in s'.flushes && s'.flushes[f].stage.Emitted? && id in s'.flushes[f].stage.ids
      ensures id in s'.rowsOf && Reached(s', s'.rowsOf[id])
    {
      ReportedStep(s, step, f, id);
    }
  }

  lemma FlushedReached(s: State, f: nat, broken: set<nat>, id: nat)
    requires RowsFit(s) && Enabled(s, EmitRows(f, broken)) && id in IdsOf(s.flushes[f].stage.rows, broken)
    ensures id in s.rowsOf && Reached(Apply(s, EmitRows(f, broken)), s.rowsOf[id])
  {
    var rows := s.flushes[f].stage.rows;
    var k := IdsSound(rows, broken, id);
    assert RowFits(s, rows[k]);
    EmissionsComplete(rows, broken, s.flushes[f].client, k);
    var es := EmissionsOf(rows, broken, s.flushes[f].client);
    var e := EmissionOf(rows[k], s.flushes[f].client);
    var i :| 0 <= i < |es| && es[i] == e;
    assert Apply(s, EmitRows(f, broken)).emitted[|s.emitted| + i] == e;
  }

  lemma NothingLostStep(s: State, step: Step)
    requires Inv(s) && Enabled(s, step)
    ensures NothingLost(Apply(s, step))
  {
    var s' := Apply(s, step);
    forall m | m in s'.sent
      ensures Reached(s', m) || m in s'.inserting || Stored(s', m)
    {
      if m !in s.sent {
        if ClientsOf(s, step.recipient) != {} {
          DirectFacts(m, step.recipient, step.order);
          var c :| c in ClientsOf(s, step.recipient);
          assert c in step.order;
          assert s'.emitted[|s.emitted|].message == m;
        }
      } else if Reached(s, m) {
        ReachedStays(s, step, m);
      } else if m in s.inserting {
        if step.Inserted? && step.message == m {
          assert s'.queue[|s.queue|].message == m;
        }
      } else {
        var i :| 0 <= i < |s.queue| && s.queue[i].message == m && s.queue[i].deliveredAt.None?;
        StoredStays(s, step, i);
      }
    }
  }

  /** A stored message leaves the queue only by being emitted first. */
  lemma StoredStays(s: State, step: Step, i: nat)
    requires Inv(s) && Enabled(s, step)
    requires i < |s.queue| && s.queue[i].deliveredAt.None?
    ensures Stored(Apply(s, step), s.queue[i].message) || Reached(s, s.queue[i].message)
  {
    var s' := Apply(s, step);
    assert RowFits(s, s.queue[i]);
    if step.Cleanup? {
      assert s.queue[i] in s'.queue;
    } else if step.MarkRows? && s.queue[i].rowId in s.flushes[step.f].stage.ids {
      assert Reached(s, s.rowsOf[s.queue[i].rowId]);
    } else {
      assert s'.queue[i] == s.queue[i];
    }
  }

  lemma InvStep(s: State, step: Step)
    requires Inv(s) && Enabled(s, step)
    ensures Inv(Apply(s, step))
  {
    NothingLostStep(s, step);
    RowsFitStep(s, step);
    MarkedWasEmittedStep(s, step);
    RightRecipientStep(s, step);
  }

  lemma {:induction false} InvAlways(states: seq<State>, steps: seq<Step>, n: nat)
    requires Behavior(states, steps) && Init(states[0]) && n < |states|
    ensures Inv(states[n])
  {
    if n > 0 {
      InvAlways(states, steps, n - 1);
      InvStep(states[n - 1], steps[n - 1]);
    }
  }

  // ---------------------------------------------------------------- guarantees

  /** Under every interleaving, each message ever sent has been emitted to some client that subscribed
      as its recipient, or is waiting to be inserted, or is stored undelivered. */
  lemma NoMessageLost(states: seq<State>, steps: seq<Step>, n: nat, m: nat)
    requires Behavior(states, steps) && Init(states[0]) && n < |states|
    requires m in states[n].sent
    ensures var s := states[n];
            || (exists i :: 0 <= i < |s.emitted| && s.emitted[i].message == m
                            && s.emitted[i].recipient == s.sent[m] && (s.sent[m], s.emitted[i].client) in s.attached)
            || m in s.inserting
            || Stored(s, m)
  {
    InvAlways(states, steps, n);
    var s := states[n];
    if Reached(s, m) {
      var i :| 0 <= i < |s.emitted| && s.emitted[i].message == m;
      assert s.emitted[i].recipient == s.sent[m] && (s.sent[m], s.emitted[i].client) in s.attached;
    }
  }

  /** The clients subscribed as the recipient after these steps: those whose last subscribing or
      unsubscribing as it was to subscribe. */
  predicate Listens(steps: seq<Step>, n: nat, r: Recipient, c: Client)
    requires n <= |steps|
  {
    n > 0 && (if steps[n - 1] == Subscribe(r, c) then true
              else if steps[n - 1] == Unsubscribe(r, c) then false
              else Listens(steps, n - 1, r, c))
  }

  lemma {:induction false} ClientsListen(states: seq<State>, steps: seq<Step>, n: nat, r: Recipient, c: Client)
    requires Behavior(states, steps) && Init(states[0]) && n < |states|
    ensures c in ClientsOf(states[n], r) <==> Listens(steps, n, r, c)
  {
    hide Apply, Enabled, ClientsOf;
    if n == 0 {
      assert ClientsOf(states[0], r) == {} by { NobodyOnline(states[0], r); }
    } else {
      ClientsListen(states, steps, n - 1, r, c);
      assert Enabled(states[n - 1], steps[n - 1]) && states[n] == Apply(states[n - 1], steps[n - 1]);
      ClientsStep(states[n - 1], steps[n - 1], r, c);
    }
  }

  lemma NobodyOnline(s: State, r: Recipient)
    requires Init(s)
    ensures ClientsOf(s, r) == {}
  {
  }

  lemma ClientsStep(s: State, step: Step, r: Recipient, c: Client)
    requires Enabled(s, step)
    ensures c in ClientsOf(Apply(s, step), r)
       <==> step == Subscribe(r, c) || (c in ClientsOf(s, r) && step != Unsubscribe(r, c))
  {
    hide Pending, EmissionsOf, IdsOf, Direct, Mark, Sweep;
  }

  lemma {:induction false} InsertingWasSent(states: seq<State>, steps: seq<Step>, n: nat, m: nat)
    requires Behavior(states, steps) && Init(states[0]) && n < |states| && m in states[n].inserting
    ensures m in states[n].sent
  {
    hide Pending, EmissionsOf, IdsOf, Direct, Mark, Sweep;
    if n > 0 {
      assert Enabled(states[n - 1], steps[n - 1]) && states[n] == Apply(states[n - 1], steps[n - 1]);
      if m in states[n - 1].inserting {
        InsertingWasSent(states, steps, n - 1, m);
      }
    }
  }

  /** A send reaches every client then subscribed as the recipient, once each and nobody else, and is queued
      for later exactly if there is none. */
  lemma SendReachesEveryone(states: seq<State>, steps: seq<Step>, n: nat, m: nat, r: Recipient, order: seq<Client>)
    requires Behavior(states, steps) && Init(states[0]) && n < |steps| && steps[n] == Send(m, r, order)
    ensures var before, after := states[n].emitted, states[n + 1].emitted;
            && before <= after
            && (forall c :: Listens(steps, n, r, c) ==> Emission(m, r, c, None) in after[|before|..])
            && (forall e :: e in after[|before|..] ==>
                  e == Emission(m, r, e.client, None) && Listens(steps, n, r, e.client))
            && (forall i, j :: |before| <= i < j < |after| ==> after[i] != after[j])
    ensures m !in states[n].inserting
    ensures m in states[n + 1].inserting <==> forall c :: !Listens(steps, n, r, c)
    ensures m in states[n + 1].sent && states[n + 1].sent[m] == r
  {
    hide Pending, EmissionsOf, IdsOf, Direct, Mark, Sweep;
    var s, s' := states[n], states[n + 1];
    assert Enabled(s, steps[n]) && s' == Apply(s, steps[n]);
    forall c
      ensures c in ClientsOf(s, r) <==> Listens(steps, n, r, c)
    {
      ClientsListen(states, steps, n, r, c);
    }
    if m in s.inserting {
      InsertingWasSent(states, steps, n, m);
    }
    DirectFacts(m, r, order);
    if order == [] {
      assert forall c :: c !in ClientsOf(s, r);
      assert ClientsOf(s, r) == {};
    } else {
      assert order[0] in ClientsOf(s, r);
      assert s'.emitted[|s.emitted|..] == Direct(m, r, order);
      forall c | c in ClientsOf(s, r)
        ensures Emission(m, r, c, None) in Direct(m, r, order)
      {
        var i :| 0 <= i < |order| && order[i] == c;
        assert Direct(m, r, order)[i] == Emission(m, r, c, None);
      }
    }
  }

  /** A row is marked delivered, or disappears from the queue, only when its message had been emitted. */
  lemma MarkedOnlyAfterEmission(states: seq<State>, steps: seq<Step>, n: nat, i: nat)
    requires Behavior(states, steps) && Init(states[0]) && n < |steps|
    requires i < |states[n].queue| && states[n].queue[i] !in states[n + 1].queue
    ensures Reached(states[n], states[n].queue[i].message)
  {
    hide Pending, EmissionsOf, IdsOf, Direct, NothingLost, RightRecipient, Reached;
    var s, s', step := states[n], states[n + 1], steps[n];
    assert s' == Apply(s, step) && Enabled(s, step);
    InvAlways(states, steps, n);
    assert RowFits(s, s.queue[i]);
    if step.MarkRows? {
      assert s'.queue[i] in s'.queue;
      assert Reached(s, s.rowsOf[s.queue[i].rowId]);
    } else if step.Cleanup? {
      assert Expired(s.queue[i], s.now);
    }
  }

  /** A flush emits to its own client every row that was stored for its recipient at the moment of its
      select and whose payload can be emitted, whatever rows are broken and whatever else happened between
      the select and the emit; and it reports that row as delivered. */
  lemma FlushDeliversSelection(states: seq<State>, steps: seq<Step>, a: nat, b: nat, f: nat, i: nat)
    requires Behavior(states, steps) && Init(states[0]) && a < b < |steps|
    requires steps[a].SelectRows? && steps[a].f == f && steps[b].EmitRows? && steps[b].f == f
    requires forall k :: a < k < b ==> !(steps[k].EmitRows? && steps[k].f == f)
    requires i < |states[a].queue| && states[a].queue[i].deliveredAt.None?
    requires states[a].queue[i].recipient == states[a].flushes[f].recipient
    requires states[a].queue[i].rowId !in steps[b].broken
    ensures f in states[a].flushes && |states[b].emitted| <= |states[b + 1].emitted|
    ensures EmissionOf(states[a].queue[i], states[a].flushes[f].client) in states[b + 1].emitted[|states[b].emitted|..]
    ensures f in states[b + 1].flushes && states[b + 1].flushes[f].stage.Emitted?
    ensures states[a].queue[i].rowId in states[b + 1].flushes[f].stage.ids
  {
    FlushKept(states, steps, a, b, f);
    var broken := steps[b].broken;
    SelectedFacts(states[a], states[a].flushes[f].recipient, steps[a].rows);
    var rows := steps[a].rows;
    assert states[a].queue[i] in rows;
    var k :| 0 <= k < |rows| && rows[k] == states[a].queue[i];
    var client := states[a].flushes[f].client;
    EmissionsComplete(rows, broken, client, k);
    assert states[b + 1].emitted[|states[b].emitted|..] == EmissionsOf(rows, broken, client);
  }

  // ---------------------------------------------------------------- where it all comes from

  /** What a step brings into the state is what it says. */
  lemma Brings(s: State, step: Step)
    requires Enabled(s, step)
    ensures forall r, c :: (r, c) in Apply(s, step).attached <==> (r, c) in s.attached || step == Subscribe(r, c)
    ensures forall f :: f in Apply(s, step).flushes ==>
      var flush := Apply(s, step).flushes[f];
      || (f in s.flushes && s.flushes[f].recipient == flush.recipient && s.flushes[f].client == flush.client)
      || step == StartFlush(f, flush.recipient, flush.client)
  {
    hide Pending, EmissionsOf, IdsOf, Direct, Mark, Sweep;
  }

  lemma BringsRows(s: State, step: Step)
    requires Enabled(s, step)
    ensures forall row :: row in Apply(s, step).queue ==>
      || step == Inserted(row.message, row.rowId, row.createdAt)
      || exists was :: was in s.queue && row == was.(deliveredAt := row.deliveredAt)
  {
    hide Pending, EmissionsOf, IdsOf, Direct;
    forall row | row in Apply(s, step).queue
      ensures step == Inserted(row.message, row.rowId, row.createdAt)
           || exists was :: was in s.queue && row == was.(deliveredAt := row.deliveredAt)
    {
      var i :| 0 <= i < |Apply(s, step).queue| && Apply(s, step).queue[i] == row;
      if step.Cleanup? {
        assert row in s.queue && row == row.(deliveredAt := row.deliveredAt);
      } else if i < |s.queue| {
        assert s.queue[i] in s.queue && row == s.queue[i].(deliveredAt := row.deliveredAt);
      }
    }
  }

  /** Somebody counts as having subscribed exactly if some step subscribed them. */
  lemma {:induction false} AttachedBySubscribing(states: seq<State>, steps: seq<Step>, n: nat, r: Recipient, c: Client)
    requires Behavior(states, steps) && Init(states[0]) && n < |states|
    ensures (r, c) in states[n].attached <==> exists k :: 0 <= k < n && steps[k] == Subscribe(r, c)
  {
    hide Apply, Enabled;
    if n > 0 {
      AttachedBySubscribing(states, steps, n - 1, r, c);
      assert Enabled(states[n - 1], steps[n - 1]) && states[n] == Apply(states[n - 1], steps[n - 1]);
      Brings(states[n - 1], steps[n - 1]);
    }
  }

  /** A flush is for the recipient and the client it was started for. */
  lemma {:induction false} FlushAsStarted(states: seq<State>, steps: seq<Step>, n: nat, f: nat) returns (k: nat)
    requires Behavior(states, steps) && Init(states[0]) && n < |states| && f in states[n].flushes
    ensures k < n && steps[k] == StartFlush(f, states[n].flushes[f].recipient, states[n].flushes[f].client)
  {
    hide Apply, Enabled;
    assert n > 0;
    hide Init;
    assert Enabled(states[n - 1], steps[n - 1]) && states[n] == Apply(states[n - 1], steps[n - 1]);
    Brings(states[n - 1], steps[n - 1]);
    if steps[n - 1] == StartFlush(f, states[n].flushes[f].recipient, states[n].flushes[f].client) {
      k := n - 1;
    } else {
      k := FlushAsStarted(states, steps, n - 1, f);
    }
  }

  /** A stored row is the one its insert made, with the queue time it was given. */
  lemma {:induction false} RowAsInserted(states: seq<State>, steps: seq<Step>, n: nat, row: QueueRow) returns (k: nat)
    requires Behavior(states, steps) && Init(states[0]) && n < |states| && row in states[n].queue
    ensures k < n && steps[k] == Inserted(row.message, row.rowId, row.createdAt)
  {
    hide Apply, Enabled;
    assert n > 0;
    hide Init;
    assert Enabled(states[n - 1], steps[n - 1]) && states[n] == Apply(states[n - 1], steps[n - 1]);
    BringsRows(states[n - 1], steps[n - 1]);
    if steps[n - 1] == Inserted(row.message, row.rowId, row.createdAt) {
      k := n - 1;
    } else {
      var before :| before in states[n - 1].queue && row == before.(deliveredAt := row.deliveredAt);
      k := RowAsInserted(states, steps, n - 1, before);
    }
  }

  // ---------------------------------------------------------------- after the mark

  /** Some row of that id waits in the queue undelivered. */
  predicate Waiting(s: State, id: nat) {
    exists i :: 0 <= i < |s.queue| && s.queue[i].rowId == id && s.queue[i].deliveredAt.None?
  }

  lemma WaitingStep(s: State, step: Step, id: nat)
    requires Inv(s) && Enabled(s, step)
    ensures id in s.rowsOf && Waiting(Apply(s, step), id) ==> Waiting(s, id)
    ensures id in s.rowsOf ==> id in Apply(s, step).rowsOf
    ensures step.MarkRows? && id in s.flushes[step.f].stage.ids ==> id in s.rowsOf && !Waiting(Apply(s, step), id)
  {
    hide Pending, EmissionsOf, IdsOf, Direct, NothingLost, RightRecipient;
    var s' := Apply(s, step);
    if i :| 0 <= i < |s'.queue| && s'.queue[i].rowId == id && s'.queue[i].deliveredAt.None? && id in s.rowsOf {
      if step.Cleanup? {
        assert s'.queue[i] in Sweep(s.queue, s.now);
      } else if step.Inserted? {
        assert i < |s.queue|;
      }
    }
  }

  lemma {:induction false} NeverWaitsAgain(states: seq<State>, steps: seq<Step>, a: nat, b: nat, id: nat)
    requires Behavior(states, steps) && Init(states[0]) && a < b < |states|
    requires steps[a].MarkRows? && id in states[a].flushes[steps[a].f].stage.ids
    ensures id in states[b].rowsOf && !Waiting(states[b], id)
    decreases b
  {
    hide Apply, Enabled, Inv, Waiting, Init;
    var s, step := states[b - 1], steps[b - 1];
    assert Enabled(s, step) && states[b] == Apply(s, step);
    InvAlways(states, steps, b - 1);
    hide Behavior;
    WaitingStep(s, step, id);
    if a < b - 1 {
      NeverWaitsAgain(states, steps, a, b - 1, id);
    }
  }

  /** What a flush has reported and marked no later select returns, so it is not emitted again. */
  lemma MarkedNeverSelected(states: seq<State>, steps: seq<Step>, a: nat, b: nat, k: nat)
    requires Behavior(states, steps) && Init(states[0]) && a < b < |steps|
    requires steps[a].MarkRows? && steps[b].SelectRows? && k < |steps[b].rows|
    ensures steps[b].rows[k].rowId !in states[a].flushes[steps[a].f].stage.ids
  {
    var id := steps[b].rows[k].rowId;
    assert Enabled(states[a], steps[a]) && Enabled(states[b], steps[b]);
    if id in states[a].flushes[steps[a].f].stage.ids {
      NeverWaitsAgain(states, steps, a, b, id);
      SelectedFacts(states[b], states[b].flushes[steps[b].f].recipient, steps[b].rows);
    }
  }

  /** A delivery time is the time some flush that reported the row marked it. */
  lemma {:induction false} DeliveredWhenMarked(states: seq<State>, steps: seq<Step>, n: nat, i: nat) returns (k: nat)
    requires Behavior(states, steps) && Init(states[0]) && n < |states|
    requires i < |states[n].queue| && states[n].queue[i].deliveredAt.Some?
    ensures k < n && steps[k].MarkRows? && steps[k].f in states[k].flushes
    ensures states[k].flushes[steps[k].f].stage.Emitted?
    ensures states[n].queue[i].rowId in states[k].flushes[steps[k].f].stage.ids
    ensures states[n].queue[i].deliveredAt == Some(states[k].now)
    decreases n
  {
    hide Apply, Enabled;
    assert n > 0;
    hide Init;
    var s, step := states[n - 1], steps[n - 1];
    assert Enabled(s, step) && states[n] == Apply(s, step);
    if j :| 0 <= j < |s.queue| && s.queue[j] == states[n].queue[i] {
      k := DeliveredWhenMarked(states, steps, n - 1, j);
    } else {
      MarkedNow(s, step, i);
      k := n - 1;
    }
  }

  lemma MarkedNow(s: State, step: Step, i: nat)
    requires Enabled(s, step) && i < |Apply(s, step).queue| && Apply(s, step).queue[i].deliveredAt.Some?
    requires Apply(s, step).queue[i] !in s.queue
    ensures step.MarkRows? && step.f in s.flushes && s.flushes[step.f].stage.Emitted?
    ensures Apply(s, step).queue[i].rowId in s.flushes[step.f].stage.ids
    ensures Apply(s, step).queue[i].deliveredAt == Some(s.now)
  {
    hide Pending, EmissionsOf, IdsOf, Direct;
    assert !step.Cleanup? && i < |s.queue| ==> s.queue[i] in s.queue;
  }

  /** Cleanup keeps a row until more than an hour after it was marked, and no longer: at any cleanup exactly
      the rows marked more than an hour before the last tick go. */
  lemma KeptAnHour(states: seq<State>, steps: seq<Step>, n: nat, i: nat)
    requires Behavior(states, steps) && Init(states[0]) && n + 1 < |steps|
    requires steps[n].Tick? && steps[n + 1].Cleanup? && i < |states[n].queue|
    ensures states[n].queue[i] !in states[n + 2].queue <==>
      exists k :: 0 <= k < n && MarkedAt(states, steps, k, states[n].queue[i])
                  && steps[n].now - states[k].now > 60 * 60 * 1000
  {
    assert Enabled(states[n], steps[n]) && states[n + 1] == Apply(states[n], steps[n]);
    assert Enabled(states[n + 1], steps[n + 1]) && states[n + 2] == Apply(states[n + 1], steps[n + 1]);
    var r := states[n].queue[i];
    assert r in states[n + 1].queue;
    if r.deliveredAt.Some? {
      var k := DeliveredWhenMarked(states, steps, n, i);
      assert MarkedAt(states, steps, k, r);
    }
  }

  /** A flush that reported the row marked it at step k, at the time the row gives. */
  predicate MarkedAt(states: seq<State>, steps: seq<Step>, k: int, r: QueueRow) {
    && 0 <= k < |steps| && k < |states| && steps[k].MarkRows? && steps[k].f in states[k].flushes
    && states[k].flushes[steps[k].f].stage.Emitted? && r.rowId in states[k].flushes[steps[k].f].stage.ids
    && r.deliveredAt == Some(states[k].now)
  }

  lemma SelectedBy(s: State, step: Step)
    requires Enabled(s, step) && step.SelectRows?
    ensures step.f in s.flushes && step.f in Apply(s, step).flushes
    ensures Apply(s, step).flushes[step.f] == s.flushes[step.f].(stage := Selected(step.rows))
  {
  }

  lemma FlushKeptStep(s: State, step: Step, f: nat)
    requires Enabled(s, step) && f in s.flushes && s.flushes[f].stage.Selected?
    requires !(step.EmitRows? && step.f == f)
    ensures f in Apply(s, step).flushes && Apply(s, step).flushes[f] == s.flushes[f]
  {
    hide Mark, Sweep, Pending, EmissionsOf, IdsOf, Direct;
  }

  lemma {:induction false} FlushKept(states: seq<State>, steps: seq<Step>, a: nat, b: nat, f: nat)
    requires Behavior(states, steps) && a < b < |states|
    requires a < |steps| && steps[a].SelectRows? && steps[a].f == f
    requires forall k :: a < k < b ==> !(steps[k].EmitRows? && steps[k].f == f)
    ensures f in states[a].flushes && f in states[b].flushes
    ensures states[b].flushes[f] == states[a].flushes[f].(stage := Selected(steps[a].rows))
    decreases b
  {
    hide Apply, Enabled;
    if b > a + 1 {
      FlushKept(states, steps, a, b - 1, f);
      FlushKeptStep(states[b - 1], steps[b - 1], f);
    } else {
      SelectedBy(states[a], steps[a]);
    }
  }
}
