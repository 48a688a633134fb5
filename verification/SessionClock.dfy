/** The table session clock: per-player play seconds over any number of pauses and resumes. Times are
    milliseconds. */
module SessionClock {
  import opened Basics

  datatype Clock = Clock(
    sessionStartedAt: Option<int>,
    pausedCarry: int,
    staffPaused: bool,
    pausedAt: Option<int>,
    segmentStart: Option<int>,
    baseline: map<Id, int>)

  const IDLE := Clock(None, 0, false, None, None, map[])

  /** Math.floor(ms / 1000); Dafny's division by a positive number rounds down. */
  function Seconds(ms: int): int {
    ms / 1000
  }

  /** computePlayerPlaySeconds; `player` is the lower-cased id, empty when there is none. */
  function PlaySeconds(seatedAt: int, clock: Clock, now: int, player: Id): (seconds: int)
    ensures seconds >= 0
  {
    if clock.staffPaused then
      if player != "" && player in clock.baseline && clock.pausedAt.Some? && seatedAt <= clock.pausedAt.value then
        Max(0, clock.baseline[player])
      else if clock.pausedAt.Some? && clock.segmentStart.Some? then
        Max(0, Seconds(clock.pausedAt.value - Max(seatedAt, clock.segmentStart.value)))
      else
        Max(0, clock.pausedCarry)
    else if clock.sessionStartedAt.Some? then
      var start := clock.sessionStartedAt.value;
      if player != "" && player in clock.baseline && seatedAt <= start then
        Max(0, clock.baseline[player] + Seconds(now - start))
      else
        var running := Seconds(now - Max(seatedAt, start));
        if seatedAt >= start then Max(0, running) else Max(0, running + clock.pausedCarry)
    else
      Max(0, Seconds(now - seatedAt))
  }

  // ---------------------------------------------------------------- the life of a table session

  /** A pause carries the seated players with their seat times. */
  datatype Event = Start(at: int) | Pause(at: int, roster: map<Id, int>)

  predicate InTimeOrder(events: seq<Event>) {
    forall i :: 0 < i < |events| ==> events[i - 1].at <= events[i].at
  }

  /** In time order, with every pause on a running table: pausing a table that is not running does
      nothing (see IdlePause). A start may follow a start, since nothing stops one on a running table. */
  predicate WellFormed(events: seq<Event>) {
    && InTimeOrder(events)
    && forall i :: 0 <= i < |events| && events[i].Pause? ==> i > 0 && events[i - 1].Start?
  }

  /** The clock the notes hold after the events. A pause of a running table adds the segment to the carry
      and snapshots every seated player's seconds. A start keeps the carry and the snapshots of a pause;
      on a running table it keeps the carry only: the players' own seconds and the open segment go. */
  function ClockAfter(events: seq<Event>): Clock
    decreases |events|
  {
    if |events| == 0 then IDLE else ClockStep(ClockAfter(events[..|events| - 1]), events[|events| - 1])
  }

  function ClockStep(c: Clock, e: Event): Clock {
    match e
    case Start(at) => Clock(Some(at), c.pausedCarry, false, None, None, if c.staffPaused then c.baseline else map[])
    case Pause(at, roster) =>
      if c.sessionStartedAt.None? then c
      else
        var start := c.sessionStartedAt.value;
        Clock(None, c.pausedCarry + Max(0, Seconds(at - start)), true, Some(at), Some(start),
              map id | id in roster :: PlaySeconds(roster[id], c, at, id))
  }

  /** The player has been sitting since `since`: every later pause finds the player with that seat
      time. Earlier pauses may have seen the same id in an older stint. */
  predicate Sits(events: seq<Event>, player: Id, since: int) {
    player != "" && forall i :: 0 <= i < |events| && events[i].Pause? && events[i].at >= since ==>
      player in events[i].roster && events[i].roster[player] == since
  }

  /** Milliseconds of the segment [start, end] after the player sat down. */
  function Overlap(start: int, end: int, since: int): int {
    Max(0, end - Max(start, since))
  }

  predicate Running(events: seq<Event>) {
    |events| > 0 && events[|events| - 1].Start?
  }

  function LastAt(events: seq<Event>): int
    requires |events| > 0
  {
    events[|events| - 1].at
  }

  /** The sum, segment by segment, of the running time since the player sat, each segment floored to
      seconds; a start or a pause ends a segment, and an open one runs to `now`. */
  function FlooredSeconds(events: seq<Event>, since: int, now: int): int
    decreases |events|
  {
    if |events| == 0 then 0
    else
      var init := events[..|events| - 1];
      match events[|events| - 1]
      case Start(at) => FlooredSeconds(init, since, at) + Seconds(Overlap(at, now, since))
      case Pause(at, _) => FlooredSeconds(init, since, at)
  }

  /** The exact running time in milliseconds, and the number of segments it is made of. */
  function RunningMs(events: seq<Event>, since: int, now: int): int
    decreases |events|
  {
    if |events| == 0 then 0
    else
      var init := events[..|events| - 1];
      match events[|events| - 1]
      case Start(at) => RunningMs(init, since, at) + Overlap(at, now, since)
      case Pause(at, _) => RunningMs(init, since, at)
  }

  function Segments(events: seq<Event>, since: int, now: int): nat
    decreases |events|
  {
    if |events| == 0 then 0
    else
      var init := events[..|events| - 1];
      match events[|events| - 1]
      case Start(at) => Segments(init, since, at) + (if Overlap(at, now, since) > 0 then 1 else 0)
      case Pause(at, _) => Segments(init, since, at)
  }

  // ---------------------------------------------------------------- what the clock shows

  /** The player sat down strictly after a pause and no later than the start that resumed it. */
  predicate SatInPause(before: seq<Event>, resumedAt: int, since: int) {
    |before| > 0 && LastAt(before) < since <= resumedAt
  }

  /** What a player who sat down during a pause is credited with at the resume: the snapshot an older
      stint of the same id left, or else the whole table's carry. */
  function Inherited(c: Clock, resumedAt: int, since: int, player: Id): int {
    if player in c.baseline then c.baseline[player]
    else if since < resumedAt then c.pausedCarry
    else 0
  }

  /** What a player's clock starts from after a start on a running table: the whole table's carry,
      whatever the player had played. */
  function CarriedOver(c: Clock, startedAt: int, since: int): int {
    if since < startedAt then c.pausedCarry else 0
  }

  /** By how much the clock is off. */
  function Extra(events: seq<Event>, since: int, player: Id): int
    decreases |events|
  {
    if |events| == 0 then 0
    else
      var init := events[..|events| - 1];
      match events[|events| - 1]
      case Start(at) =>
        if Running(init) then CarriedOver(ClockAfter(init), at, since) - FlooredSeconds(init, since, at)
        else if SatInPause(init, at, since) then Inherited(ClockAfter(init), at, since, player)
        else Extra(init, since, player)
      case Pause(_, _) => Extra(init, since, player)
  }

  lemma {:induction false} ClockShape(events: seq<Event>)
    requires WellFormed(events) && |events| > 0
    ensures var c, e := ClockAfter(events), events[|events| - 1];
            && c.pausedCarry >= 0
            && (forall id :: id in c.baseline ==> c.baseline[id] >= 0)
            && (e.Start? ==> !c.staffPaused && c.sessionStartedAt == Some(e.at))
            && (e.Pause? ==> |events| > 1 && c.staffPaused && c.pausedAt == Some(e.at)
                             && c.segmentStart == Some(events[|events| - 2].at))
            && (|events| == 1 ==> c.pausedCarry == 0 && c.baseline == map[])
    decreases |events|
  {
    var init := events[..|events| - 1];
    if |events| > 1 {
      ClockShape(init);
    }
  }

  lemma {:induction false} TimesBelowLast(events: seq<Event>, i: nat)
    requires InTimeOrder(events) && i < |events|
    ensures events[i].at <= LastAt(events)
    decreases |events| - i
  {
    if i < |events| - 1 {
      TimesBelowLast(events, i + 1);
    }
  }

  /** Nothing counts, and nothing was inherited, before the player sat. */
  lemma {:induction false} NothingBeforeSitting(events: seq<Event>, since: int, player: Id)
    requires WellFormed(events) && (|events| > 0 ==> LastAt(events) <= since)
    ensures forall now :: now <= since && (|events| > 0 ==> LastAt(events) <= now) ==>
      FlooredSeconds(events, since, now) == 0
    ensures |events| > 0 && LastAt(events) < since ==> Extra(events, since, player) == 0
    decreases |events|
  {
    if |events| > 0 {
      var init := events[..|events| - 1];
      if |init| > 0 {
        TimesBelowLast(events, |init| - 1);
      }
      NothingBeforeSitting(init, since, player);
    }
  }

  /** A paused table's sum no longer depends on the time. */
  lemma PausedSum(events: seq<Event>, since: int, now: int, later: int)
    requires |events| > 0 && events[|events| - 1].Pause?
    ensures FlooredSeconds(events, since, now) == FlooredSeconds(events, since, later)
  {
  }

  /** The resume case: the clock continues from the snapshot, from the table's carry, or from zero. */
  lemma AfterResume(init: seq<Event>, at: int, player: Id, since: int, now: int)
    requires WellFormed(init) && |init| > 0 && init[|init| - 1].Pause? && LastAt(init) <= at <= now
    requires player != "" && since <= now
    requires since <= LastAt(init) ==>
      && player in ClockAfter(init).baseline
      && ClockAfter(init).baseline[player] == FlooredSeconds(init, since, at) + Extra(init, since, player)
    ensures var events := init + [Start(at)];
            && WellFormed(events)
            && PlaySeconds(since, ClockAfter(events), now, player)
               == FlooredSeconds(events, since, now) + Extra(events, since, player)
  {
    var events := init + [Start(at)];
    assert events[..|init|] == init;
    ClockShape(init);
    if since > LastAt(init) {
      NothingBeforeSitting(init, since, player);
      PausedSum(init, since, LastAt(init), at);
    }
  }

  lemma FirstStart(at: int, player: Id, since: int, now: int)
    requires player != "" && at <= now && since <= now
    ensures PlaySeconds(since, ClockAfter([Start(at)]), now, player)
         == FlooredSeconds([Start(at)], since, now) + Extra([Start(at)], since, player)
  {
    assert [Start(at)][..0] == [];
  }

  /** The restart case: whatever was shown before, the clock now starts from the table's carry. */
  lemma AfterRestart(init: seq<Event>, at: int, player: Id, since: int, now: int)
    requires WellFormed(init) && Running(init) && LastAt(init) <= at <= now
    requires player != "" && since <= now
    ensures var events := init + [Start(at)];
            && WellFormed(events)
            && PlaySeconds(since, ClockAfter(events), now, player)
               == CarriedOver(ClockAfter(init), at, since) + Seconds(Overlap(at, now, since))
            && PlaySeconds(since, ClockAfter(events), now, player)
               == FlooredSeconds(events, since, now) + Extra(events, since, player)
  {
    var events := init + [Start(at)];
    assert events[..|init|] == init;
    ClockShape(init);
  }

  /** For every history and every player sitting since `since`, the clock shows the floored running
      segments since then, plus what Extra says it is off by. */
  lemma {:induction false} PlaySecondsExactly(events: seq<Event>, player: Id, since: int, now: int)
    requires WellFormed(events) && |events| > 0
    requires Sits(events, player, since)
    requires LastAt(events) <= now && since <= now
    ensures PlaySeconds(since, ClockAfter(events), now, player)
         == FlooredSeconds(events, since, now) + Extra(events, since, player)
    decreases |events|, 1
  {
    hide PlaySeconds, ClockAfter, FlooredSeconds, Extra;
    var init, e := events[..|events| - 1], events[|events| - 1];
    assert events == init + [e];
    if e.Pause? {
      if since <= e.at {
        SnapshotExactly(events, player, since, now);
      }
      WhilePaused(events, player, since, now);
    } else if |init| == 0 {
      FirstStart(e.at, player, since, now);
    } else if Running(init) {
      AfterRestart(init, e.at, player, since, now);
    } else {
      if since <= LastAt(init) {
        SnapshotExactly(init, player, since, e.at);
      }
      AfterResume(init, e.at, player, since, now);
    }
  }

  lemma WhilePaused(events: seq<Event>, player: Id, since: int, now: int)
    requires WellFormed(events) && |events| > 0 && events[|events| - 1].Pause? && player != "" && LastAt(events) <= now
    requires since <= LastAt(events) ==>
      && player in ClockAfter(events).baseline
      && ClockAfter(events).baseline[player] == FlooredSeconds(events, since, now) + Extra(events, since, player)
    ensures PlaySeconds(since, ClockAfter(events), now, player)
            == FlooredSeconds(events, since, now) + Extra(events, since, player)
  {
    hide ClockAfter, FlooredSeconds, Extra;
    ClockShape(events);
    if since > LastAt(events) {
      TimesBelowLast(events, |events| - 2);
      NothingBeforeSitting(events, since, player);
      PausedSum(events, since, LastAt(events), now);
    }
  }

  /** A pause snapshots, for a player seated by then, exactly what the running clock showed. */
  lemma {:induction false} SnapshotExactly(events: seq<Event>, player: Id, since: int, now: int)
    requires WellFormed(events) && |events| > 0 && events[|events| - 1].Pause?
    requires Sits(events, player, since) && since <= LastAt(events)
    ensures player in ClockAfter(events).baseline
    ensures ClockAfter(events).baseline[player] == FlooredSeconds(events, since, now) + Extra(events, since, player)
    decreases |events|, 0
  {
    var init, e := events[..|events| - 1], events[|events| - 1];
    PlaySecondsExactly(init, player, since, e.at);
    ClockShape(init);
    assert player in e.roster && e.roster[player] == since;
  }

  // ---------------------------------------------------------------- when the clock is right

  /** The i-th event is a start that does not continue the player's own count: on a running table, after
      the player sat down, or out of a pause during which the player sat down. */
  predicate Resets(events: seq<Event>, i: int, since: int) {
    && 0 < i < |events| && events[i].Start? && since <= events[i].at
    && (events[i - 1].Start? || events[i - 1].at < since)
  }

  /** What that start credits the player with, beyond what the player had played by then. */
  function ResetError(events: seq<Event>, i: int, since: int, player: Id): int
    requires Resets(events, i, since)
  {
    var c, at := ClockAfter(events[..i]), events[i].at;
    if events[i - 1].Start? then CarriedOver(c, at, since) - FlooredSeconds(events[..i], since, at)
    else Inherited(c, at, since, player)
  }

  predicate LastReset(events: seq<Event>, i: int, since: int) {
    Resets(events, i, since) && forall j :: i < j < |events| ==> !Resets(events, j, since)
  }

  lemma ResetsInit(events: seq<Event>, i: int, since: int, player: Id)
    requires |events| > 0 && i < |events| - 1
    ensures Resets(events[..|events| - 1], i, since) <==> Resets(events, i, since)
    ensures Resets(events, i, since) ==>
      ResetError(events[..|events| - 1], i, since, player) == ResetError(events, i, since, player)
  {
    if Resets(events, i, since) {
      assert events[..|events| - 1][..i] == events[..i];
    }
  }

  /** A start later than which the player sat down: nothing was reset before it either. */
  lemma NoResetBefore(events: seq<Event>, since: int, i: int)
    requires InTimeOrder(events) && |events| > 0 && LastAt(events) < since
    ensures !Resets(events, i, since)
  {
    if Resets(events, i, since) {
      TimesBelowLast(events, i);
      assert false;
    }
  }

  /** The error after a last event that resets nothing is the error before it. */
  lemma ExtraStays(events: seq<Event>, since: int, player: Id)
    requires WellFormed(events) && |events| > 0 && !Resets(events, |events| - 1, since)
    requires events[|events| - 1].Start? ==> since <= LastAt(events)
    ensures Extra(events, since, player) == Extra(events[..|events| - 1], since, player)
  {
    hide ClockAfter, FlooredSeconds;
  }

  /** The error is that of the last such start, and there is none without one. */
  lemma {:induction false} ExtraIsLastReset(events: seq<Event>, player: Id, since: int)
    requires WellFormed(events)
    ensures forall i :: LastReset(events, i, since) ==>
      Extra(events, since, player) == ResetError(events, i, since, player)
    ensures (forall i :: !Resets(events, i, since)) ==> Extra(events, since, player) == 0
    decreases |events|
  {
    if |events| > 0 {
      hide ClockAfter, FlooredSeconds, Inherited, Resets, ResetError;
      var init, last := events[..|events| - 1], |events| - 1;
      if events[last].Start? && since > LastAt(events) {
        NothingBeforeSitting(events, since, player);
        forall i
          ensures !Resets(events, i, since)
        {
          NoResetBefore(events, since, i);
        }
      } else if Resets(events, last, since) {
        ResetHere(events, since, player);
        forall i | LastReset(events, i, since)
          ensures i == last
        {
          assert i < last ==> !Resets(events, last, since);
          OnlyInside(events, i, since);
        }
      } else {
        ExtraStays(events, since, player);
        ExtraIsLastReset(init, player, since);
        forall i | LastReset(events, i, since)
          ensures Extra(events, since, player) == ResetError(events, i, since, player)
        {
          OnlyInside(events, i, since);
          ResetsInit(events, i, since, player);
          forall j | i < j < last
            ensures !Resets(init, j, since)
          {
            ResetsInit(events, j, since, player);
          }
          assert LastReset(init, i, since);
        }
        if forall i :: !Resets(events, i, since) {
          forall i
            ensures !Resets(init, i, since)
          {
            if i < last {
              ResetsInit(events, i, since, player);
            } else {
              OutsideNothing(init, i, since);
            }
          }
        }
      }
    }
  }

  lemma OnlyInside(events: seq<Event>, i: int, since: int)
    requires Resets(events, i, since)
    ensures 0 < i < |events|
  {
  }

  lemma OutsideNothing(events: seq<Event>, i: int, since: int)
    requires i >= |events|
    ensures !Resets(events, i, since)
  {
  }

  lemma ResetHere(events: seq<Event>, since: int, player: Id)
    requires WellFormed(events) && |events| > 0 && Resets(events, |events| - 1, since)
    ensures Extra(events, since, player) == ResetError(events, |events| - 1, since, player)
  {
    hide ClockAfter, FlooredSeconds, Inherited;
  }

  /** The clock shows exactly the floored running segments if and only if the last start that did not
      continue the player's own count, if there was one, happened to credit just what was played. */
  lemma CorrectUnlessReset(events: seq<Event>, player: Id, since: int, now: int)
    requires WellFormed(events) && |events| > 0
    requires Sits(events, player, since)
    requires LastAt(events) <= now && since <= now
    ensures PlaySeconds(since, ClockAfter(events), now, player) == FlooredSeconds(events, since, now)
       <==> forall i :: LastReset(events, i, since) ==> ResetError(events, i, since, player) == 0
  {
    PlaySecondsExactly(events, player, since, now);
    ExtraIsLastReset(events, player, since);
    if i :| Resets(events, i, since) {
      var k := FindLastReset(events, i, since);
    }
  }

  lemma {:induction false} FindLastReset(events: seq<Event>, i: int, since: int) returns (k: int)
    requires Resets(events, i, since)
    ensures LastReset(events, k, since)
    decreases |events| - i
  {
    if j :| i < j < |events| && Resets(events, j, since) {
      k := FindLastReset(events, j, since);
    } else {
      k := i;
    }
  }

  /** Starts and pauses alternate: the table was never started while running. */
  predicate Alternating(events: seq<Event>) {
    forall i :: 0 < i < |events| && events[i].Start? ==> events[i - 1].Pause?
  }

  /** The i-th event resumed the table out of a pause during which the player sat down, and the notes
      then held something to inherit. */
  predicate InheritsAt(events: seq<Event>, i: int, since: int, player: Id) {
    && 0 < i < |events| && events[i].Start? && events[i - 1].at < since <= events[i].at
    && Inherited(ClockAfter(events[..i]), events[i].at, since, player) != 0
  }

  lemma OnlyOnePause(events: seq<Event>, i: int, j: int, since: int)
    requires WellFormed(events) && Alternating(events) && Resets(events, i, since) && i < j < |events|
    ensures !Resets(events, j, since)
  {
    var until := events[..j];
    assert until[i] == events[i];
    TimesBelowLast(until, i);
  }

  /** A table never started while running: the clock is right if and only if the player did not sit
      down during a pause, since resumed, that left a carry or an old snapshot to inherit. */
  lemma CorrectUnlessInherited(events: seq<Event>, player: Id, since: int, now: int)
    requires WellFormed(events) && |events| > 0 && Alternating(events)
    requires Sits(events, player, since)
    requires LastAt(events) <= now && since <= now
    ensures PlaySeconds(since, ClockAfter(events), now, player) == FlooredSeconds(events, since, now)
       <==> forall i :: !InheritsAt(events, i, since, player)
  {
    hide PlaySeconds, ClockAfter, FlooredSeconds;
    CorrectUnlessReset(events, player, since, now);
    forall i
      ensures LastReset(events, i, since) && ResetError(events, i, since, player) != 0
        <==> InheritsAt(events, i, since, player)
    {
      if Resets(events, i, since) {
        forall j | i < j < |events|
          ensures !Resets(events, j, since)
        {
          OnlyOnePause(events, i, j, since);
        }
      }
    }
  }

  /** Sitting down during a pause is credited wrongly: 600 s played before the pause, the player sits
      down 100 s into the pause, the table resumes, and 10 s later the clock shows 610. */
  lemma SittingInAPauseInherits()
    ensures var events := [Start(0), Pause(600_000, map[]), Start(800_000)];
            WellFormed(events) && Sits(events, "p", 700_000)
            && FlooredSeconds(events, 700_000, 810_000) == 10
            && PlaySeconds(700_000, ClockAfter(events), 810_000, "p") == 610
  {
    var events := [Start(0), Pause(600_000, map[]), Start(800_000)];
    assert events[..2] == [Start(0), Pause(600_000, map[])];
    assert events[..2][..1] == [Start(0)];
    assert [Start(0)][..0] == [];
    ClockShape(events[..2]);
    assert ClockAfter([Start(0)]) == Clock(Some(0), 0, false, None, None, map[]);
    assert ClockAfter(events[..2]).pausedCarry == 600;
    PlaySecondsExactly(events, "p", 700_000, 810_000);
    NothingBeforeSitting(events[..2], 700_000, "p");
  }

  /** What a start on a running table loses: a player who sat before it is shown the table's carry plus
      the time since the start, whatever the clock showed just before; the players' own carries are gone,
      and so is the open segment, from the staff clock too. */
  lemma RestartForgets(events: seq<Event>, at: int, player: Id, since: int, now: int)
    requires WellFormed(events) && Running(events) && LastAt(events) <= at <= now
    requires player != "" && since < at
    ensures var before, after := ClockAfter(events), ClockAfter(events + [Start(at)]);
      && after == Clock(Some(at), before.pausedCarry, false, None, None, map[])
      && PlaySeconds(since, after, now, player) == before.pausedCarry + Seconds(now - at)
      && (PlaySeconds(since, after, at, player) == PlaySeconds(since, before, at, player)
          <==> before.pausedCarry == PlaySeconds(since, before, at, player))
  {
    AfterRestart(events, at, player, since, now);
    AfterRestart(events, at, player, since, at);
    assert (events + [Start(at)])[..|events|] == events;
    ClockShape(events);
  }

  /** A player seated from the start of a table that ran 600 s before a second start: 10 s later the
      clock shows 10 instead of 610. */
  lemma RestartLosesSegment()
    ensures var events := [Start(0), Start(600_000)];
            WellFormed(events) && Sits(events, "p", 0)
            && FlooredSeconds(events, 0, 610_000) == 610
            && PlaySeconds(0, ClockAfter(events), 610_000, "p") == 10
  {
    var events := [Start(0), Start(600_000)];
    assert events == [Start(0)] + [Start(600_000)] && events[..1] == [Start(0)] && [Start(0)][..0] == [];
    AfterRestart([Start(0)], 600_000, "p", 0, 610_000);
  }

  /** On a table never started the clock counts from when the player sat down. */
  lemma NeverStarted(since: int, now: int, player: Id)
    ensures PlaySeconds(since, ClockAfter([]), now, player) == Max(0, Seconds(now - since))
  {
  }

  /** Notes that say paused but not when, or not since when the segment ran: a player whose own seconds are not
      in them, or who sat down after the pause, is shown the staff clock's carry. A call without a player id
      shows what it would if the notes held nobody's seconds. */
  lemma WithoutTimesOrId(since: int, c: Clock, now: int, player: Id)
    ensures c.staffPaused
            && (c.pausedAt.None? || (c.segmentStart.None? && (player !in c.baseline || since > c.pausedAt.value)))
            ==> PlaySeconds(since, c, now, player) == Max(0, c.pausedCarry)
    ensures PlaySeconds(since, c, now, "") == PlaySeconds(since, c.(baseline := map[]), now, player)
  {
  }

  /** What the pauses have closed so far: each adds the seconds since the start before it, floored. */
  function ClosedSeconds(events: seq<Event>): int
    decreases |events|
  {
    if |events| == 0 then 0
    else
      var n := |events| - 1;
      ClosedSeconds(events[..n])
      + (if events[n].Pause? && n > 0 then Seconds(events[n].at - events[n - 1].at) else 0)
  }

  /** The staff clock: its carry is exactly the closed segments, running or paused, whoever sat at the table. */
  lemma {:induction false} CarryIsClosedSegments(events: seq<Event>)
    requires WellFormed(events)
    ensures ClockAfter(events).pausedCarry == ClosedSeconds(events)
    decreases |events|
  {
    if |events| > 0 {
      var init := events[..|events| - 1];
      CarryIsClosedSegments(init);
      if |init| > 0 {
        ClockShape(init);
      }
    }
  }

  /** The clock runs exactly after a start, whatever came before. */
  lemma {:induction false} RunsAfterStart(events: seq<Event>)
    ensures ClockAfter(events).sessionStartedAt.Some? <==> Running(events)
    decreases |events|
  {
    if |events| > 0 {
      RunsAfterStart(events[..|events| - 1]);
    }
  }

  /** Pausing a table that is not running changes nothing. */
  lemma IdlePause(events: seq<Event>, at: int, roster: map<Id, int>)
    requires !Running(events)
    ensures ClockAfter(events + [Pause(at, roster)]) == ClockAfter(events)
  {
    RunsAfterStart(events);
    assert (events + [Pause(at, roster)])[..|events|] == events;
  }

  /** The floored sum never exceeds the true running time and falls short of it by less than one
      second per segment. */
  lemma {:induction false} RoundingBound(events: seq<Event>, since: int, now: int)
    ensures var f, ms := FlooredSeconds(events, since, now), RunningMs(events, since, now);
            var n := Segments(events, since, now);
            1000 * f <= ms <= 1000 * f + 999 * n
    decreases |events|
  {
    if |events| > 0 {
      RoundingBound(events[..|events| - 1], since, events[|events| - 1].at);
    }
  }

  /** While paused the clock stands still; while running it never goes back. */
  lemma ClockMonotone(events: seq<Event>, player: Id, since: int, now: int, later: int)
    requires WellFormed(events) && |events| > 0 && now <= later
    ensures var c := ClockAfter(events);
            if Running(events) then PlaySeconds(since, c, now, player) <= PlaySeconds(since, c, later, player)
            else PlaySeconds(since, c, now, player) == PlaySeconds(since, c, later, player)
  {
    ClockShape(events);
  }

  /** A pause freezes what the running clock showed, and a resume continues from there, for every
      player who was seated at the pause. */
  lemma PauseAndResumeContinue(events: seq<Event>, player: Id, since: int, pausedAt: int, roster: map<Id, int>,
                               resumedAt: int)
    requires WellFormed(events) && Running(events) && LastAt(events) <= pausedAt <= resumedAt
    requires player != "" && player in roster && roster[player] == since <= pausedAt
    ensures var paused := events + [Pause(pausedAt, roster)];
            var resumed := paused + [Start(resumedAt)];
            var shown := PlaySeconds(since, ClockAfter(events), pausedAt, player);
            && (forall now :: PlaySeconds(since, ClockAfter(paused), now, player) == shown)
            && PlaySeconds(since, ClockAfter(resumed), resumedAt, player) == shown
  {
    var paused := events + [Pause(pausedAt, roster)];
    assert paused[..|events|] == events;
    assert (paused + [Start(resumedAt)])[..|paused|] == paused;
    ClockShape(events);
  }
}
