/** Attendance records: the batch save and the single create and update paths, with their leave,
    off-day and privilege rules. */
module Attendance {
  import opened Basics
  import opened Calendar

  /** A Date value; an unparsable input gives one whose getTime() is NaN and compares false with
      everything. */
  datatype Time = At(ms: int) | Invalid

  /** The refusal test `logout.getTime() <= login.getTime()`. */
  predicate NotAfter(logout: Time, login: Time) {
    logout.At? && login.At? && logout.ms <= login.ms
  }

  datatype Record = Record(staff: Id, date: Day, login: Time, logout: Option<Time>, tier: int, overtime: int,
                           offDayWork: bool)

  datatype Shift = Shift(offDay: bool, start: Wall, end: Wall)

  datatype Template = Template(start: Wall, end: Wall, crossesMidnight: bool)

  datatype Entry = Entry(
    staff: Id,
    date: Option<Day>,
    login: Option<Time>,
    logout: Option<Time>,
    useShiftTimes: bool,
    overtime: Option<int>,
    workedOffDay: bool)

  datatype Message =
    | Updated | Created | WrongDate | HigherPrivilege | OnLeave | NoShift | OffDay | NoTemplate
    | LogoutNotAfterLogin | StaffNotFound

  datatype Result = Result(staff: Id, message: Message)

  predicate Success(r: Result) {
    r.message == Updated || r.message == Created
  }

  /** canOverrideAttendance: only a privileged mark replaces one, and none of a lower tier does. */
  predicate CanOverride(existingTier: int, newTier: int)
    ensures CanOverride(existingTier, newTier) <==> newTier >= 1 && newTier >= existingTier
  {
    if existingTier <= 0 then newTier >= 1 else newTier >= existingTier
  }

  /** What the batch reads once, before its loop. */
  datatype Batch = Batch(
    date: Day,
    shifts: map<Id, Shift>,
    templates: map<Id, Template>,
    onLeave: set<Id>,
    staff: set<Id>,
    tier: int,
    allowOffDay: bool)

  // ---------------------------------------------------------------- one entry

  datatype Times = Refused(why: Message) | Worked(login: Time, logout: Time)

  /** Login and logout of an entry: from the template, else from the shift, else as typed in. */
  function TimesFor(b: Batch, e: Entry): (t: Times)
    requires ValidDay(b.date)
    ensures t.Refused? ==> t.why in {NoShift, OffDay, NoTemplate}
  {
    var offAllowed := b.allowOffDay || e.workedOffDay;
    if e.useShiftTimes || (e.login.None? && e.logout.None?) then
      if e.staff !in b.shifts then Refused(NoShift)
      else if b.shifts[e.staff].offDay && !offAllowed then Refused(OffDay)
      else if e.staff in b.templates then
        var t := b.templates[e.staff];
        WithinYear(b.date);
        Worked(At(Instant(b.date, t.start)),
               At(Instant(if t.crossesMidnight then AddDays(b.date, 1) else b.date, t.end)))
      else if b.shifts[e.staff].offDay then Refused(NoTemplate)
      else
        WithinYear(b.date);
        var wall := ShiftTimes(b.date, b.shifts[e.staff].start, b.shifts[e.staff].end);
        Worked(At(wall.0), At(wall.1))
    else if e.staff in b.shifts && b.shifts[e.staff].offDay && !offAllowed then Refused(OffDay)
    else Worked(if e.login.Some? then e.login.value else Invalid, if e.logout.Some? then e.logout.value else Invalid)
  }

  /** The record an accepted entry leaves. */
  function RecordFor(b: Batch, e: Entry): (r: Record)
    requires ValidDay(b.date) && TimesFor(b, e).Worked?
    ensures r.staff == e.staff && r.date == b.date && r.tier == b.tier && r.logout.Some?
  {
    var t := TimesFor(b, e);
    Record(e.staff, b.date, t.login, Some(t.logout), b.tier,
           if e.overtime.Some? then e.overtime.value else 0,
           e.staff in b.shifts && b.shifts[e.staff].offDay && (e.workedOffDay || b.allowOffDay))
  }

  /** The verdict on an entry; `existing` is the tier of the day's record of that staff, if any. */
  function Verdict(b: Batch, e: Entry, existing: Option<int>): Message
    requires ValidDay(b.date)
  {
    if e.date.Some? && e.date.value != b.date then WrongDate
    else if existing.Some? && !CanOverride(existing.value, b.tier) then HigherPrivilege
    else if e.staff in b.onLeave then OnLeave
    else match TimesFor(b, e)
      case Refused(why) => why
      case Worked(login, logout) =>
        if NotAfter(logout, login) then LogoutNotAfterLogin
        else if e.staff !in b.staff then StaffNotFound
        else if existing.Some? then Updated else Created
  }

  // ---------------------------------------------------------------- the whole batch

  /** `work` are the loaded records, edited in place; `added` the new ones, in entry order. */
  datatype Progress = Progress(work: seq<Record>, added: seq<Record>, results: seq<Result>)

  /** The loaded record of a staff member on the batch's date, by position. */
  ghost predicate IsIndex(records: seq<Record>, date: Day, existing: map<Id, nat>) {
    && (forall s :: s in existing ==>
        existing[s] < |records| && records[existing[s]].staff == s && records[existing[s]].date == date)
    && (forall i :: 0 <= i < |records| && records[i].date == date ==> records[i].staff in existing)
  }

  function ExistingTier(work: seq<Record>, existing: map<Id, nat>, staff: Id): Option<int> {
    if staff in existing && existing[staff] < |work| then Some(work[existing[staff]].tier) else None
  }

  function Take(b: Batch, existing: map<Id, nat>, p: Progress, e: Entry): Progress
    requires ValidDay(b.date)
  {
    var message := Verdict(b, e, ExistingTier(p.work, existing, e.staff));
    Progress(
      if message == Updated && e.staff in existing && existing[e.staff] < |p.work|
      then p.work[existing[e.staff] := RecordFor(b, e)] else p.work,
      if message == Created then p.added + [RecordFor(b, e)] else p.added,
      p.results + [Result(e.staff, message)])
  }

  function Process(b: Batch, existing: map<Id, nat>, records: seq<Record>, entries: seq<Entry>): (p: Progress)
    requires ValidDay(b.date)
    ensures |p.results| == |entries| && |p.work| == |records|
  {
    if |entries| == 0 then Progress(records, [], [])
    else Take(b, existing, Process(b, existing, records, entries[..|entries| - 1]), entries[|entries| - 1])
  }

  /** One record per staff member per day. */
  ghost predicate OnePerDay(records: seq<Record>) {
    forall i, j :: 0 <= i < j < |records| ==>
      !(records[i].staff == records[j].staff && records[i].date == records[j].date)
  }

  /** No surviving record has a lower tier than before. */
  ghost predicate TiersKept(before: seq<Record>, after: seq<Record>) {
    |after| >= |before| && forall i :: 0 <= i < |before| ==> after[i].tier >= before[i].tier
  }

  /** One pass of the batch loop: the checks in the order the code makes them, leaving at the first
      that fails, and the record an accepted entry is saved as. */
  method JudgeEntry(b: Batch, entry: Entry, existing: Option<int>) returns (message: Message, record: Option<Record>)
    requires ValidDay(b.date)
    ensures message == Verdict(b, entry, existing)
    ensures message == Updated || message == Created ==>
      TimesFor(b, entry).Worked? && record == Some(RecordFor(b, entry))
    ensures message != Updated && message != Created ==> record == None
  {
    if entry.date.Some? && entry.date.value != b.date {
      return WrongDate, None;
    }
    if existing.Some? {
      if !CanOverride(existing.value, b.tier) {
        return HigherPrivilege, None;
      }
    }
    if entry.staff in b.onLeave {
      return OnLeave, None;
    }
    var offDayWorkAllowed := b.allowOffDay || entry.workedOffDay;
    var login, logout: Time;
    WithinYear(b.date);
    hide DayNumber, AddDays, Instant, ShiftTimes;
    if entry.useShiftTimes || (entry.login.None? && entry.logout.None?) {
      if entry.staff !in b.shifts {
        return NoShift, None;
      }
      var shift := b.shifts[entry.staff];
      if shift.offDay && !offDayWorkAllowed {
        return OffDay, None;
      }
      if entry.staff in b.templates {
        var template := b.templates[entry.staff];
        login := At(Instant(b.date, template.start));
        if template.crossesMidnight {
          logout := At(Instant(AddDays(b.date, 1), template.end));
        } else {
          logout := At(Instant(b.date, template.end));
        }
      } else if shift.offDay {
        return NoTemplate, None;
      } else {
        var wall := ShiftTimes(b.date, shift.start, shift.end);
        login, logout := At(wall.0), At(wall.1);
      }
    } else {
      if entry.staff in b.shifts && b.shifts[entry.staff].offDay && !offDayWorkAllowed {
        return OffDay, None;
      }
      login := if entry.login.Some? then entry.login.value else Invalid;
      logout := if entry.logout.Some? then entry.logout.value else Invalid;
    }
    if NotAfter(logout, login) {
      return LogoutNotAfterLogin, None;
    }
    if entry.staff !in b.staff {
      return StaffNotFound, None;
    }
    var workedRosterOffDay := entry.staff in b.shifts && b.shifts[entry.staff].offDay
      && (entry.workedOffDay || b.allowOffDay);
    var overtime := if entry.overtime.Some? then entry.overtime.value else 0;
    record := Some(Record(entry.staff, b.date, login, Some(logout), b.tier, overtime, workedRosterOffDay));
    if existing.Some? {
      return Updated, record;
    }
    return Created, record;
  }

  /** The batch loop: loaded records are edited in place, new ones collected, one result per entry. */
  method RunBatch(b: Batch, existingByStaff: map<Id, nat>, records: seq<Record>, entries: seq<Entry>)
    returns (work: seq<Record>, added: seq<Record>, results: seq<Result>)
    requires ValidDay(b.date)
    ensures Progress(work, added, results) == Process(b, existingByStaff, records, entries)
  {
    work, added, results := records, [], [];
    var i := 0;
    while i < |entries|
      invariant 0 <= i <= |entries|
      invariant Progress(work, added, results) == Process(b, existingByStaff, records, entries[..i])
    {
      var entry := entries[i];
      assert entries[..i + 1][..i] == entries[..i];
      var message, record := JudgeEntry(b, entry, ExistingTier(work, existingByStaff, entry.staff));
      if message == Updated && entry.staff in existingByStaff && existingByStaff[entry.staff] < |work| {
        work := work[existingByStaff[entry.staff] := record.value];
      } else if message == Created {
        added := added + [record.value];
      }
      results := results + [Result(entry.staff, message)];
      i := i + 1;
    }
    assert entries[..i] == entries;
  }

  datatype Reply = Saved | FutureDate | UnknownStaff | StaffOnLeave | BadTimes | Forbidden | UnknownRecord | SaveFailed

  class AttendanceBook {
    var records: seq<Record>

    /** The day's records by staff, as the batch loads them. */
    method IndexDay(date: Day) returns (existingByStaff: map<Id, nat>)
      ensures IsIndex(records, date, existingByStaff)
    {
      existingByStaff := map[];
      var k := 0;
      while k < |records|
        invariant 0 <= k <= |records|
        invariant IsIndex(records[..k], date, existingByStaff)
      {
        if records[k].date == date {
          existingByStaff := existingByStaff[records[k].staff := k];
        }
        k := k + 1;
      }
      assert records[..k] == records;
    }

    /** bulkCreateAttendance; `today` is the club's date. Saving the batch is one statement. */
    method BulkCreate(entries: seq<Entry>, today: Day, shifts: map<Id, Shift>, templates: map<Id, Template>,
                      onLeave: set<Id>, staff: set<Id>, allowOffDay: bool, tier: int, saveFails: bool)
      returns (reply: Reply, results: seq<Result>, ghost existing: map<Id, nat>)
      requires ValidDay(today) && forall i :: 0 <= i < |entries| && entries[i].date.Some? ==>
        ValidDay(entries[i].date.value)
      modifies this
      ensures IsIndex(old(records), BatchDay(entries, today), existing)
      ensures reply != Saved ==> records == old(records)
      ensures reply == FutureDate <==> Earlier(today, BatchDay(entries, today))
      ensures reply == Saved ==>
        var p := Process(Batch(BatchDay(entries, today), shifts, templates, onLeave, staff, tier, allowOffDay),
                         existing, old(records), entries);
        results == p.results && records == p.work + p.added
      ensures !saveFails && !Earlier(today, BatchDay(entries, today)) ==> reply == Saved
      ensures BatchDay(entries, today)
              == if entries == [] || entries[0].date.None? then today else entries[0].date.value
      ensures TiersKept(old(records), records)
    {
      results := [];
      var date := if |entries| > 0 && entries[0].date.Some? then entries[0].date.value else today;
      var existingByStaff := IndexDay(date);
      existing := existingByStaff;
      if Earlier(today, date) {
        return FutureDate, [], existing;
      }
      var batch := Batch(date, shifts, templates, onLeave, staff, tier, allowOffDay);
      var work, added;
      work, added, results := RunBatch(batch, existingByStaff, records, entries);
      if saveFails {
        return SaveFailed, [], existing;
      }
      AllTiersKept(batch, existingByStaff, records, entries);
      records := work + added;
      return Saved, results, existing;
    }

    /** createAttendanceRecord: replaces the day's record when the privilege allows it. */
    method CreateRecord(staffId: Id, date: Day, today: Day, login: Time, logout: Time,
                        overtime: Option<int>, offDayWork: bool,
                        onLeave: bool, staff: set<Id>, tier: int)
      returns (reply: Reply)
      modifies this
      ensures TiersKept(old(records), records)
      ensures OnePerDay(old(records)) ==> OnePerDay(records)
      ensures reply != Saved ==> records == old(records)
      ensures var at := DayRecordAt(old(records), staffId, date);
        && reply == (if Earlier(today, date) then FutureDate
                     else if staffId !in staff then UnknownStaff
                     else if onLeave then StaffOnLeave
                     else if NotAfter(logout, login) then BadTimes
                     else if at.Some? && !CanOverride(old(records)[at.value].tier, tier) then Forbidden
                     else Saved)
        && (reply == Saved ==>
              var r := Record(staffId, date, login, Some(logout), tier,
                              if overtime.Some? then overtime.value else 0, offDayWork);
              records == if at.Some? then old(records)[at.value := r] else old(records) + [r])
    {
      if Earlier(today, date) {
        return FutureDate;
      }
      if staffId !in staff {
        return UnknownStaff;
      }
      if onLeave {
        return StaffOnLeave;
      }
      var i := 0;
      while i < |records| && !IsDayRecord(records, i, staffId, date)
        invariant 0 <= i <= |records| && records == old(records)
        invariant DayRecordAt(records, staffId, date) == DayRecordFrom(records, staffId, date, i)
      {
        i := i + 1;
      }
      if NotAfter(logout, login) {
        return BadTimes;
      }
      var r := Record(staffId, date, login, Some(logout), tier,
                      if overtime.Some? then overtime.value else 0, offDayWork);
      if i < |records| {
        if !CanOverride(records[i].tier, tier) {
          return Forbidden;
        }
        records := records[i := r];
      } else {
        records := records + [r];
      }
      return Saved;
    }

    /** updateAttendanceRecord. */
    method UpdateRecord(i: nat, login: Option<Time>, logout: Option<Time>, overtime: Option<int>, tier: int)
      returns (reply: Reply)
      modifies this
      ensures TiersKept(old(records), records)
      ensures OnePerDay(old(records)) ==> OnePerDay(records)
      ensures reply != Saved ==> records == old(records)
      ensures reply == (if i >= |old(records)| then UnknownRecord
                        else if !CanOverride(old(records)[i].tier, tier) then Forbidden
                        else if logout.None? && old(records)[i].logout.None? then BadTimes
                        else if NotAfter(Given(logout, Given(old(records)[i].logout, Invalid)),
                                         Given(login, old(records)[i].login))
                        then BadTimes
                        else Saved)
      ensures reply == Saved ==>
        var r := old(records)[i];
        records == old(records)[i := Record(r.staff, r.date, Given(login, r.login),
                                            Some(Given(logout, Given(r.logout, Invalid))),
                                            tier, Given(overtime, r.overtime), r.offDayWork)]
    {
      if i >= |records| {
        return UnknownRecord;
      }
      var r := records[i];
      if !CanOverride(r.tier, tier) {
        return Forbidden;
      }
      var newLogin := if login.Some? then login.value else r.login;
      var newLogout := if logout.Some? then logout else r.logout;
      if newLogout.None? || NotAfter(newLogout.value, newLogin) {
        return BadTimes;
      }
      records := records[i := r.(login := newLogin, logout := newLogout, tier := tier,
                                 overtime := if overtime.Some? then overtime.value else r.overtime)];
      return Saved;
    }
  }

  function BatchDay(entries: seq<Entry>, today: Day): Day {
    if |entries| > 0 && entries[0].date.Some? then entries[0].date.value else today
  }

  /** A value given in the call, else the one there was. */
  function Given<T>(o: Option<T>, otherwise: T): T {
    if o.Some? then o.value else otherwise
  }

  /** The day's record of a staff member, as the query returns it. */
  function DayRecordFrom(records: seq<Record>, staff: Id, date: Day, from: nat): (at: Option<nat>)
    requires from <= |records|
    ensures at.Some? ==> from <= at.value < |records| && IsDayRecord(records, at.value, staff, date)
    ensures at.None? ==> forall k :: from <= k < |records| ==> !(records[k].staff == staff && records[k].date == date)
    decreases |records| - from
  {
    if from == |records| then None
    else if IsDayRecord(records, from, staff, date) then Some(from)
    else DayRecordFrom(records, staff, date, from + 1)
  }

  function DayRecordAt(records: seq<Record>, staff: Id, date: Day): Option<nat> {
    DayRecordFrom(records, staff, date, 0)
  }

  predicate IsDayRecord(records: seq<Record>, i: int, staff: Id, date: Day) {
    0 <= i < |records| && records[i].staff == staff && records[i].date == date
  }

  // ---------------------------------------------------------------- what a batch guarantees

  /** What the last entry of a batch adds to what the entries before it left. */
  lemma ProcessStep(b: Batch, existing: map<Id, nat>, records: seq<Record>, entries: seq<Entry>)
    requires ValidDay(b.date) && |entries| > 0
    ensures var n := |entries| - 1;
            var e := entries[n];
            var q, p := Process(b, existing, records, entries[..n]), Process(b, existing, records, entries);
            var message := p.results[n].message;
            && p.results == q.results + [Result(e.staff, message)]
            && (message == Updated || message == Created ==> TimesFor(b, e).Worked?)
            && p.work == (if message == Updated && e.staff in existing && existing[e.staff] < |q.work|
                          then q.work[existing[e.staff] := RecordFor(b, e)] else q.work)
            && p.added == (if message == Created then q.added + [RecordFor(b, e)] else q.added)
            && (message == Created ==> !(e.staff in existing && existing[e.staff] < |q.work|))
            && (message == Updated ==> e.staff in existing && existing[e.staff] < |q.work|
                                       && CanOverride(q.work[existing[e.staff]].tier, b.tier))
  {
    hide RecordFor, TimesFor, ValidDay;
  }

  /** Editing in place keeps every loaded record's staff and day, and never lowers its tier. */
  lemma {:induction false} TiersNeverFall(b: Batch, existing: map<Id, nat>, records: seq<Record>, entries: seq<Entry>,
                                          k: nat)
    requires ValidDay(b.date) && IsIndex(records, b.date, existing) && k < |records|
    ensures var r := Process(b, existing, records, entries).work[k];
            r.staff == records[k].staff && r.date == records[k].date && r.tier >= records[k].tier
    decreases |entries|
  {
    if |entries| > 0 {
      ProcessStep(b, existing, records, entries);
      TiersNeverFall(b, existing, records, entries[..|entries| - 1], k);
    }
  }

  lemma AllTiersKept(b: Batch, existing: map<Id, nat>, records: seq<Record>, entries: seq<Entry>)
    requires ValidDay(b.date) && IsIndex(records, b.date, existing)
    ensures var p := Process(b, existing, records, entries); TiersKept(records, p.work + p.added)
  {
    forall k | 0 <= k < |records|
      ensures Process(b, existing, records, entries).work[k].tier >= records[k].tier
    {
      TiersNeverFall(b, existing, records, entries, k);
    }
  }

  /** A record an entry may leave: of that entry, its staff not on leave and known, and when both
      times are well formed the logout is after the login. */
  predicate Sound(b: Batch, e: Entry, r: Record)
    requires ValidDay(b.date)
  {
    && TimesFor(b, e).Worked? && r == RecordFor(b, e)
    && e.staff !in b.onLeave && e.staff in b.staff && r.logout.Some?
    && (r.login.At? && r.logout.value.At? ==> r.login.ms < r.logout.value.ms)
  }

  /** The i-th entry got this message and accounts for the record. */
  predicate Accounts(b: Batch, entries: seq<Entry>, results: seq<Result>, i: int, message: Message, r: Record)
    requires ValidDay(b.date) && |results| == |entries|
  {
    0 <= i < |entries| && results[i].message == message && Sound(b, entries[i], r)
  }

  /** Some entry with this message accounts for the record. */
  ghost predicate Explained(b: Batch, entries: seq<Entry>, results: seq<Result>, message: Message, r: Record)
    requires ValidDay(b.date) && |results| == |entries|
  {
    exists i :: Accounts(b, entries, results, i, message, r)
  }

  lemma AccountsLonger(b: Batch, existing: map<Id, nat>, records: seq<Record>, entries: seq<Entry>, i: int,
                       message: Message, r: Record)
    requires ValidDay(b.date) && |entries| > 0
    requires var init := entries[..|entries| - 1];
             Accounts(b, init, Process(b, existing, records, init).results, i, message, r)
    ensures Accounts(b, entries, Process(b, existing, records, entries).results, i, message, r)
  {
  }

  /** A record the batch changed is sound for an entry that was reported as updated. */
  lemma {:induction false} ChangedOnlyBySuccess(b: Batch, existing: map<Id, nat>, records: seq<Record>,
                                                entries: seq<Entry>, k: nat)
    requires ValidDay(b.date) && IsIndex(records, b.date, existing) && k < |records|
    requires Process(b, existing, records, entries).work[k] != records[k]
    ensures var p := Process(b, existing, records, entries);
            Explained(b, entries, p.results, Updated, p.work[k])
    decreases |entries|
  {
    var n := |entries| - 1;
    var init := entries[..n];
    var q, p := Process(b, existing, records, init), Process(b, existing, records, entries);
    if p.work[k] == q.work[k] {
      ChangedOnlyBySuccess(b, existing, records, init, k);
      var i :| Accounts(b, init, q.results, i, Updated, q.work[k]);
      AccountsLonger(b, existing, records, entries, i, Updated, q.work[k]);
    } else {
      assert Accounts(b, entries, p.results, n, Updated, p.work[k]);
    }
  }

  /** A record the batch added is sound for an entry that was reported as created. */
  lemma {:induction false} AddedOnlyBySuccess(b: Batch, existing: map<Id, nat>, records: seq<Record>,
                                              entries: seq<Entry>, k: nat)
    requires ValidDay(b.date) && IsIndex(records, b.date, existing)
    requires k < |Process(b, existing, records, entries).added|
    ensures var p := Process(b, existing, records, entries);
            Explained(b, entries, p.results, Created, p.added[k])
    decreases |entries|
  {
    var n := |entries| - 1;
    var init := entries[..n];
    var q, p := Process(b, existing, records, init), Process(b, existing, records, entries);
    if k < |q.added| {
      AddedOnlyBySuccess(b, existing, records, init, k);
      var i :| Accounts(b, init, q.results, i, Created, q.added[k]);
      AccountsLonger(b, existing, records, entries, i, Created, q.added[k]);
    } else {
      assert Accounts(b, entries, p.results, n, Created, p.added[k]);
    }
  }

  /** Results come back one per entry, in order. */
  lemma {:induction false} OneResultPerEntry(b: Batch, existing: map<Id, nat>, records: seq<Record>,
                                             entries: seq<Entry>, i: nat)
    requires ValidDay(b.date) && i < |entries|
    ensures Process(b, existing, records, entries).results[i].staff == entries[i].staff
    decreases |entries|
  {
    if i < |entries| - 1 {
      OneResultPerEntry(b, existing, records, entries[..|entries| - 1], i);
    }
  }

  /** The last entry of a staff member, when it succeeds, is what is saved for the day. */
  lemma {:induction false} SuccessSaved(b: Batch, existing: map<Id, nat>, records: seq<Record>, entries: seq<Entry>,
                                        i: nat)
    requires ValidDay(b.date) && IsIndex(records, b.date, existing)
    requires i < |entries| && Success(Process(b, existing, records, entries).results[i])
    requires forall j :: i < j < |entries| ==> entries[j].staff != entries[i].staff
    ensures TimesFor(b, entries[i]).Worked?
    ensures var p := Process(b, existing, records, entries);
            RecordFor(b, entries[i]) in p.work + p.added
            && (entries[i].staff in existing ==> p.work[existing[entries[i].staff]] == RecordFor(b, entries[i]))
    decreases |entries|
  {
    var n := |entries| - 1;
    var q, p := Process(b, existing, records, entries[..n]), Process(b, existing, records, entries);
    if i == n {
      if entries[n].staff in existing {
        assert p.work[existing[entries[n].staff]] == RecordFor(b, entries[n]);
        assert RecordFor(b, entries[n]) in p.work;
      } else {
        assert p.added[|p.added| - 1] == RecordFor(b, entries[n]);
      }
    } else {
      SuccessSaved(b, existing, records, entries[..n], i);
      var r := RecordFor(b, entries[i]);
      if entries[i].staff in existing {
        assert p.work[existing[entries[i].staff]] == r;
        assert r in p.work;
      } else {
        AddedWhenUnknown(b, existing, records, entries[..n], r);
      }
    }
  }

  /** A record that is in no loaded position of the day is among the new ones, which only grow. */
  lemma {:induction false} AddedWhenUnknown(b: Batch, existing: map<Id, nat>, records: seq<Record>,
                                            entries: seq<Entry>, r: Record)
    requires ValidDay(b.date) && IsIndex(records, b.date, existing)
    requires r.date == b.date && r.staff !in existing
    ensures var p := Process(b, existing, records, entries);
            r in p.work + p.added <==> r in p.added
  {
    var p := Process(b, existing, records, entries);
    forall k | 0 <= k < |p.work|
      ensures p.work[k] != r
    {
      TiersNeverFall(b, existing, records, entries, k);
    }
  }

  /** A staff member with no successful entry keeps exactly the records there were. */
  lemma {:induction false} RefusalsChangeNothing(b: Batch, existing: map<Id, nat>, records: seq<Record>,
                                                 entries: seq<Entry>, staff: Id)
    requires ValidDay(b.date) && IsIndex(records, b.date, existing)
    requires var p := Process(b, existing, records, entries);
             forall i :: 0 <= i < |entries| && entries[i].staff == staff ==> !Success(p.results[i])
    ensures var p := Process(b, existing, records, entries);
            && (forall k :: 0 <= k < |records| && records[k].staff == staff ==> p.work[k] == records[k])
            && (forall k :: 0 <= k < |p.added| ==> p.added[k].staff != staff)
    decreases |entries|
  {
    if |entries| > 0 {
      hide Process, Verdict, RecordFor, TimesFor, ValidDay, Earlier;
      ProcessStep(b, existing, records, entries);
      var n := |entries| - 1;
      var q, p := Process(b, existing, records, entries[..n]), Process(b, existing, records, entries);
      forall i | 0 <= i < n && entries[..n][i].staff == staff
        ensures !Success(q.results[i])
      {
        assert p.results[i] == q.results[i];
      }
      RefusalsChangeNothing(b, existing, records, entries[..n], staff);
      assert entries[n].staff == staff ==> !Success(p.results[n]);
      forall k | 0 <= k < |records| && records[k].staff == staff
        ensures p.work[k] == records[k]
      {
        assert p.work[k] == q.work[k];
      }
    }
  }

  /** Two entries that each created a record for the same staff member. */
  predicate CreatedTwice(entries: seq<Entry>, results: seq<Result>, i: int, j: int)
    requires |results| == |entries|
  {
    && 0 <= i < j < |entries| && entries[i].staff == entries[j].staff
    && results[i].message == Created && results[j].message == Created
  }

  predicate CreatedFor(entries: seq<Entry>, results: seq<Result>, i: int, staff: Id)
    requires |results| == |entries|
  {
    0 <= i < |entries| && results[i].message == Created && entries[i].staff == staff
  }

  ghost predicate Creates(entries: seq<Entry>, results: seq<Result>, staff: Id)
    requires |results| == |entries|
  {
    exists i :: CreatedFor(entries, results, i, staff)
  }

  predicate RecordOf(records: seq<Record>, k: int, staff: Id) {
    0 <= k < |records| && records[k].staff == staff
  }

  ghost predicate Holds(records: seq<Record>, staff: Id) {
    exists k :: RecordOf(records, k, staff)
  }

  ghost predicate DistinctStaff(records: seq<Record>) {
    forall i, j :: 0 <= i < j < |records| ==> records[i].staff != records[j].staff
  }

  ghost predicate NoneCreatedTwice(entries: seq<Entry>, results: seq<Result>)
    requires |results| == |entries|
  {
    forall i, j :: !CreatedTwice(entries, results, i, j)
  }

  lemma HoldsAppend(records: seq<Record>, r: Record, staff: Id)
    ensures Holds(records + [r], staff) <==> Holds(records, staff) || r.staff == staff
  {
    if Holds(records, staff) {
      var k :| RecordOf(records, k, staff);
      assert RecordOf(records + [r], k, staff);
    }
    if r.staff == staff {
      assert RecordOf(records + [r], |records|, staff);
    }
    if k :| RecordOf(records + [r], k, staff) && k < |records| {
      assert RecordOf(records, k, staff);
    }
  }

  lemma CreatesAppend(entries: seq<Entry>, results: seq<Result>, e: Entry, r: Result, staff: Id)
    requires |results| == |entries|
    ensures Creates(entries + [e], results + [r], staff)
       <==> Creates(entries, results, staff) || (r.message == Created && e.staff == staff)
  {
    if Creates(entries, results, staff) {
      var i :| CreatedFor(entries, results, i, staff);
      assert CreatedFor(entries + [e], results + [r], i, staff);
    }
    if r.message == Created && e.staff == staff {
      assert CreatedFor(entries + [e], results + [r], |entries|, staff);
    }
    if i :| CreatedFor(entries + [e], results + [r], i, staff) && i < |entries| {
      assert CreatedFor(entries, results, i, staff);
    }
  }

  lemma DistinctAppend(records: seq<Record>, r: Record)
    ensures DistinctStaff(records + [r]) <==> DistinctStaff(records) && !Holds(records, r.staff)
  {
    var all := records + [r];
    if DistinctStaff(all) {
      forall i, j | 0 <= i < j < |records|
        ensures records[i].staff != records[j].staff
      {
        assert all[i] == records[i] && all[j] == records[j];
      }
      forall k | 0 <= k < |records|
        ensures !RecordOf(records, k, r.staff)
      {
        assert all[k] == records[k] && all[|records|] == r;
      }
    }
    if !Holds(records, r.staff) {
      forall k | 0 <= k < |records|
        ensures records[k].staff != r.staff
      {
        assert !RecordOf(records, k, r.staff);
      }
    }
  }

  lemma TwiceAppend(entries: seq<Entry>, results: seq<Result>, e: Entry, r: Result)
    requires |results| == |entries|
    ensures NoneCreatedTwice(entries + [e], results + [r])
       <==> NoneCreatedTwice(entries, results) && !(r.message == Created && Creates(entries, results, e.staff))
  {
    var n := |entries|;
    forall i, j | 0 <= i < j < n
      ensures CreatedTwice(entries, results, i, j) <==> CreatedTwice(entries + [e], results + [r], i, j)
    {
    }
    forall i | 0 <= i < n
      ensures CreatedTwice(entries + [e], results + [r], i, n)
        <==> r.message == Created && CreatedFor(entries, results, i, e.staff)
    {
    }
  }

  /** New records are those of the creating entries, on the batch's day, for staff without a record. */
  lemma {:induction false} AddedFacts(b: Batch, existing: map<Id, nat>, records: seq<Record>, entries: seq<Entry>,
                                      staff: Id)
    requires ValidDay(b.date) && IsIndex(records, b.date, existing)
    ensures var p := Process(b, existing, records, entries);
            && (forall k :: 0 <= k < |p.added| ==> p.added[k].date == b.date && p.added[k].staff !in existing)
            && (Holds(p.added, staff) <==> Creates(entries, p.results, staff))
    decreases |entries|
  {
    if |entries| > 0 {
      hide Process, Verdict, RecordFor, TimesFor, ValidDay, Holds, Creates;
      ProcessStep(b, existing, records, entries);
      var n := |entries| - 1;
      var q, p := Process(b, existing, records, entries[..n]), Process(b, existing, records, entries);
      assert entries == entries[..n] + [entries[n]];
      AddedFacts(b, existing, records, entries[..n], staff);
      CreatesAppend(entries[..n], q.results, entries[n], p.results[n], staff);
      if p.results[n].message == Created {
        HoldsAppend(q.added, RecordFor(b, entries[n]), staff);
      }
    }
  }

  lemma {:induction false} DistinctAdded(b: Batch, existing: map<Id, nat>, records: seq<Record>, entries: seq<Entry>)
    requires ValidDay(b.date) && IsIndex(records, b.date, existing)
    ensures var p := Process(b, existing, records, entries);
            DistinctStaff(p.added) <==> NoneCreatedTwice(entries, p.results)
    decreases |entries|
  {
    if |entries| > 0 {
      hide Process, Verdict, RecordFor, TimesFor, ValidDay, Holds, Creates, DistinctStaff, NoneCreatedTwice, IsIndex;
      ProcessStep(b, existing, records, entries);
      var n := |entries| - 1;
      var q, p := Process(b, existing, records, entries[..n]), Process(b, existing, records, entries);
      assert entries == entries[..n] + [entries[n]];
      DistinctAdded(b, existing, records, entries[..n]);
      AddedFacts(b, existing, records, entries[..n], entries[n].staff);
      TwiceAppend(entries[..n], q.results, entries[n], p.results[n]);
      if p.results[n].message == Created {
        DistinctAppend(q.added, RecordFor(b, entries[n]));
      }
    }
  }

  /** An entry the batch can save, but for the privilege rule: of the batch's day, for known staff not
      on leave, with times that can be set and a logout that is not at or before the login. */
  predicate Acceptable(b: Batch, e: Entry)
    requires ValidDay(b.date)
  {
    && (e.date.None? || e.date.value == b.date)
    && e.staff !in b.onLeave && e.staff in b.staff
    && var t := TimesFor(b, e); t.Worked? && !NotAfter(t.logout, t.login)
  }

  /** An acceptable entry for a staff member who had no record of the day before the batch. */
  predicate AddsRecord(b: Batch, existing: map<Id, nat>, e: Entry)
    requires ValidDay(b.date)
  {
    e.staff !in existing && Acceptable(b, e)
  }

  /** Two entries of the batch add a record for the same staff member. */
  predicate AddedTwice(b: Batch, existing: map<Id, nat>, entries: seq<Entry>, i: int, j: int)
    requires ValidDay(b.date)
  {
    0 <= i < j < |entries| && entries[i].staff == entries[j].staff
    && AddsRecord(b, existing, entries[i]) && AddsRecord(b, existing, entries[j])
  }

  /** Whether an entry creates a record can be told from the entry and the records before the batch,
      whatever the entries around it do. */
  lemma {:induction false} CreatedExactly(b: Batch, existing: map<Id, nat>, records: seq<Record>, entries: seq<Entry>,
                                          i: nat)
    requires ValidDay(b.date) && IsIndex(records, b.date, existing) && i < |entries|
    ensures Process(b, existing, records, entries).results[i].message == Created
      <==> AddsRecord(b, existing, entries[i])
    decreases |entries|
  {
    hide TimesFor, RecordFor, ValidDay;
    if i < |entries| - 1 {
      CreatedExactly(b, existing, records, entries[..|entries| - 1], i);
    }
  }

  /** The batch keeps one record per staff member per day if and only if no staff member without a
      record that day is named by two acceptable entries. */
  lemma OnePerDayExactly(b: Batch, existing: map<Id, nat>, records: seq<Record>, entries: seq<Entry>)
    requires ValidDay(b.date) && IsIndex(records, b.date, existing) && OnePerDay(records)
    ensures var p := Process(b, existing, records, entries);
            OnePerDay(p.work + p.added) <==> forall i, j :: !AddedTwice(b, existing, entries, i, j)
  {
    hide TimesFor, Acceptable, AddsRecord, ValidDay, RecordFor, Verdict, Process;
    var p := Process(b, existing, records, entries);
    OnePerDayByResults(b, existing, records, entries);
    forall i, j | 0 <= i < j < |entries|
      ensures CreatedTwice(entries, p.results, i, j) <==> AddedTwice(b, existing, entries, i, j)
    {
      CreatedExactly(b, existing, records, entries, i);
      CreatedExactly(b, existing, records, entries, j);
    }
    if NoneCreatedTwice(entries, p.results) {
      forall i, j
        ensures !AddedTwice(b, existing, entries, i, j)
      {
        assert !CreatedTwice(entries, p.results, i, j);
      }
    }
  }

  /** A batch that names no staff member twice keeps one record per staff member per day. */
  lemma DistinctStaffOnePerDay(b: Batch, existing: map<Id, nat>, records: seq<Record>, entries: seq<Entry>)
    requires ValidDay(b.date) && IsIndex(records, b.date, existing) && OnePerDay(records)
    requires forall i, j :: 0 <= i < j < |entries| ==> entries[i].staff != entries[j].staff
    ensures var p := Process(b, existing, records, entries); OnePerDay(p.work + p.added)
  {
    OnePerDayExactly(b, existing, records, entries);
  }

  lemma OnePerDayByResults(b: Batch, existing: map<Id, nat>, records: seq<Record>, entries: seq<Entry>)
    requires ValidDay(b.date) && IsIndex(records, b.date, existing) && OnePerDay(records)
    ensures var p := Process(b, existing, records, entries);
            OnePerDay(p.work + p.added) <==> NoneCreatedTwice(entries, p.results)
  {
    var p := Process(b, existing, records, entries);
    DistinctAdded(b, existing, records, entries);
    AddedFacts(b, existing, records, entries, "");
    forall k | 0 <= k < |records|
      ensures p.work[k].staff == records[k].staff && p.work[k].date == records[k].date
    {
      TiersNeverFall(b, existing, records, entries, k);
    }
    SplitOnePerDay(p.work, p.added, b.date);
  }

  lemma SplitOnePerDay(work: seq<Record>, added: seq<Record>, date: Day)
    requires OnePerDay(work)
    requires forall k :: 0 <= k < |added| ==> added[k].date == date
    requires forall i, k :: 0 <= i < |work| && 0 <= k < |added| && work[i].date == date ==>
      work[i].staff != added[k].staff
    ensures OnePerDay(work + added) <==> DistinctStaff(added)
  {
    var all := work + added;
    if OnePerDay(all) {
      forall i, j | 0 <= i < j < |added|
        ensures added[i].staff != added[j].staff
      {
        assert all[|work| + i] == added[i] && all[|work| + j] == added[j];
      }
    }
  }

  /** An entry saved from the staff member's shift lasts (end - start) mod 24 hours, strictly between
      0 and 24 hours, whatever the day; a shift that ends in the minute it starts is refused. */
  lemma ShiftEntryJudged(b: Batch, e: Entry, existing: Option<int>)
    requires ValidDay(b.date) && (e.date.None? || e.date.value == b.date)
    requires e.useShiftTimes || (e.login.None? && e.logout.None?)
    requires e.staff in b.shifts && !b.shifts[e.staff].offDay && e.staff !in b.templates
    requires ValidWall(b.shifts[e.staff].start) && ValidWall(b.shifts[e.staff].end)
    requires e.staff in b.staff
    ensures var shift, message := b.shifts[e.staff], Verdict(b, e, existing);
            var minutes := (shift.end.hour * 60 + shift.end.minute) - (shift.start.hour * 60 + shift.start.minute);
            && (message == Updated || message == Created <==>
                  (existing.Some? ==> CanOverride(existing.value, b.tier)) && e.staff !in b.onLeave && minutes != 0)
            && (minutes != 0 ==>
                  var r := RecordFor(b, e);
                  r.login.At? && r.logout.Some? && r.logout.value.At?
                  && r.login.ms == OnTheDay(b.date, shift.start.hour * 3600 + shift.start.minute * 60)
                  && r.logout.value.ms - r.login.ms == (minutes % 1440) * 60_000
                  && 0 < r.logout.value.ms - r.login.ms < DAY_MS)
  {
    hide DayNumber, AddDays, ValidDay;
    ShiftLength(b.date, b.shifts[e.staff].start, b.shifts[e.staff].end);
  }

  /** So many seconds into a day at UTC+05:30, as an instant in milliseconds. */
  function OnTheDay(d: Day, seconds: int): int {
    (DayNumber(d) * 86_400 + seconds - (5 * 60 + 30) * 60) * 1000
  }

  /** An entry saved from the staff member's roster template begins at the template's start on the batch's
      day and lasts from its start to its end, with 24 hours more exactly if it crosses midnight; an off day
      counts only when it may be worked. It is saved exactly if that time is positive and privilege, leave and
      staff allow it. */
  lemma TemplateEntryJudged(b: Batch, e: Entry, existing: Option<int>)
    requires ValidDay(b.date) && (e.date.None? || e.date.value == b.date)
    requires e.useShiftTimes || (e.login.None? && e.logout.None?)
    requires e.staff in b.shifts && e.staff in b.templates
    ensures var shift, t, message := b.shifts[e.staff], b.templates[e.staff], Verdict(b, e, existing);
            var start := t.start.hour * 3600 + t.start.minute * 60 + t.start.second;
            var end := t.end.hour * 3600 + t.end.minute * 60 + t.end.second;
            var lasts := end - start + (if t.crossesMidnight then 86_400 else 0);
            && (message == Updated || message == Created <==>
                  && (existing.Some? ==> CanOverride(existing.value, b.tier))
                  && e.staff in b.staff && e.staff !in b.onLeave
                  && (shift.offDay ==> e.workedOffDay || b.allowOffDay) && lasts > 0)
            && (message == Updated || message == Created ==>
                  var r := RecordFor(b, e);
                  && r.login == At(OnTheDay(b.date, start))
                  && r.logout == Some(At(OnTheDay(b.date, start) + lasts * 1000)))
  {
    hide DayNumber, AddDays, ValidDay;
    WithinYear(b.date);
    AddDaysRoundTrip(b.date, 1);
  }

  /** An entry with times typed in is saved with just these, a missing one as an invalid date; an off day
      counts only when it may be worked. It is saved exactly if privilege, leave and staff allow it and it is
      not the case that both times are valid and the logout is at or before the login. */
  lemma TypedEntryJudged(b: Batch, e: Entry, existing: Option<int>)
    requires ValidDay(b.date) && (e.date.None? || e.date.value == b.date)
    requires !e.useShiftTimes && (e.login.Some? || e.logout.Some?)
    ensures var login := if e.login.Some? then e.login.value else Invalid;
            var logout := if e.logout.Some? then e.logout.value else Invalid;
            var message := Verdict(b, e, existing);
            && (message == Updated || message == Created <==>
                  && (existing.Some? ==> CanOverride(existing.value, b.tier))
                  && e.staff in b.staff && e.staff !in b.onLeave
                  && (e.staff in b.shifts && b.shifts[e.staff].offDay ==> e.workedOffDay || b.allowOffDay)
                  && !(login.At? && logout.At? && logout.ms <= login.ms))
            && (message == Updated || message == Created ==>
                  RecordFor(b, e).login == login && RecordFor(b, e).logout == Some(logout))
  {
  }

  /** No times can be set without a shift of the day, nor on an off day without a template, unless they are
      typed in. */
  lemma NothingToSetTimesFrom(b: Batch, e: Entry, existing: Option<int>)
    requires ValidDay(b.date) && (e.useShiftTimes || (e.login.None? && e.logout.None?))
    requires e.staff in b.shifts ==> b.shifts[e.staff].offDay && e.staff !in b.templates
    ensures !Success(Result(e.staff, Verdict(b, e, existing)))
    ensures (e.date.None? || e.date.value == b.date) && e.staff !in b.onLeave
            && (existing.Some? ==> CanOverride(existing.value, b.tier)) ==>
      Verdict(b, e, existing) == if e.staff !in b.shifts then NoShift
                                 else if e.workedOffDay || b.allowOffDay then NoTemplate else OffDay
  {
  }

  /** What else a saved entry's record says: whose it is and of which day, the marker's tier, the overtime
      given or none, and that it was off-day work exactly if the shift of the day is an off day. */
  lemma RecordOfEntry(b: Batch, e: Entry, existing: Option<int>)
    requires ValidDay(b.date) && Success(Result(e.staff, Verdict(b, e, existing)))
    ensures var r := RecordFor(b, e);
            && r.staff == e.staff && r.date == b.date && r.tier == b.tier
            && (e.overtime == Some(r.overtime) || (e.overtime.None? && r.overtime == 0))
            && (r.offDayWork <==> e.staff in b.shifts && b.shifts[e.staff].offDay)
            && (Verdict(b, e, existing) == Updated <==> existing.Some?)
  {
  }

  function TypedEntry(): Entry {
    Entry("s", None, Some(At(0)), Some(At(60_000)), false, None, false)
  }

  /** The same staff member twice in one batch, with no record that day: two records are created. */
  lemma SameStaffTwice(day: Day)
    requires ValidDay(day)
    ensures var b := Batch(day, map[], map[], {}, {"s"}, 1, false);
            var p := Process(b, map[], [], [TypedEntry(), TypedEntry()]);
            && p.results == [Result("s", Created), Result("s", Created)]
            && |p.added| == 2 && !OnePerDay(p.work + p.added)
  {
    var b := Batch(day, map[], map[], {}, {"s"}, 1, false);
    var one, two := [TypedEntry()], [TypedEntry(), TypedEntry()];
    assert two[..1] == one && one[..0] == [];
    ProcessStep(b, map[], [], one);
    ProcessStep(b, map[], [], two);
    var p := Process(b, map[], [], two);
    var r := RecordFor(b, TypedEntry());
    assert Verdict(b, TypedEntry(), None) == Created;
    assert p.added == [r, r];
    assert (p.work + p.added)[|p.work|] == r && (p.work + p.added)[|p.work| + 1] == r;
  }
}
