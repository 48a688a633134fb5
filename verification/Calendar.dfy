/** Calendar days and shift wall-clock times, in the club's fixed +05:30 offset. */
module Calendar {

  datatype Day = Day(year: int, month: int, day: int)

  predicate IsLeap(y: int) {
    (y % 4 == 0 && y % 100 != 0) || y % 400 == 0
  }

  function DaysIn(y: int, m: int): int {
    if m == 2 then (if IsLeap(y) then 29 else 28)
    else if m in {4, 6, 9, 11} then 30
    else 31
  }

  predicate ValidDay(d: Day) {
    d.year >= 1 && 1 <= d.month <= 12 && 1 <= d.day <= DaysIn(d.year, d.month)
  }

  /** Days from 0001-01-01 to the first day of year y. */
  function BeforeYear(y: int): int {
    365 * (y - 1) + (y - 1) / 4 - (y - 1) / 100 + (y - 1) / 400
  }

  function BeforeMonth(y: int, m: int): int
    decreases m
  {
    if m <= 1 then 0 else BeforeMonth(y, m - 1) + DaysIn(y, m - 1)
  }

  function DayNumber(d: Day): int {
    BeforeYear(d.year) + BeforeMonth(d.year, d.month) + d.day - 1
  }

  lemma YearLength(y: int)
    ensures BeforeYear(y + 1) - BeforeYear(y) == if IsLeap(y) then 366 else 365
  {
    assert y / 4 - (y - 1) / 4 == if y % 4 == 0 then 1 else 0;
    assert y / 100 - (y - 1) / 100 == if y % 100 == 0 then 1 else 0;
    assert y / 400 - (y - 1) / 400 == if y % 400 == 0 then 1 else 0;
  }

  lemma MonthTable(y: int)
    ensures BeforeMonth(y, 13) == if IsLeap(y) then 366 else 365
  {
    assert BeforeMonth(y, 4) == 31 + DaysIn(y, 2) + 31;
    assert BeforeMonth(y, 7) == BeforeMonth(y, 4) + 91;
    assert BeforeMonth(y, 10) == BeforeMonth(y, 7) + 92;
  }

  /** The year a day number falls in. */
  function YearFrom(y: int, n: int): (r: int)
    requires BeforeYear(y) <= n
    ensures y <= r && BeforeYear(r) <= n < BeforeYear(r + 1)
    decreases n - BeforeYear(y)
  {
    YearLength(y);
    if n < BeforeYear(y + 1) then y else YearFrom(y + 1, n)
  }

  function MonthFrom(y: int, m: int, k: int): (r: int)
    requires 1 <= m <= 12 && BeforeMonth(y, m) <= k < BeforeMonth(y, 13)
    ensures m <= r <= 12 && BeforeMonth(y, r) <= k < BeforeMonth(y, r + 1)
    decreases 12 - m
  {
    if m == 12 || k < BeforeMonth(y, m + 1) then m else MonthFrom(y, m + 1, k)
  }

  /** The calendar day with a given number, as Date's UTC getters report it. */
  function FromNumber(n: int): (d: Day)
    requires n >= 0
    ensures ValidDay(d) && DayNumber(d) == n
  {
    var y := YearFrom(1, n);
    YearLength(y);
    MonthTable(y);
    var k := n - BeforeYear(y);
    var m := MonthFrom(y, 1, k);
    Day(y, m, k - BeforeMonth(y, m) + 1)
  }

  lemma {:induction false} YearsGrow(a: int, b: int)
    requires a < b
    ensures BeforeYear(a) + 365 <= BeforeYear(b)
    decreases b - a
  {
    YearLength(b - 1);
    if a < b - 1 {
      YearsGrow(a, b - 1);
    }
  }

  lemma {:induction false} MonthsGrow(y: int, a: int, b: int)
    requires 1 <= a < b
    ensures BeforeMonth(y, a) + DaysIn(y, a) <= BeforeMonth(y, b)
    decreases b
  {
    if a < b - 1 {
      MonthsGrow(y, a, b - 1);
    }
  }

  lemma WithinYear(d: Day)
    requires ValidDay(d)
    ensures 0 <= BeforeYear(d.year) <= DayNumber(d) < BeforeYear(d.year + 1)
  {
    YearLength(d.year);
    MonthTable(d.year);
    MonthsGrow(d.year, d.month, 13);
    if d.month > 1 { MonthsGrow(d.year, 1, d.month); }
    if d.year > 1 { YearsGrow(1, d.year); }
  }

  predicate Earlier(a: Day, b: Day) {
    a.year < b.year || (a.year == b.year && (a.month < b.month || (a.month == b.month && a.day < b.day)))
  }

  /** Day numbers follow the calendar order. */
  lemma NumbersFollowCalendar(a: Day, b: Day)
    requires ValidDay(a) && ValidDay(b) && Earlier(a, b)
    ensures DayNumber(a) < DayNumber(b)
  {
    if a.year < b.year {
      WithinYear(a);
      WithinYear(b);
      if a.year + 1 < b.year { YearsGrow(a.year + 1, b.year); }
    } else if a.month < b.month {
      MonthsGrow(a.year, a.month, b.month);
    }
  }

  lemma DayNumberInjective(a: Day, b: Day)
    requires ValidDay(a) && ValidDay(b) && DayNumber(a) == DayNumber(b)
    ensures a == b
  {
    if Earlier(a, b) {
      NumbersFollowCalendar(a, b);
    } else if Earlier(b, a) {
      NumbersFollowCalendar(b, a);
    }
  }

  /** addDaysToYmd: Date.UTC with an overflowing day of the month, read back. */
  function AddDays(d: Day, delta: int): (r: Day)
    requires ValidDay(d) && DayNumber(d) + delta >= 0
    ensures ValidDay(r) && DayNumber(r) == DayNumber(d) + delta
  {
    FromNumber(BeforeYear(d.year) + BeforeMonth(d.year, d.month) + (d.day + delta) - 1)
  }

  /** Adding days and taking them away again returns the same day, over month and year ends. */
  lemma AddDaysRoundTrip(d: Day, delta: int)
    requires ValidDay(d) && DayNumber(d) + delta >= 0
    ensures DayNumber(AddDays(d, delta)) == DayNumber(d) + delta
    ensures DayNumber(d) >= 0 && AddDays(AddDays(d, delta), -delta) == d
  {
    WithinYear(d);
    DayNumberInjective(AddDays(AddDays(d, delta), -delta), d);
  }

  /** The next day, spelled out for month ends, leap days and year ends. */
  lemma NextDay(d: Day)
    requires ValidDay(d)
    ensures DayNumber(d) + 1 >= 0
    ensures AddDays(d, 1) == if d.day < DaysIn(d.year, d.month) then Day(d.year, d.month, d.day + 1)
                             else if d.month < 12 then Day(d.year, d.month + 1, 1)
                             else Day(d.year + 1, 1, 1)
  {
    hide DayNumber, AddDays;
    WithinYear(d);
    var next := NextNumber(d);
    AddDaysRoundTrip(d, 1);
    DayNumberInjective(AddDays(d, 1), next);
  }

  lemma NextNumber(d: Day) returns (next: Day)
    requires ValidDay(d)
    ensures ValidDay(next) && DayNumber(next) == DayNumber(d) + 1
    ensures next == if d.day < DaysIn(d.year, d.month) then Day(d.year, d.month, d.day + 1)
                    else if d.month < 12 then Day(d.year, d.month + 1, 1)
                    else Day(d.year + 1, 1, 1)
  {
    hide IsLeap, BeforeYear;
    if d.day < DaysIn(d.year, d.month) {
      next := Day(d.year, d.month, d.day + 1);
    } else if d.month < 12 {
      next := Day(d.year, d.month + 1, 1);
    } else {
      next := Day(d.year + 1, 1, 1);
      YearLength(d.year);
      MonthTable(d.year);
    }
  }

  // ---------------------------------------------------------------- wall-clock instants

  datatype Wall = Wall(hour: int, minute: int, second: int)

  predicate ValidWall(w: Wall) {
    0 <= w.hour < 24 && 0 <= w.minute < 60 && 0 <= w.second < 60
  }

  const DAY_MS := 86_400_000

  /** The instant of a wall-clock time on a day, in milliseconds, at offset +05:30. */
  function Instant(d: Day, w: Wall): int {
    DayNumber(d) * DAY_MS + (w.hour * 3600 + w.minute * 60 + w.second) * 1000 - 19_800_000
  }

  /** loginLogoutFromShiftWallClock: the shift's hours and minutes on the day, the end pushed to the
      next day when it is earlier than the start. */
  function ShiftTimes(d: Day, start: Wall, end: Wall): (times: (int, int))
    requires ValidDay(d) && DayNumber(d) + 1 >= 0
  {
    var login := Instant(d, Wall(start.hour, start.minute, 0));
    var crosses := end.hour < start.hour || (end.hour == start.hour && end.minute < start.minute);
    var logout := Instant(if crosses then AddDays(d, 1) else d, Wall(end.hour, end.minute, 0));
    (login, logout)
  }

  /** For every day, month and year ends included, the shift lasts (end - start) mod 24 hours: strictly
      between 0 and 24 hours unless start and end are the same minute, and then exactly 0. */
  lemma ShiftLength(d: Day, start: Wall, end: Wall)
    requires ValidDay(d) && ValidWall(start) && ValidWall(end)
    ensures DayNumber(d) + 1 >= 0
    ensures var (login, logout) := ShiftTimes(d, start, end);
            var minutes := (end.hour * 60 + end.minute) - (start.hour * 60 + start.minute);
            && logout - login == (minutes % 1440) * 60_000
            && (minutes != 0 ==> 0 < logout - login < DAY_MS)
            && (minutes == 0 <==> logout <= login)
  {
    hide DayNumber, AddDays;
    WithinYear(d);
    AddDaysRoundTrip(d, 1);
    var minutes := (end.hour * 60 + end.minute) - (start.hour * 60 + start.minute);
    assert -1440 < minutes < 1440;
    assert minutes % 1440 == if minutes < 0 then minutes + 1440 else minutes;
  }
}
