/** The report periods of the browser, over the proleptic Gregorian calendar as ECMAScript dates use
    it, with local time taken as UTC. Months count from 0. */
module Calendar {
  datatype Date = Date(year: int, month: int, day: int)

  predicate Leap(y: int) {
    y % 4 == 0 && (y % 100 != 0 || y % 400 == 0)
  }

  function DaysInMonth(y: int, m: int): (n: int)
    ensures 28 <= n <= 31
  {
    if m == 1 then (if Leap(y) then 29 else 28) else if m == 3 || m == 5 || m == 8 || m == 10 then 30 else 31
  }

  predicate Valid(d: Date) {
    0 <= d.month < 12 && 1 <= d.day <= DaysInMonth(d.year, d.month)
  }

  function DaysBeforeMonth(y: int, m: int): int
    requires 0 <= m <= 12
  {
    if m == 0 then 0 else DaysBeforeMonth(y, m - 1) + DaysInMonth(y, m - 1)
  }

  /** The day number of January 1st, as ECMAScript computes it. */
  function DayFromYear(y: int): int {
    365 * (y - 1970) + (y - 1969) / 4 - (y - 1901) / 100 + (y - 1601) / 400
  }

  function DayOf(d: Date): int
    requires Valid(d)
  {
    DayFromYear(d.year) + DaysBeforeMonth(d.year, d.month) + d.day - 1
  }

  function Next(d: Date): (e: Date)
    requires Valid(d)
    ensures Valid(e)
  {
    if d.day < DaysInMonth(d.year, d.month) then d.(day := d.day + 1)
    else if d.month < 11 then Date(d.year, d.month + 1, 1)
    else Date(d.year + 1, 0, 1)
  }

  function Prev(d: Date): (e: Date)
    requires Valid(d)
    ensures Valid(e) && Next(e) == d
  {
    if d.day > 1 then d.(day := d.day - 1)
    else if d.month > 0 then Date(d.year, d.month - 1, DaysInMonth(d.year, d.month - 1))
    else Date(d.year - 1, 11, 31)
  }

  const EPOCH := Date(1970, 0, 1)

  /** The date of a day number. */
  function DateOf(n: int): (d: Date)
    ensures Valid(d)
    decreases if n < 0 then -n else n
  {
    if n == 0 then EPOCH else if n > 0 then Next(DateOf(n - 1)) else Prev(DateOf(n + 1))
  }

  // ----- Day numbers and dates correspond one to one

  lemma YearLength(y: int)
    ensures DaysBeforeMonth(y, 12) == if Leap(y) then 366 else 365
  {
    var february := DaysInMonth(y, 1);
    assert DaysBeforeMonth(y, 1) == 31;
    assert DaysBeforeMonth(y, 2) == 31 + february;
    assert DaysBeforeMonth(y, 3) == 62 + february;
    assert DaysBeforeMonth(y, 4) == 92 + february;
    assert DaysBeforeMonth(y, 5) == 123 + february;
    assert DaysBeforeMonth(y, 6) == 153 + february;
    assert DaysBeforeMonth(y, 7) == 184 + february;
    assert DaysBeforeMonth(y, 8) == 215 + february;
    assert DaysBeforeMonth(y, 9) == 245 + february;
    assert DaysBeforeMonth(y, 10) == 276 + february;
    assert DaysBeforeMonth(y, 11) == 306 + february;
  }

  lemma FourYears(y: int)
    ensures (y + 1 - 1969) / 4 == (y - 1969) / 4 + if y % 4 == 0 then 1 else 0
  {
  }

  lemma Centuries(y: int)
    ensures (y + 1 - 1901) / 100 == (y - 1901) / 100 + if y % 100 == 0 then 1 else 0
  {
  }

  lemma FourCenturies(y: int)
    ensures (y + 1 - 1601) / 400 == (y - 1601) / 400 + if y % 400 == 0 then 1 else 0
  {
  }

  lemma CenturiesByFour(y: int)
    requires y % 100 == 0
    ensures y % 4 == 0
  {
    var q := y / 100;
    assert y == 4 * (25 * q);
  }

  lemma FourCenturiesByOne(y: int)
    requires y % 400 == 0
    ensures y % 100 == 0
  {
    var q := y / 400;
    assert y == 100 * (4 * q);
  }

  lemma LeapDays(y: int)
    ensures (if Leap(y) then 1 else 0)
         == (if y % 4 == 0 then 1 else 0) - (if y % 100 == 0 then 1 else 0) + if y % 400 == 0 then 1 else 0
  {
    if y % 100 == 0 {
      CenturiesByFour(y);
    }
    if y % 400 == 0 {
      FourCenturiesByOne(y);
    }
  }

  lemma YearStep(y: int)
    ensures DayFromYear(y + 1) == DayFromYear(y) + DaysBeforeMonth(y, 12)
  {
    YearLength(y);
    FourYears(y);
    Centuries(y);
    FourCenturies(y);
    LeapDays(y);
  }

  lemma NextDay(d: Date)
    requires Valid(d)
    ensures DayOf(Next(d)) == DayOf(d) + 1
  {
    if d.day == DaysInMonth(d.year, d.month) && d.month == 11 {
      YearStep(d.year);
    }
  }

  lemma {:induction false} DayOfDate(n: int)
    ensures DayOf(DateOf(n)) == n
    decreases if n < 0 then -n else n
  {
    if n > 0 {
      DayOfDate(n - 1);
      NextDay(DateOf(n - 1));
    } else if n < 0 {
      DayOfDate(n + 1);
      NextDay(DateOf(n));
    }
  }

  predicate Earlier(a: Date, b: Date) {
    a.year < b.year || (a.year == b.year && (a.month < b.month || (a.month == b.month && a.day < b.day)))
  }

  lemma {:induction false} LaterMonth(y: int, m: int, k: int)
    requires 0 <= m < k <= 12
    ensures DaysBeforeMonth(y, m) + DaysInMonth(y, m) <= DaysBeforeMonth(y, k)
    decreases k
  {
    if m + 1 < k {
      LaterMonth(y, m, k - 1);
    }
  }

  lemma {:induction false} LaterYear(y: int, z: int)
    requires y < z
    ensures DayFromYear(y) + DaysBeforeMonth(y, 12) <= DayFromYear(z)
    decreases z - y
  {
    YearStep(y);
    if y + 1 < z {
      LaterYear(y + 1, z);
      YearLength(y + 1);
    }
  }

  lemma Ordered(a: Date, b: Date)
    requires Valid(a) && Valid(b) && Earlier(a, b)
    ensures DayOf(a) < DayOf(b)
  {
    if a.year == b.year {
      if a.month < b.month {
        LaterMonth(a.year, a.month, b.month);
      }
    } else {
      LaterMonth(a.year, a.month, 12);
      LaterYear(a.year, b.year);
      if b.month > 0 {
        LaterMonth(b.year, 0, b.month);
      }
    }
  }

  /** Every valid date is the date of its day number: no two dates share one, none is skipped. */
  lemma DateOfDay(d: Date)
    requires Valid(d)
    ensures DateOf(DayOf(d)) == d
  {
    var e := DateOf(DayOf(d));
    DayOfDate(DayOf(d));
    if Earlier(d, e) {
      Ordered(d, e);
    } else if Earlier(e, d) {
      Ordered(e, d);
    }
  }

  // ----- Resolving a period

  datatype Period = Last7 | Last30 | CurrentQuarter | LastQuarter | CurrentYear | LastYear | Other

  datatype Window = Window(since: Date, until: Date)

  /** `setDate`: the day of the month may be anything; the date is normalised. */
  function SetDate(d: Date, day: int): (e: Date)
    requires 0 <= d.month < 12
    ensures Valid(e)
  {
    DateOf(DayOf(Date(d.year, d.month, 1)) + day - 1)
  }

  predicate TwoDigits(y: int) {
    0 <= y <= 99
  }

  /** The `Date` constructor takes a year of two digits to lie in the twentieth century. */
  function FullYear(y: int): int {
    if TwoDigits(y) then 1900 + y else y
  }

  function StartOfQuarter(d: Date): (s: Date)
    requires Valid(d)
    ensures Valid(s)
  {
    Date(FullYear(d.year), d.month / 3 * 3, 1)
  }

  /** The window from `n` days before today up to today. */
  function DaysUpTo(today: Date, n: nat): (w: Window)
    requires Valid(today)
    ensures Valid(w.since) && Valid(w.until)
  {
    Window(SetDate(today, today.day - n), today)
  }

  function ResolvePeriod(period: Period, today: Date): (w: Window)
    requires Valid(today)
    ensures Valid(w.since) && Valid(w.until)
  {
    match period
    case Last7 => DaysUpTo(today, 6)
    case Last30 => DaysUpTo(today, 29)
    case CurrentQuarter => Window(StartOfQuarter(today), today)
    case LastQuarter =>
      var start := StartOfQuarter(today);
      var end := SetDate(start, start.day - 1);
      Window(StartOfQuarter(end), end)
    case CurrentYear => Window(Date(today.year, 0, 1), today)
    case LastYear => Window(Date(today.year - 1, 0, 1), Date(today.year - 1, 11, 31))
    case Other => Window(today, today)
  }

  lemma SetDateDay(d: Date, day: int)
    requires Valid(d)
    ensures DayOf(SetDate(d, day)) == DayOf(d) + day - d.day
  {
    DayOfDate(DayOf(Date(d.year, d.month, 1)) + day - 1);
  }

  function Days(w: Window): int
    requires Valid(w.since) && Valid(w.until)
  {
    DayOf(w.until) - DayOf(w.since) + 1
  }

  /** The window ends today and has this many days. */
  ghost predicate DaysUpToToday(w: Window, today: Date, n: int) {
    Valid(w.since) && Valid(w.until) && Days(w) == n && w.until == today
  }

  lemma DaysBack(since: Date, today: Date, n: nat)
    requires Valid(today) && since == SetDate(today, today.day - n)
    ensures DaysUpToToday(Window(since, today), today, n + 1)
  {
    SetDateDay(today, today.day - n);
  }

  lemma WindowBack(w: Window, today: Date, n: nat)
    requires Valid(today) && w == DaysUpTo(today, n)
    ensures DaysUpToToday(w, today, n + 1)
  {
    DaysBack(w.since, today, n);
  }

  /** The windows of 7 and 30 days end today and have exactly that many days, on every date, across
      the ends of months, leap years and years. */
  lemma LastDays(today: Date)
    requires Valid(today)
    ensures DaysUpToToday(ResolvePeriod(Last7, today), today, 7)
    ensures DaysUpToToday(ResolvePeriod(Last30, today), today, 30)
  {
    WindowBack(ResolvePeriod(Last7, today), today, 6);
    WindowBack(ResolvePeriod(Last30, today), today, 29);
  }

  /** The last day before a quarter is the last day of the quarter before. */
  lemma DayBefore(start: Date)
    requires Valid(start) && start.day == 1
    ensures SetDate(start, 0) == Prev(start)
  {
    NextDay(Prev(start));
    DateOfDay(Prev(start));
  }

  predicate QuarterStart(d: Date) {
    d.day == 1 && d.month % 3 == 0
  }

  /** A whole quarter: from its first day to the last day of its third month. */
  predicate WholeQuarter(w: Window) {
    && QuarterStart(w.since) && w.until.year == w.since.year && w.until.month == w.since.month + 2
    && w.until.day == DaysInMonth(w.until.year, w.until.month)
  }

  /** The quarter a date lies in begins at the latest first day of a quarter that is not after it. */
  predicate BeginsQuarterOf(s: Date, d: Date) {
    QuarterStart(s) && s.year == d.year && s.month <= d.month < s.month + 3
  }

  /** The current quarter is right on a date if and only if its year is not one of two digits. */
  lemma CurrentQuarterExactly(today: Date)
    requires Valid(today)
    ensures BeginsQuarterOf(ResolvePeriod(CurrentQuarter, today).since, today) <==> !TwoDigits(today.year)
    ensures ResolvePeriod(CurrentQuarter, today).until == today
  {
  }

  lemma QuarterBefore(start: Date)
    requires Valid(start) && QuarterStart(start)
    ensures var end := Prev(start);
            StartOfQuarter(end) == Date(FullYear(end.year), end.month - 2, 1) && end.day == DaysInMonth(end.year, end.month)
  {
    assert start.month == 0 || start.month == 3 || start.month == 6 || start.month == 9;
  }

  lemma StartsQuarter(d: Date)
    requires Valid(d)
    ensures QuarterStart(StartOfQuarter(d))
  {
  }

  lemma LastQuarterWindow(today: Date)
    requires Valid(today)
    ensures var w, end := ResolvePeriod(LastQuarter, today), Prev(StartOfQuarter(today));
            && w == Window(Date(FullYear(end.year), end.month - 2, 1), end) && (end.month - 2) % 3 == 0
            && end.day == DaysInMonth(end.year, end.month)
  {
    var start := StartOfQuarter(today);
    StartsQuarter(today);
    QuarterBefore(start);
    DayBefore(start);
  }

  /** The last quarter is a whole quarter that ends on the day before the current quarter starts, if
      and only if neither the date nor the day before its quarter is in a year of two digits. */
  lemma LastQuarterExactly(today: Date)
    requires Valid(today)
    ensures var w, start := ResolvePeriod(LastQuarter, today), Date(today.year, today.month / 3 * 3, 1);
            WholeQuarter(w) && Next(w.until) == start <==> !TwoDigits(today.year) && !TwoDigits(Prev(start).year)
  {
    LastQuarterWindow(today);
  }

  /** The two quarters meet without a gap. */
  lemma QuartersMeet(today: Date)
    requires Valid(today)
    ensures Next(ResolvePeriod(LastQuarter, today).until) == ResolvePeriod(CurrentQuarter, today).since
  {
    DayBefore(StartOfQuarter(today));
  }

  lemma YearWindows(today: Date)
    requires Valid(today)
    ensures Next(ResolvePeriod(LastYear, today).until) == ResolvePeriod(CurrentYear, today).since
    ensures Days(ResolvePeriod(LastYear, today)) == if Leap(today.year - 1) then 366 else 365
    ensures ResolvePeriod(CurrentYear, today).since == Date(today.year, 0, 1)
  {
    YearLength(today.year - 1);
    assert DaysBeforeMonth(today.year - 1, 12) == DaysBeforeMonth(today.year - 1, 11) + 31;
  }

  /** The windows that are not of a past quarter or year end today; for a period the page does not know
      the window is today alone. */
  lemma EndToday(period: Period, today: Date)
    requires Valid(today)
    ensures !period.LastQuarter? && !period.LastYear? ==> ResolvePeriod(period, today).until == today
    ensures period.Other? ==> Days(ResolvePeriod(period, today)) == 1
  {
  }

  /** No year of two digits is taken for one of the twentieth century on one side of the window only. */
  predicate SameCentury(period: Period, today: Date)
    requires Valid(today)
  {
    match period
    case CurrentQuarter => !TwoDigits(today.year)
    case LastQuarter => TwoDigits(today.year) || !TwoDigits(Prev(Date(today.year, today.month / 3 * 3, 1)).year)
    case _ => true
  }

  /** On every date, and in every period, the window is neither empty nor turned around if and only if
      no year is misread on one side of it. */
  lemma SinceBeforeUntilExactly(period: Period, today: Date)
    requires Valid(today)
    ensures DayOf(ResolvePeriod(period, today).since) <= DayOf(ResolvePeriod(period, today).until)
       <==> SameCentury(period, today)
  {
    var w := ResolvePeriod(period, today);
    LastDays(today);
    LastQuarterWindow(today);
    if Earlier(w.since, w.until) {
      Ordered(w.since, w.until);
    } else if Earlier(w.until, w.since) {
      Ordered(w.until, w.since);
    }
  }

  /** In the year 100 the last quarter would begin in 1999. */
  lemma YearHundred()
    ensures ResolvePeriod(LastQuarter, Date(100, 0, 1)) == Window(Date(1999, 9, 1), Date(99, 11, 31))
  {
    LastQuarterWindow(Date(100, 0, 1));
  }

  /** In the year 50 the current quarter would begin in 1950. */
  lemma YearFifty()
    ensures var today := Date(50, 0, 1);
            var w := ResolvePeriod(CurrentQuarter, today);
            w == Window(Date(1950, 0, 1), today) && DayOf(w.until) < DayOf(w.since)
  {
    Ordered(Date(50, 0, 1), Date(1950, 0, 1));
  }
}
