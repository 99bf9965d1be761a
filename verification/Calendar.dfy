/** The calendar: a leap day every fourth year, day 0 being 1 January 1970. */
module Calendar {

  datatype Date = Date(year: int, month: int, day: int)

  predicate Leap(year: int) {
    year % 4 == 0
  }

  /** `dayPerMonth`, by the month's index from 0, with the leap day. */
  function MonthDays(index: nat, leap: bool): (days: nat)
    requires index < 12
    ensures 28 <= days <= 31
  {
    [31, 28, 31, 30, 31, 30, 31, 31, 30, 31, 30, 31][index] + if index == 1 && leap then 1 else 0
  }

  /** The months, and the leap years: every fourth, without exceptions. */
  lemma MonthLengths(leap: bool, year: nat)
    ensures MonthDays(0, leap) == 31 && MonthDays(1, leap) == (if leap then 29 else 28) && MonthDays(2, leap) == 31
    ensures MonthDays(3, leap) == 30 && MonthDays(4, leap) == 31 && MonthDays(5, leap) == 30
    ensures MonthDays(6, leap) == 31 && MonthDays(7, leap) == 31 && MonthDays(8, leap) == 30
    ensures MonthDays(9, leap) == 31 && MonthDays(10, leap) == 30 && MonthDays(11, leap) == 31
    ensures Leap(4 * year) && !Leap(4 * year + 1) && !Leap(4 * year + 2) && !Leap(4 * year + 3)
  {
  }

  predicate Real(d: Date) {
    1970 <= d.year && 1 <= d.month <= 12 && 1 <= d.day <= MonthDays(d.month - 1, Leap(d.year))
  }

  function Tomorrow(d: Date): Date
    requires Real(d)
  {
    if d.day < MonthDays(d.month - 1, Leap(d.year)) then Date(d.year, d.month, d.day + 1)
    else if d.month < 12 then Date(d.year, d.month + 1, 1)
    else Date(d.year + 1, 1, 1)
  }

  /** The date `n` days after 1 January 1970, counted out day by day. */
  function NaiveDate(n: nat): (d: Date)
    ensures Real(d)
  {
    if n == 0 then Date(1970, 1, 1) else Tomorrow(NaiveDate(n - 1))
  }

  /** The days of the year before its month with this index. */
  function DaysBefore(index: nat, leap: bool): (days: nat)
    requires index <= 12
  {
    if index == 0 then 0 else DaysBefore(index - 1, leap) + MonthDays(index - 1, leap)
  }

  /** The leap days of the years from 1970 to before 1970 + `years`, as the source computes them. */
  function ExtraDays(years: nat): nat {
    if Leap(1970 + years) then (years + 2) / 4 - 1 else (years + 2) / 4
  }

  lemma {:induction false} ExtraDaysCount(years: nat)
    ensures ExtraDays(0) == 0
    ensures ExtraDays(years + 1) == ExtraDays(years) + if Leap(1970 + years) then 1 else 0
  {
  }

  function DayNumber(d: Date): int
    requires 1970 <= d.year && 1 <= d.month <= 12
  {
    (d.year - 1970) * 365 + (d.day - 1 + DaysBefore(d.month - 1, Leap(d.year)) + ExtraDays(d.year - 1970))
  }

  lemma YearLength(leap: bool)
    ensures DaysBefore(11, leap) + MonthDays(11, leap) == DaysBefore(12, leap) == if leap then 366 else 365
  {
    if leap {
      assert DaysBefore(6, true) == 182;
      assert DaysBefore(11, true) == 335;
    } else {
      assert DaysBefore(6, false) == 181;
      assert DaysBefore(11, false) == 334;
    }
  }

  lemma {:induction false} DaysBeforeMonotone(i: nat, j: nat, leap: bool)
    requires i < j <= 12
    ensures DaysBefore(i, leap) + MonthDays(i, leap) <= DaysBefore(j, leap)
    decreases j
  {
    if i < j - 1 {
      DaysBeforeMonotone(i, j - 1, leap);
    }
  }

  lemma NextDayNumber(d: Date)
    requires Real(d)
    ensures DayNumber(Tomorrow(d)) == DayNumber(d) + 1
  {
    YearLength(Leap(d.year));
    ExtraDaysCount(d.year - 1970);
  }

  /** The closed formula counts the days that counting them one by one does. */
  lemma {:induction false} DayNumberCounts(n: nat)
    ensures DayNumber(NaiveDate(n)) == n
  {
    if n > 0 {
      DayNumberCounts(n - 1);
      NextDayNumber(NaiveDate(n - 1));
    }
  }

  /** The order on dates as the source compares them. */
  predicate Before(a: Date, b: Date) {
    a.year < b.year || (a.year == b.year && a.month < b.month)
    || (a.year == b.year && a.month == b.month && a.day < b.day)
  }

  /** The day within its year, which has 365 or 366. */
  lemma DayOfYear(d: Date)
    requires Real(d)
    ensures 0 <= d.day - 1 + DaysBefore(d.month - 1, Leap(d.year)) < if Leap(d.year) then 366 else 365
  {
    YearLength(Leap(d.year));
    if d.month < 12 {
      DaysBeforeMonotone(d.month - 1, 12, Leap(d.year));
    }
  }

  lemma {:induction false} YearsMonotone(y: nat, z: nat)
    requires y < z
    ensures y * 365 + ExtraDays(y) + (if Leap(1970 + y) then 366 else 365) <= z * 365 + ExtraDays(z)
    decreases z
  {
    if y < z - 1 {
      YearsMonotone(y, z - 1);
    }
    ExtraDaysCount(z - 1);
  }

  lemma EarlierIsLess(a: Date, b: Date)
    requires Real(a) && Real(b) && Before(a, b)
    ensures DayNumber(a) < DayNumber(b)
  {
    DayOfYear(a);
    DayOfYear(b);
    if a.year < b.year {
      YearsMonotone(a.year - 1970, b.year - 1970);
    } else if a.month < b.month {
      DaysBeforeMonotone(a.month - 1, b.month - 1, Leap(a.year));
    }
  }

  /** Day numbers order real dates as their order does; in particular they tell them apart. */
  lemma OrderOfDays(a: Date, b: Date)
    requires Real(a) && Real(b)
    ensures Before(a, b) <==> DayNumber(a) < DayNumber(b)
    ensures a == b <==> DayNumber(a) == DayNumber(b)
  {
    if Before(a, b) {
      EarlierIsLess(a, b);
    } else if a != b {
      EarlierIsLess(b, a);
    }
  }

  lemma NonNegative(d: Date)
    requires Real(d)
    ensures DayNumber(d) >= 0
  {
    DayOfYear(d);
  }

  /** Every real date is reached by counting, and the formula says when. */
  lemma DateOfNumber(d: Date)
    requires Real(d)
    ensures DayNumber(d) >= 0 && NaiveDate(DayNumber(d)) == d
  {
    NonNegative(d);
    DayNumberCounts(DayNumber(d));
    OrderOfDays(d, NaiveDate(DayNumber(d)));
  }
}

/** Converting between timers and dates. A timer is its nanoseconds since 1 January 1970; it is
    never negative and fits 63 bits. */
module TimerDates {
  import opened Calendar

  const SECONDS_IN_DAY: int := 86400
  const SECONDS_IN_YEAR: int := 31536000
  const SECONDS_IN_HOUR: int := 3600
  const SECONDS_IN_MINUTE: int := 60
  const BILLION: int := 1_000_000_000
  const TWO_63: int := 0x8000_0000_0000_0000
  const TWO_64: int := 0x1_0000_0000_0000_0000

  // Casts to the narrow types.

  function U8(x: int): (r: int)
    ensures 0 <= r < 0x100
  {
    x % 0x100
  }

  function U16(x: int): (r: int)
    ensures 0 <= r < 0x1_0000
  {
    x % 0x1_0000
  }

  /** Arithmetic in 64 bits with sign. */
  function Int64(x: int): (r: int)
    ensures -TWO_63 <= r < TWO_63
    ensures -TWO_63 <= x < TWO_63 ==> r == x
  {
    (x + TWO_63) % TWO_64 - TWO_63
  }

  /** The date of a timer, by the calendar alone. */
  function DateOf(t: nat): Date {
    NaiveDate(t / BILLION / SECONDS_IN_DAY)
  }

  lemma Multiples(k: int, n: int)
    requires n > 0
    ensures k >= 1 ==> k * n >= n
    ensures k <= -1 ==> k * n <= -n
  {
    if k >= 1 {
      assert k * n == (k - 1) * n + n && (k - 1) * n >= 0;
    } else if k <= -1 {
      assert k * n == (k + 1) * n - n && (k + 1) * n <= 0;
    }
  }

  lemma Quotient(x: int, q: int, n: int, r: int)
    requires n > 0 && 0 <= r < n && x == q * n + r
    ensures x / n == q && x % n == r
  {
    var p, m := x / n, x % n;
    assert x == p * n + m;
    assert (q - p) * n == q * n - p * n == m - r;
    Multiples(q - p, n);
  }

  /** The quotient by a year of 365 days, and the day and the time left of it. */
  lemma QuotientOfYear(seconds: nat, years: int, days: int, rest: int)
    requires years == seconds / SECONDS_IN_DAY / 365 && days == seconds / SECONDS_IN_DAY % 365
    requires rest == seconds % SECONDS_IN_DAY
    ensures seconds / SECONDS_IN_YEAR == years
    ensures (seconds - years * SECONDS_IN_YEAR) / SECONDS_IN_DAY == days
    ensures seconds - years * SECONDS_IN_YEAR - days * SECONDS_IN_DAY == rest
  {
    Quotient(seconds, years, SECONDS_IN_YEAR, days * SECONDS_IN_DAY + rest);
    Quotient(seconds - years * SECONDS_IN_YEAR, days, SECONDS_IN_DAY, rest);
  }

  lemma DayRange(t: nat)
    requires t < TWO_63
    ensures 0 <= t / BILLION / SECONDS_IN_DAY <= 106751
  {
  }

  /** One step back in the year is enough: the leap days so far are fewer than a year. */
  lemma OneYearBack(days: nat)
    requires days <= 106751
    ensures ExtraDays(days / 365) <= 73
  {
  }

  method LeapCorrection(years: int, days: int) returns (year: int, day: int, isLeap: bool)
    requires 0 <= years * 365 + days <= 106751 && 0 <= years && 0 <= days < 365
    ensures 0 <= year && isLeap == Leap(1970 + year) && 0 <= day < if isLeap then 366 else 365
    ensures year * 365 + ExtraDays(year) + day == years * 365 + days
  {
    year, day := years, days;
    isLeap := (1970 + year) % 4 == 0;
    var extraDays := U16(if isLeap then (year + 2) / 4 - 1 else (year + 2) / 4);
    assert extraDays == ExtraDays(years) <= 73;
    if extraDays > day {
      ExtraDaysCount(years - 1);
      year := U16(year - 1);
      isLeap := (1970 + year) % 4 == 0;
      day := U16(day + 365 + (if isLeap then 1 else 0) - extraDays);
    } else {
      day := U16(day - extraDays);
    }
  }

  /** Counts months off the day of the year. */
  method MonthLoop(start: int, isLeap: bool) returns (month: int, day: int)
    requires 0 <= start < if isLeap then 366 else 365
    ensures 0 <= month < 12 && 0 <= day < MonthDays(month, isLeap)
    ensures DaysBefore(month, isLeap) + day == start
  {
    month, day := 0, start;
    YearLength(isLeap);
    for index := 0 to 12
      invariant month == index && 0 <= day && DaysBefore(month, isLeap) + day == start
    {
      var daysPerMonth := MonthDays(index, isLeap);
      if day >= daysPerMonth {
        month := U8(month + 1);
        day := U16(day - daysPerMonth);
      } else {
        return;
      }
    }
  }

  /** The date in a count of seconds, and the seconds of its day. */
  method SplitSeconds(seconds: nat) returns (date: Date, time: int)
    requires seconds / SECONDS_IN_DAY <= 106751
    ensures date == NaiveDate(seconds / SECONDS_IN_DAY) && time == seconds % SECONDS_IN_DAY
  {
    var timestamp := seconds;
    ghost var days := seconds / SECONDS_IN_DAY;
    QuotientOfYear(seconds, days / 365, days % 365, seconds % SECONDS_IN_DAY);
    var year := U16(timestamp / SECONDS_IN_YEAR);
    assert year == days / 365;
    timestamp := timestamp - year * SECONDS_IN_YEAR;
    var day := U16(timestamp / SECONDS_IN_DAY);
    assert day == days % 365;
    time := timestamp - day * SECONDS_IN_DAY;
    date := Corrected(year, day);
    DateOfNumber(date);
  }

  method Corrected(years: int, days: int) returns (date: Date)
    requires 0 <= years * 365 + days <= 106751 && 0 <= years && 0 <= days < 365
    ensures Real(date) && DayNumber(date) == years * 365 + days
  {
    var year, day, isLeap := LeapCorrection(years, days);
    YearBound(year, years * 365 + days);
    var month;
    month, day := MonthLoop(day, isLeap);
    date := Date(U16(year + 1970), U8(month + 1), U8(day + 1));
    DateOfParts(year, month, day);
  }

  lemma YearBound(year: int, days: int)
    requires 0 <= year && year * 365 <= days <= 106751
    ensures year <= 292
  {
  }

  lemma DateOfParts(year: int, month: int, day: int)
    requires 0 <= year <= 292 && 0 <= month < 12 && 0 <= day < MonthDays(month, Leap(1970 + year))
    ensures var d := Date(U16(year + 1970), U8(month + 1), U8(day + 1));
            && Real(d)
            && DayNumber(d) == year * 365 + ExtraDays(year) + (DaysBefore(month, Leap(1970 + year)) + day)
  {
    assert U16(year + 1970) == year + 1970 && U8(month + 1) == month + 1 && U8(day + 1) == day + 1;
  }

  method ToDate(t: nat) returns (date: Date)
    requires t < TWO_63
    ensures date == DateOf(t)
  {
    DayRange(t);
    var time;
    date, time := SplitSeconds(t / BILLION);
  }

  // ---------------------------------------------------------------- from parts

  datatype Time = Time(hour: int, minute: int, second: int, nanosecond: int)

  method HowMuchDaysFromStartOfYearTillMonth(month: int, isLeap: bool) returns (sum: int)
    ensures sum == if 1 <= month <= 12 then DaysBefore(month - 1, isLeap) else 0
  {
    if month > 12 || month < 1 {
      return 0;
    }
    sum := 0;
    for index := 0 to month - 1
      invariant sum == DaysBefore(index, isLeap) <= 31 * index
    {
      sum := U16(sum + MonthDays(index, isLeap));
    }
  }

  function HowMuchDaysInMonth(month: int, isLeap: bool): int {
    if month > 12 || month <= 0 then 0 else MonthDays(month - 1, isLeap)
  }

  /** A month that does not exist has no days. */
  lemma NoSuchMonth(month: int, isLeap: bool)
    requires month < 1 || month > 12
    ensures HowMuchDaysInMonth(month, isLeap) == 0
  {
  }

  /** The parts that are accepted. The year is passed on where the leap flag is expected, so that
      every February has 29 days; and a minute may be 60. */
  predicate Accepted(d: Date, time: Time) {
    && 1970 <= d.year && 1 <= d.month <= 12 && 1 <= d.day <= HowMuchDaysInMonth(d.month, d.year != 0)
    && time.hour <= 23 && time.minute <= 60 && time.second <= 59 && time.nanosecond <= 999999999
  }

  /** A time of the clock. */
  predicate RealTime(time: Time) {
    0 <= time.hour <= 23 && 0 <= time.minute <= 59 && 0 <= time.second <= 59 && 0 <= time.nanosecond < BILLION
  }

  function SecondOfDay(time: Time): int {
    time.hour * SECONDS_IN_HOUR + time.minute * SECONDS_IN_MINUTE + time.second
  }

  /** The nanoseconds since 1970. */
  function Span(d: Date, time: Time): int
    requires 1970 <= d.year && 1 <= d.month <= 12
  {
    (DayNumber(d) * SECONDS_IN_DAY + SecondOfDay(time)) * BILLION + time.nanosecond
  }

  /** The timer of a date and a time: empty, that is zero, if they are not accepted, and what is left
      of the nanoseconds in 64 bits otherwise. */
  function TimerOf(d: Date, time: Time): int {
    if Accepted(d, time) then Int64(Span(d, time)) else 0
  }

  /** The nanoseconds since 1970 have room in a timer. */
  predicate Fits(d: Date, time: Time)
    requires 1970 <= d.year && 1 <= d.month <= 12
  {
    Span(d, time) < TWO_63
  }

  predicate Unsigned(d: Date, time: Time) {
    && 0 <= d.year < 0x1_0000 && 0 <= d.month < 0x100 && 0 <= d.day < 0x100
    && 0 <= time.hour && 0 <= time.minute && 0 <= time.second && 0 <= time.nanosecond
  }

  method Create(d: Date, time: Time) returns (t: int)
    requires Unsigned(d, time)
    ensures t == TimerOf(d, time)
  {
    var year := d.year;
    if year < 1970 || d.month == 0 || d.month > 12 || d.day == 0 || d.day > HowMuchDaysInMonth(d.month, d.year != 0)
       || time.hour > 23 || time.minute > 60 || time.second > 59 || time.nanosecond > 999999999 {
      return 0;
    }
    year := year - 1970;
    var isLeap := (year + 2) % 4 == 0;
    var before := HowMuchDaysFromStartOfYearTillMonth(d.month, isLeap);
    var days := d.day - 1 + before + (if isLeap then (year + 2) / 4 - 1 else (year + 2) / 4);
    assert year * 365 + days == DayNumber(d);
    var seconds := year * SECONDS_IN_YEAR + days * SECONDS_IN_DAY
                   + time.hour * SECONDS_IN_HOUR + time.minute * SECONDS_IN_MINUTE + time.second;
    t := Int64(seconds * BILLION + time.nanosecond);
  }

  const MIDNIGHT: Time := Time(0, 0, 0, 0)

  lemma MidnightSpan(t: nat)
    ensures Span(DateOf(t), MIDNIGHT) == t - t % (SECONDS_IN_DAY * BILLION)
  {
    var n := t / BILLION / SECONDS_IN_DAY;
    DayNumberCounts(n);
    var rest := t / BILLION % SECONDS_IN_DAY * BILLION + t % BILLION;
    assert t == n * (SECONDS_IN_DAY * BILLION) + rest;
    Quotient(t, n, SECONDS_IN_DAY * BILLION, rest);
  }

  /** The timer of a timer's date is the midnight before it. */
  lemma MidnightBefore(t: nat)
    requires t < TWO_63
    ensures TimerOf(DateOf(t), MIDNIGHT) == t - t % (SECONDS_IN_DAY * BILLION)
  {
    MidnightSpan(t);
    RealIsAccepted(DateOf(t), MIDNIGHT);
    NonNegative(DateOf(t));
  }

  /** Real dates make timers in their own order, as long as they fit. */
  lemma CreateMonotone(a: Date, b: Date)
    requires Real(a) && Real(b) && Fits(a, MIDNIGHT) && Fits(b, MIDNIGHT)
    ensures Before(a, b) <==> TimerOf(a, MIDNIGHT) < TimerOf(b, MIDNIGHT)
  {
    OrderOfDays(a, b);
    NonNegative(a);
    NonNegative(b);
    RealIsAccepted(a, MIDNIGHT);
    RealIsAccepted(b, MIDNIGHT);
  }

  function ClockTime(time: nat, nanosecond: int): Time {
    Time(time / SECONDS_IN_HOUR, time % SECONDS_IN_HOUR / SECONDS_IN_MINUTE, time % SECONDS_IN_MINUTE, nanosecond)
  }

  lemma ClockParts(time: nat, nanosecond: int)
    requires time < SECONDS_IN_DAY && 0 <= nanosecond < BILLION
    ensures RealTime(ClockTime(time, nanosecond)) && SecondOfDay(ClockTime(time, nanosecond)) == time
  {
    var hour, rest := time / SECONDS_IN_HOUR, time % SECONDS_IN_HOUR;
    var minute, second := rest / SECONDS_IN_MINUTE, rest % SECONDS_IN_MINUTE;
    Quotient(time, hour * 60 + minute, SECONDS_IN_MINUTE, second);
  }

  /** The time of day of a timer. */
  function TimeOf(t: nat): Time {
    ClockTime(t / BILLION % SECONDS_IN_DAY, t % BILLION)
  }

  lemma RealIsAccepted(d: Date, time: Time)
    requires Real(d) && RealTime(time)
    ensures Accepted(d, time)
  {
  }

  lemma PartsMakeSpan(t: nat)
    ensures Real(DateOf(t)) && RealTime(TimeOf(t)) && Span(DateOf(t), TimeOf(t)) == t
  {
    var seconds := t / BILLION;
    var n, time := seconds / SECONDS_IN_DAY, seconds % SECONDS_IN_DAY;
    DayNumberCounts(n);
    ClockParts(time, t % BILLION);
    assert n * SECONDS_IN_DAY + time == seconds;
    assert seconds * BILLION + t % BILLION == t;
  }

  /** A timer is the timer of its own date and time. */
  lemma PartsMakeTimer(t: nat)
    requires t < TWO_63
    ensures RealTime(TimeOf(t)) && TimerOf(DateOf(t), TimeOf(t)) == t
  {
    PartsMakeSpan(t);
    RealIsAccepted(DateOf(t), TimeOf(t));
  }

  /** The minute 60 may reach into the next day. */
  function DaysOver(time: Time): int {
    if SecondOfDay(time) < SECONDS_IN_DAY then 0 else 1
  }

  /** Day, second and nanosecond of what accepted parts make. */
  lemma SpanParts(d: Date, time: Time)
    requires Unsigned(d, time) && Accepted(d, time)
    ensures Span(d, time) >= 0 && Span(d, time) % BILLION == time.nanosecond
    ensures Span(d, time) / BILLION / SECONDS_IN_DAY == DayNumber(d) + DaysOver(time)
    ensures Span(d, time) / BILLION % SECONDS_IN_DAY == SecondOfDay(time) - DaysOver(time) * SECONDS_IN_DAY
  {
    var n, seconds, over := DayNumber(d), SecondOfDay(time), DaysOver(time);
    var all := n * SECONDS_IN_DAY + seconds;
    assert n >= 0;
    Quotient(all * BILLION + time.nanosecond, all, BILLION, time.nanosecond);
    Quotient(all, n + over, SECONDS_IN_DAY, seconds - over * SECONDS_IN_DAY);
  }

  lemma ClockComesBack(time: Time)
    requires RealTime(time)
    ensures 0 <= SecondOfDay(time) < SECONDS_IN_DAY && ClockTime(SecondOfDay(time), time.nanosecond) == time
  {
    var seconds, rest := SecondOfDay(time), time.minute * SECONDS_IN_MINUTE + time.second;
    Quotient(seconds, time.hour, SECONDS_IN_HOUR, rest);
    Quotient(rest, time.minute, SECONDS_IN_MINUTE, time.second);
    Quotient(seconds, time.hour * 60 + time.minute, SECONDS_IN_MINUTE, time.second);
  }

  lemma RealComesBack(d: Date, time: Time)
    requires Unsigned(d, time) && Real(d) && RealTime(time)
    ensures Span(d, time) >= 0 && DateOf(Span(d, time)) == d && TimeOf(Span(d, time)) == time
  {
    RealIsAccepted(d, time);
    SpanParts(d, time);
    ClockComesBack(time);
    DateOfNumber(d);
  }

  /** The timer gives this date and this time. */
  predicate Gives(t: int, d: Date, time: Time) {
    t >= 0 && DateOf(t) == d && TimeOf(t) == time
  }

  /** What is accepted comes back exactly if it is a date of the calendar and a time of the clock,
      and fits. */
  lemma DateComesBack(d: Date, time: Time)
    requires Unsigned(d, time) && Accepted(d, time)
    ensures Gives(TimerOf(d, time), d, time) <==> Real(d) && RealTime(time) && Fits(d, time)
  {
    SpanParts(d, time);
    var t := TimerOf(d, time);
    if Gives(t, d, time) {
      PartsMakeSpan(t);
    } else if Real(d) && RealTime(time) && Fits(d, time) {
      RealComesBack(d, time);
    }
  }

  const LAST_DAY: Date := Date(2262, 4, 9)
  const LAST_TIME: Time := Time(23, 47, 16, 854775807)

  /** The last timer there is. */
  lemma LastTimer()
    ensures Gives(TWO_63 - 1, LAST_DAY, LAST_TIME)
  {
    LastSpan();
    RealComesBack(LAST_DAY, LAST_TIME);
  }

  lemma LastSpan()
    ensures Span(LAST_DAY, LAST_TIME) == TWO_63 - 1
  {
    assert DaysBefore(3, false) == 90;
    assert DayNumber(LAST_DAY) == 106751;
  }

  /** Before its day everything fits, after it nothing does. */
  lemma FitsUntil(d: Date, time: Time)
    requires Real(d) && RealTime(time)
    ensures Before(d, LAST_DAY) ==> Fits(d, time)
    ensures Before(LAST_DAY, d) ==> !Fits(d, time)
    ensures d == LAST_DAY ==> (Fits(d, time) <==> SecondOfDay(time) * BILLION + time.nanosecond
                                                  <= SecondOfDay(LAST_TIME) * BILLION + LAST_TIME.nanosecond)
  {
    LastSpan();
    OrderOfDays(d, LAST_DAY);
    OrderOfDays(LAST_DAY, d);
    ClockComesBack(time);
  }

  /** A later date is accepted all the same; this one gives a negative timer. */
  lemma LaterIsAccepted()
    ensures Unsigned(Date(2300, 1, 1), MIDNIGHT) && Accepted(Date(2300, 1, 1), MIDNIGHT)
    ensures TimerOf(Date(2300, 1, 1), MIDNIGHT) == -8032779273709551616
  {
    assert DayNumber(Date(2300, 1, 1)) == 120532;
  }

  /** The only dates accepted besides: 29 February in a year without one. It gives 1 March. */
  lemma MissingLeapDay(d: Date, time: Time)
    requires Unsigned(d, time) && Accepted(d, time) && !Real(d)
    ensures d.month == 2 && d.day == 29 && !Leap(d.year)
    ensures Real(Date(d.year, 3, 1)) && TimerOf(d, time) == TimerOf(Date(d.year, 3, 1), time)
  {
    assert DaysBefore(2, Leap(d.year)) == DaysBefore(1, Leap(d.year)) + 28;
    assert DayNumber(Date(d.year, 3, 1)) == DayNumber(d);
  }

  /** The only times accepted besides: the minute 60. It is the first minute of the next hour,
      after 23 o'clock that of the next day. */
  lemma MinuteSixty(d: Date, time: Time)
    requires Unsigned(d, time) && Accepted(d, time) && !RealTime(time)
    ensures time.minute == 60
    ensures time.hour < 23 ==>
              TimerOf(d, time) == TimerOf(d, Time(time.hour + 1, 0, time.second, time.nanosecond))
    ensures time.hour == 23 && Real(d) ==>
              TimerOf(d, time) == TimerOf(Tomorrow(d), Time(0, 0, time.second, time.nanosecond))
  {
    if time.hour == 23 && Real(d) {
      NextDayNumber(d);
      RealIsAccepted(Tomorrow(d), Time(0, 0, time.second, time.nanosecond));
    }
  }
}
