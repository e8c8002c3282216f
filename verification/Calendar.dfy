/** Calendar arithmetic: the seconds-based walk of `format_http_date`, the sums of `date_to_epoch`
    (rust/crates/thttpd-tdate) and the days-based walk of `days_to_ymd` (rust/crates/thttpd-http/src/dirlist.rs). */
module Calendar {

  const DAY: nat := 86400

  predicate IsLeap(y: int) {
    (y % 4 == 0 && y % 100 != 0) || y % 400 == 0
  }

  function DaysInYear(y: int): nat {
    if IsLeap(y) then 366 else 365
  }

  /** Months count from zero; there is no month twelve. */
  function DaysInMonth(m: nat, y: int): nat {
    if m == 1 then (if IsLeap(y) then 29 else 28)
    else if m == 3 || m == 5 || m == 8 || m == 10 then 30
    else if m <= 11 then 31
    else 0
  }

  /** Days of the years `from..to`. */
  function YearSpan(from: int, to: int): nat
    decreases to - from
  {
    if from >= to then 0 else YearSpan(from, to - 1) + DaysInYear(to - 1)
  }

  /** Days of the first `m` months. */
  function MonthSpan(m: nat, y: int): nat {
    if m == 0 then 0 else MonthSpan(m - 1, y) + DaysInMonth(m - 1, y)
  }

  lemma YearIsItsMonths(y: int)
    ensures MonthSpan(12, y) == DaysInYear(y)
  {
    assert MonthSpan(2, y) == MonthSpan(1, y) + DaysInMonth(1, y);
    assert MonthSpan(4, y) == MonthSpan(2, y) + 61;
    assert MonthSpan(6, y) == MonthSpan(4, y) + 61;
    assert MonthSpan(8, y) == MonthSpan(6, y) + 62;
    assert MonthSpan(10, y) == MonthSpan(8, y) + 61;
    assert MonthSpan(12, y) == MonthSpan(10, y) + 61;
  }

  /** Leap days up to and including year `y`, by the Gregorian rule. */
  function LeapDays(y: int): int {
    y / 4 - y / 100 + y / 400
  }

  lemma FourthStep(y: int) ensures y / 4 - (y - 1) / 4 == if y % 4 == 0 then 1 else 0 {}
  lemma CenturyStep(y: int) ensures y / 100 - (y - 1) / 100 == if y % 100 == 0 then 1 else 0 {}
  lemma FourthCenturyStep(y: int) ensures y / 400 - (y - 1) / 400 == if y % 400 == 0 then 1 else 0 {}
  lemma CenturyIsFourth(y: int) ensures y % 100 == 0 ==> y % 4 == 0 ensures y % 400 == 0 ==> y % 100 == 0 {}

  lemma LeapDayStep(y: int)
    ensures LeapDays(y) - LeapDays(y - 1) == if IsLeap(y) then 1 else 0
  {
    FourthStep(y);
    CenturyStep(y);
    FourthCenturyStep(y);
    CenturyIsFourth(y);
  }

  /** The year sums agree with the closed Gregorian formula. */
  lemma {:induction false} YearSpanIsGregorian(y: int)
    requires y >= 1970
    ensures YearSpan(1970, y) == 365 * (y - 1970) + LeapDays(y - 1) - LeapDays(1969)
    decreases y
  {
    if y > 1970 {
      YearSpanIsGregorian(y - 1);
      LeapDayStep(y - 1);
    }
  }

  /** Before 1970 the years count backwards, and the same formula holds. */
  lemma {:induction false} EarlierYearsAreGregorian(y: int)
    requires y <= 1970
    ensures 0 - YearSpan(y, 1970) == 365 * (y - 1970) + LeapDays(y - 1) - LeapDays(1969)
    decreases 1970 - y
  {
    if y < 1970 {
      EarlierYearsAreGregorian(y + 1);
      YearSpanFirst(y, 1970);
      LeapDayStep(y);
    }
  }

  lemma {:induction false} YearSpanFirst(first: int, end: int)
    requires first < end
    ensures YearSpan(first, end) == DaysInYear(first) + YearSpan(first + 1, end)
    decreases end - first
  {
    if first + 1 < end {
      YearSpanFirst(first, end - 1);
    }
  }

  /** Days before month `m`, by the closed civil formula. */
  function DaysBeforeMonth(m: nat, leap: bool): int {
    (367 * (m + 1) - 362) / 12 + (if m < 2 then 0 else if leap then -1 else -2)
  }

  /** The month sums agree with the closed formula, and December fills the year. */
  lemma {:induction false} MonthSpanIsCivil(m: nat, y: int)
    requires m < 12
    ensures MonthSpan(m, y) == DaysBeforeMonth(m, IsLeap(y))
    ensures DaysInMonth(m, y) == (if m == 11 then 31 else DaysBeforeMonth(m + 1, IsLeap(y)) - DaysBeforeMonth(m, IsLeap(y)))
  {
    MonthLengths(m, y);
    if m > 0 {
      MonthSpanIsCivil(m - 1, y);
    }
  }

  lemma MonthLengths(m: nat, y: int)
    requires m < 12
    ensures DaysInMonth(m, y) == (if m == 11 then 31 else DaysBeforeMonth(m + 1, IsLeap(y)) - DaysBeforeMonth(m, IsLeap(y)))
  {}

  /** Days from the start of 1970 to a date, by closed formulas only. */
  function DayNumber(year: int, month: nat, day: int): int {
    365 * (year - 1970) + LeapDays(year - 1) - LeapDays(1969) + DaysBeforeMonth(month, IsLeap(year)) + day - 1
  }

  lemma SumsAreDayNumbers(year: int, month: nat)
    requires month < 12
    ensures (if year < 1970 then 0 - YearSpan(year, 1970) else YearSpan(1970, year)) + MonthSpan(month, year)
      == DayNumber(year, month, 1)
  {
    MonthSpanIsCivil(month, year);
    if year < 1970 {
      EarlierYearsAreGregorian(year);
    } else {
      YearSpanIsGregorian(year);
    }
  }

  datatype Moment = Moment(year: int, month: nat, day: nat, hour: nat, minute: nat, second: nat)

  /** A moment as a calendar writes it, from 1970 on; the day counts from one. */
  predicate Proper(c: Moment) {
    && c.year >= 1970 && c.month < 12 && 1 <= c.day <= DaysInMonth(c.month, c.year)
    && c.hour < 24 && c.minute < 60 && c.second < 60
  }

  /** `date_to_epoch`. A day of zero wraps around in `u32` before it is widened. */
  function Epoch(c: Moment): int {
    var years := if c.year < 1970 then 0 - YearSpan(c.year, 1970) else YearSpan(1970, c.year);
    var day := if c.day == 0 then 0xFFFF_FFFF else c.day - 1;
    (years + MonthSpan(c.month, c.year) + day) * DAY + c.hour * 3600 + c.minute * 60 + c.second
  }

  method DateToEpoch(c: Moment) returns (t: int)
    ensures t == Epoch(c)
    ensures c.month < 12 && c.day >= 1 ==>
      t == DayNumber(c.year, c.month, c.day) * 86400 + c.hour * 3600 + c.minute * 60 + c.second
    ensures c.month < 12 && c.day == 0 ==>
      t == (DayNumber(c.year, c.month, 1) + 4294967295) * 86400 + c.hour * 3600 + c.minute * 60 + c.second
  {
    if c.month < 12 {
      SumsAreDayNumbers(c.year, c.month);
    }
    var days := 0;
    var from, to := (if c.year < 1970 then c.year else 1970), (if c.year < 1970 then 1970 else c.year);
    for yr := from to to
      invariant days == YearSpan(from, yr)
    {
      days := days + DaysInYear(yr);
    }
    if c.year < 1970 {
      days := -days;
    }
    ghost var years := days;
    for m := 0 to c.month
      invariant days == years + MonthSpan(m, c.year)
    {
      days := days + DaysInMonth(m, c.year);
    }
    days := days + if c.day == 0 then 0xFFFF_FFFF else c.day - 1;
    t := days * DAY + c.hour * 3600 + c.minute * 60 + c.second;
  }

  /** Walk the years, then the months, from a count of days since 1970. */
  ghost predicate IsDate(days: nat, year: int, month: nat, day: nat) {
    && year >= 1970 && month < 12 && 1 <= day <= DaysInMonth(month, year)
    && days == YearSpan(1970, year) + MonthSpan(month, year) + day - 1
  }

  lemma {:induction false} YearSpanMonotone(from: int, a: int, b: int)
    requires from <= a <= b
    ensures YearSpan(from, a) <= YearSpan(from, b)
    decreases b - a
  {
    if a < b {
      YearSpanMonotone(from, a, b - 1);
    }
  }

  lemma {:induction false} MonthSpanMonotone(a: nat, b: nat, y: int)
    requires a <= b
    ensures MonthSpan(a, y) <= MonthSpan(b, y)
  {
    if a < b {
      MonthSpanMonotone(a, b - 1, y);
    }
  }

  lemma DateWithinYear(days: nat, year: int, month: nat, day: nat)
    requires IsDate(days, year, month, day)
    ensures YearSpan(1970, year) <= days < YearSpan(1970, year + 1)
  {
    MonthSpanMonotone(month + 1, 12, year);
    YearIsItsMonths(year);
  }

  /** A day has one date. */
  lemma DateIsUnique(days: nat, y: int, m: nat, d: nat, y': int, m': nat, d': nat)
    requires IsDate(days, y, m, d) && IsDate(days, y', m', d')
    ensures y == y' && m == m' && d == d'
  {
    DateWithinYear(days, y, m, d);
    DateWithinYear(days, y', m', d');
    if y < y' {
      YearSpanMonotone(1970, y + 1, y');
    } else if y' < y {
      YearSpanMonotone(1970, y' + 1, y);
    }
    if m < m' {
      MonthSpanMonotone(m + 1, m', y);
    } else if m' < m {
      MonthSpanMonotone(m' + 1, m, y);
    }
  }

  function YearFrom(y: int, days: nat): (year: int)
    requires y >= 1970
    ensures year >= y && YearSpan(1970, year) <= YearSpan(1970, y) + days < YearSpan(1970, year + 1)
    decreases days
  {
    if days < DaysInYear(y) then y else YearFrom(y + 1, days - DaysInYear(y))
  }

  function MonthFrom(m: nat, y: int, days: nat): (month: nat)
    requires m < 12 && MonthSpan(m, y) + days < MonthSpan(12, y)
    ensures m <= month < 12 && MonthSpan(month, y) <= MonthSpan(m, y) + days < MonthSpan(month + 1, y)
    decreases 12 - m
  {
    if days < DaysInMonth(m, y) then m else MonthFrom(m + 1, y, days - DaysInMonth(m, y))
  }

  /** Every second since 1970 is one proper moment, whose sums give the count back. */
  function CivilOf(timestamp: nat): (c: Moment)
    ensures Proper(c) && Epoch(c) == timestamp && IsDate(timestamp / DAY, c.year, c.month, c.day)
  {
    var days, left := timestamp / DAY, timestamp % DAY;
    var year := YearFrom(1970, days);
    YearIsItsMonths(year);
    var inYear := days - YearSpan(1970, year);
    var month := MonthFrom(0, year, inYear);
    Moment(year, month, inYear - MonthSpan(month, year) + 1, left / 3600, left % 3600 / 60, left % 3600 % 60)
  }

  lemma ProperDate(c: Moment)
    requires Proper(c)
    ensures Epoch(c) >= 0 && IsDate(Epoch(c) / DAY, c.year, c.month, c.day)
    ensures Epoch(c) % DAY == c.hour * 3600 + c.minute * 60 + c.second
  {}

  lemma MomentIsUnique(c: Moment, c': Moment)
    requires Proper(c) && Proper(c') && Epoch(c) == Epoch(c')
    ensures c == c'
  {
    ProperDate(c);
    ProperDate(c');
    DateIsUnique(Epoch(c) / DAY, c.year, c.month, c.day, c'.year, c'.month, c'.day);
  }

  /** The walk of `format_http_date`: every second count since 1970 is one proper moment, and the
      sums give the count back. */
  method Civil(timestamp: nat) returns (c: Moment)
    ensures Proper(c) && Epoch(c) == timestamp && c == CivilOf(timestamp)
    ensures timestamp == DayNumber(c.year, c.month, c.day) * 86400 + c.hour * 3600 + c.minute * 60 + c.second
  {
    var remaining := timestamp;
    var year := 1970;
    while remaining >= DaysInYear(year) * DAY
      invariant year >= 1970 && remaining >= 0 && timestamp == YearSpan(1970, year) * DAY + remaining
      decreases remaining
    {
      remaining := remaining - DaysInYear(year) * DAY;
      year := year + 1;
    }
    var month := 0;
    YearIsItsMonths(year);
    assert MonthSpan(12, year) == MonthSpan(11, year) + DaysInMonth(11, year);
    while remaining >= DaysInMonth(month, year) * DAY
      invariant 0 <= month <= 11 && remaining >= 0
      invariant timestamp == (YearSpan(1970, year) + MonthSpan(month, year)) * DAY + remaining
      invariant remaining < (MonthSpan(12, year) - MonthSpan(month, year)) * DAY
      decreases 12 - month
    {
      remaining := remaining - DaysInMonth(month, year) * DAY;
      month := month + 1;
    }
    var day := remaining / DAY + 1;
    var left := remaining % DAY;
    c := Moment(year, month, day, left / 3600, left % 3600 / 60, left % 3600 % 60);
    MomentIsUnique(c, CivilOf(timestamp));
    CivilOfIsCivil(timestamp);
  }

  /** The directory listing's own calendar: a walk over days, then over a table of month lengths. */
  method DaysToYmd(count: nat) returns (year: nat, month: nat, day: nat)
    ensures 1 <= month <= 12 && IsDate(count, year, month - 1, day)
    ensures count == DayNumber(year, month - 1, day)
  {
    var days := count;
    year := 1970;
    while days >= DaysInYear(year)
      invariant year >= 1970 && days >= 0 && count == YearSpan(1970, year) + days
      decreases days
    {
      days := days - DaysInYear(year);
      year := year + 1;
    }
    var monthDays := if IsLeap(year)
      then [31, 29, 31, 30, 31, 30, 31, 31, 30, 31, 30, 31]
      else [31, 28, 31, 30, 31, 30, 31, 31, 30, 31, 30, 31];
    assert forall i :: 0 <= i < 12 ==> monthDays[i] == DaysInMonth(i, year);
    YearIsItsMonths(year);
    var m, remaining := 0, days;
    while m < 11 && remaining >= monthDays[m]
      invariant 0 <= m <= 11 && remaining >= 0 && days == MonthSpan(m, year) + remaining
      decreases 11 - m
    {
      remaining := remaining - monthDays[m];
      m := m + 1;
    }
    assert MonthSpan(12, year) == MonthSpan(11, year) + DaysInMonth(11, year);
    month, day := m + 1, remaining + 1;
    SumsAreDayNumbers(year, m);
  }

  /** What the printed moment of a timestamp is, by closed formulas only: the day number and the clock give the
      timestamp, the clock is in range, and the day is in its month. */
  lemma CivilOfIsCivil(timestamp: nat)
    ensures var c := CivilOf(timestamp);
      && timestamp == DayNumber(c.year, c.month, c.day) * 86400 + c.hour * 3600 + c.minute * 60 + c.second
      && c.hour < 24 && c.minute < 60 && c.second < 60 && c.year >= 1970 && c.month < 12 && 1 <= c.day
      && c.day <= (if c.month == 11 then 31
                   else DaysBeforeMonth(c.month + 1, IsLeap(c.year)) - DaysBeforeMonth(c.month, IsLeap(c.year)))
  {
    var c := CivilOf(timestamp);
    SumsAreDayNumbers(c.year, c.month);
    MonthLengths(c.month, c.year);
  }

  /** The listing's calendar and the printed one never disagree: a day has one date. */
  lemma CalendarsAgree(timestamp: nat, year: int, month: nat, day: nat)
    requires IsDate(timestamp / DAY, year, month, day)
    ensures CivilOf(timestamp).year == year && CivilOf(timestamp).month == month && CivilOf(timestamp).day == day
  {
    var c := CivilOf(timestamp);
    DateIsUnique(timestamp / DAY, c.year, c.month, c.day, year, month, day);
  }
}
