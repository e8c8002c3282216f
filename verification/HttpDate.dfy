/** Printing and parsing HTTP dates (rust/crates/thttpd-tdate): the fixed-length format of section
    7.1.1.1 of RFC 7231, and the four formats the parser takes. Whitespace is ASCII whitespace. */
module HttpDate {
  import opened Common
  import opened Calendar

  const I32_MAX: nat := 2147483647
  const U32_MAX: nat := 4294967295
  const I64_MAX: nat := 9223372036854775807

  const WEEKDAYS := ["Sun", "Mon", "Tue", "Wed", "Thu", "Fri", "Sat"]
  const MONTHS := ["Jan", "Feb", "Mar", "Apr", "May", "Jun", "Jul", "Aug", "Sep", "Oct", "Nov", "Dec"]

  // ----- Numbers. -----

  predicate IsDigit(c: char) { '0' <= c <= '9' }

  function Digit(d: nat): char
    requires d < 10
  {
    ('0' as int + d) as char
  }

  function Value(c: char): nat
    requires IsDigit(c)
  {
    c as int - '0' as int
  }

  /** The decimal notation of a number. */
  function Decimal(n: nat): (s: string)
    ensures s != [] && forall i :: 0 <= i < |s| ==> IsDigit(s[i])
  {
    if n < 10 then [Digit(n)] else Decimal(n / 10) + [Digit(n % 10)]
  }

  /** `{:02}`. */
  function TwoDigits(n: nat): (s: string)
    ensures s != [] && forall i :: 0 <= i < |s| ==> IsDigit(s[i])
  {
    if n < 10 then ['0'] + Decimal(n) else Decimal(n)
  }

  function DigitsValue(s: string): nat
    requires forall i :: 0 <= i < |s| ==> IsDigit(s[i])
  {
    if s == [] then 0 else DigitsValue(s[..|s| - 1]) * 10 + Value(s[|s| - 1])
  }

  predicate AllDigits(s: string) {
    s != [] && forall i :: 0 <= i < |s| ==> IsDigit(s[i])
  }

  function Unsigned(s: string): string {
    if s != [] && s[0] == '+' then s[1..] else s
  }

  /** `parse::<u32>()`. */
  function ParseU32(s: string): Option<nat> {
    var d := Unsigned(s);
    if AllDigits(d) && DigitsValue(d) <= U32_MAX then Some(DigitsValue(d)) else None
  }

  /** `parse` for a signed type whose largest value is `max`. */
  function ParseSigned(s: string, max: nat): Option<int> {
    if s != [] && s[0] == '-' then
      if AllDigits(s[1..]) && DigitsValue(s[1..]) <= max + 1 then Some(0 - DigitsValue(s[1..])) else None
    else
      var d := Unsigned(s);
      if AllDigits(d) && DigitsValue(d) <= max then Some(DigitsValue(d)) else None
  }

  lemma {:induction false} DecimalValue(n: nat)
    ensures DigitsValue(Decimal(n)) == n
  {
    if n < 10 {
      assert Decimal(n)[..0] == [];
    } else {
      DecimalValue(n / 10);
      var s := Decimal(n);
      assert s[..|s| - 1] == Decimal(n / 10);
    }
  }

  lemma {:induction false} LeadingZero(s: string)
    requires forall i :: 0 <= i < |s| ==> IsDigit(s[i])
    ensures DigitsValue(['0'] + s) == DigitsValue(s)
  {
    var z := ['0'] + s;
    if s == [] {
      assert z[..0] == [];
    } else {
      LeadingZero(s[..|s| - 1]);
      assert z[..|z| - 1] == ['0'] + s[..|s| - 1];
    }
  }

  lemma PrintedNumbersParse(n: nat)
    ensures n <= U32_MAX ==> ParseU32(TwoDigits(n)) == Some(n)
    ensures n <= I32_MAX ==> ParseSigned(Decimal(n), I32_MAX) == Some(n)
  {
    DecimalValue(n);
    LeadingZero(Decimal(n));
  }

  // ----- Pieces. -----

  predicate IsSpace(c: char) {
    c == ' ' || c == '\t' || c == '\n' || c == '\r' || c as int == 11 || c as int == 12
  }

  predicate IsSpaceOrComma(c: char) { c == ' ' || c == ',' }

  /** The runs between separators, empty runs dropped. */
  function Words(s: string, sep: char -> bool): seq<string> {
    if s == [] then []
    else
      var n := RunLength(s, sep);
      if n == |s| then [s] else (if n == 0 then [] else [s[..n]]) + Words(s[n + 1..], sep)
  }

  function RunLength(s: string, sep: char -> bool): (n: nat)
    ensures n <= |s| && (forall i :: 0 <= i < n ==> !sep(s[i])) && (n < |s| ==> sep(s[n]))
  {
    if s == [] || sep(s[0]) then 0 else 1 + RunLength(s[1..], sep)
  }

  function TrimStart(s: string): string {
    if s != [] && IsSpace(s[0]) then TrimStart(s[1..]) else s
  }

  function TrimEnd(s: string): string {
    if s != [] && IsSpace(s[|s| - 1]) then TrimEnd(s[..|s| - 1]) else s
  }

  lemma FirstWord(w: string, rest: string, c: char, sep: char -> bool)
    requires w != [] && sep(c) && forall i :: 0 <= i < |w| ==> !sep(w[i])
    ensures Words(w + [c] + rest, sep) == [w] + Words(rest, sep)
  {
    var s := w + [c] + rest;
    var n := RunLength(s, sep);
    assert s[|w|] == c;
    assert forall i :: 0 <= i < |w| ==> s[i] == w[i];
    assert n == |w|;
    assert s[..n] == w && s[n + 1..] == rest;
  }

  lemma LastWord(w: string, sep: char -> bool)
    requires w != [] && forall i :: 0 <= i < |w| ==> !sep(w[i])
    ensures Words(w, sep) == [w]
  {
    assert RunLength(w, sep) == |w|;
  }

  /** A word of some text: not empty and without separators. */
  predicate IsWord(w: string, sep: char -> bool) {
    w != [] && forall i :: 0 <= i < |w| ==> !sep(w[i])
  }

  /** Words joined by single separators are found again. */
  lemma {:induction false} WordsOfJoin(words: seq<string>, c: char, sep: char -> bool)
    requires |words| > 0 && sep(c) && forall k :: 0 <= k < |words| ==> IsWord(words[k], sep)
    ensures Words(Join(words, c), sep) == words
  {
    if |words| == 1 {
      LastWord(words[0], sep);
    } else {
      WordsOfJoin(words[1..], c, sep);
      FirstWord(words[0], Join(words[1..], c), c, sep);
    }
  }

  // ----- Printing. -----

  /** The truncating cast to `i32`. */
  function Wrap32(n: int): int {
    (n + 0x8000_0000) % 0x1_0000_0000 - 0x8000_0000
  }

  function Weekday(timestamp: nat): string {
    WEEKDAYS[Wrap32(timestamp / DAY) % 7]
  }

  /** The weekday of a day since 1970, which began on a Thursday. */
  function DayOfWeek(day: nat): (w: nat)
    ensures w < 7
  {
    if day == 0 then 4 else (DayOfWeek(day - 1) + 1) % 7
  }

  lemma {:induction false} DayOfWeekCycles(day: nat)
    ensures DayOfWeek(day) == (day + 4) % 7
  {
    if day > 0 {
      DayOfWeekCycles(day - 1);
      NextRemainder(day + 3);
    }
  }

  lemma NextRemainder(n: int)
    ensures (n % 7 + 1) % 7 == (n + 1) % 7
  {}

  lemma WeekdaysDiffer(i: nat, j: nat)
    requires i < 7 && j < 7
    ensures WEEKDAYS[i] == WEEKDAYS[j] <==> i == j
  {
    assert WEEKDAYS[i][..2] == ["Su", "Mo", "Tu", "We", "Th", "Fr", "Sa"][i];
    assert WEEKDAYS[j][..2] == ["Su", "Mo", "Tu", "We", "Th", "Fr", "Sa"][j];
  }

  /** The printed weekday is counted from a Sunday, so it is the day's own exactly when the cast to 32 bits happens to
      wrap it there. */
  lemma WeekdayIsRightIff(timestamp: nat)
    ensures Weekday(timestamp) == WEEKDAYS[DayOfWeek(timestamp / 86_400)] <==>
      (timestamp / 86_400 + 0x8000_0000) / 0x1_0000_0000 % 7 == 6
  {
    var day := timestamp / 86_400;
    var wraps := (day + 0x8000_0000) / 0x1_0000_0000;
    assert Wrap32(day) == day - 0x1_0000_0000 * wraps;
    DayOfWeekCycles(day);
    WeekdaysDiffer(Wrap32(day) % 7, (day + 4) % 7);
    SameRemainderIff(day, wraps);
  }

  lemma SameRemainderIff(day: int, wraps: int)
    ensures (day - 0x1_0000_0000 * wraps) % 7 == (day + 4) % 7 <==> wraps % 7 == 6
  {}

  /** So it is wrong for the first two thousand million days. */
  lemma WeekdayIsWrong(timestamp: nat)
    requires timestamp / 86_400 < 0x8000_0000
    ensures Weekday(timestamp) != WEEKDAYS[DayOfWeek(timestamp / 86_400)]
  {
    WeekdayIsRightIff(timestamp);
  }

  /** The Sunday, 6 November 1994, 08:49:37 is printed as a Wednesday. */
  lemma SundayIsPrintedAsWednesday(timestamp: nat)
    requires timestamp == 784_111_777
    ensures WEEKDAYS[DayOfWeek(timestamp / 86_400)] == "Sun" && Weekday(timestamp) == "Wed"
  {
    DayOfWeekCycles(timestamp / 86_400);
  }

  function Clock(c: Moment): string {
    Join([TwoDigits(c.hour), TwoDigits(c.minute), TwoDigits(c.second)], ':')
  }

  function Tokens(timestamp: nat, c: Moment): seq<string>
    requires c.month < 12 && c.year >= 0
  {
    [Weekday(timestamp) + ",", TwoDigits(c.day), MONTHS[c.month], Decimal(c.year), Clock(c), "GMT"]
  }

  function Printed(timestamp: nat): string {
    Join(Tokens(timestamp, CivilOf(timestamp)), ' ')
  }

  method FormatHttpDate(timestamp: nat) returns (s: string)
    ensures s == Printed(timestamp)
  {
    var c := Civil(timestamp);
    var dow := Wrap32(timestamp / DAY) % 7;
    var clock := TwoDigits(c.hour) + ":" + TwoDigits(c.minute) + ":" + TwoDigits(c.second);
    s := WEEKDAYS[dow] + "," + " " + TwoDigits(c.day) + " " + MONTHS[c.month] + " " + Decimal(c.year) + " " + clock + " " + "GMT";
    JoinOfThree([TwoDigits(c.hour), TwoDigits(c.minute), TwoDigits(c.second)], ':');
    JoinOfSix(Tokens(timestamp, c), ' ');
  }

  lemma JoinOfThree(w: seq<string>, d: char)
    requires |w| == 3
    ensures Join(w, d) == w[0] + [d] + w[1] + [d] + w[2]
  {
    assert Join(w[1..], d) == w[1] + [d] + Join(w[1..][1..], d);
  }

  lemma JoinOfSix(w: seq<string>, d: char)
    requires |w| == 6
    ensures Join(w, d) == w[0] + [d] + w[1] + [d] + w[2] + [d] + w[3] + [d] + w[4] + [d] + w[5]
  {
    var t := w[3..];
    JoinOfThree(t, d);
    assert Join(w[2..], d) == w[2] + [d] + Join(w[2..][1..], d) && w[2..][1..] == t;
    assert Join(w[1..], d) == w[1] + [d] + Join(w[1..][1..], d) && w[1..][1..] == w[2..];
  }

  // ----- Parsing. -----

  function MonthNum(name: string): Option<nat> {
    if name == "Jan" then Some(0) else if name == "Feb" then Some(1) else if name == "Mar" then Some(2)
    else if name == "Apr" then Some(3) else if name == "May" then Some(4) else if name == "Jun" then Some(5)
    else if name == "Jul" then Some(6) else if name == "Aug" then Some(7) else if name == "Sep" then Some(8)
    else if name == "Oct" then Some(9) else if name == "Nov" then Some(10) else if name == "Dec" then Some(11)
    else None
  }

  /** Day, month, year and clock texts to a timestamp. */
  function FromFields(day: string, month: string, year: Option<int>, clock: string): Option<int> {
    var d, m, t := ParseU32(day), MonthNum(month), Split(clock, ':');
    if d.None? || m.None? || year.None? || |t| != 3 then None
    else
      var h, min, s := ParseU32(t[0]), ParseU32(t[1]), ParseU32(t[2]);
      if h.None? || min.None? || s.None? then None
      else Some(Epoch(Moment(year.value, m.value, d.value, h.value, min.value, s.value)))
  }

  function ParseRfc1123(s: string): Option<int> {
    var p := Words(s, IsSpace);
    if |p| != 6 || p[5] != "GMT" then None
    else FromFields(p[1], p[2], ParseSigned(p[3], I32_MAX), p[4])
  }

  function CenturyYear(year: Option<int>): Option<int> {
    if year.None? then None
    else if year.value < 70 then Some(year.value + 2000)
    else if year.value < 100 then Some(year.value + 1900)
    else year
  }

  function ParseRfc850(s: string): Option<int> {
    var p := Words(s, IsSpaceOrComma);
    if |p| != 4 || p[3] != "GMT" then None
    else
      var date := Split(p[1], '-');
      if |date| != 3 then None
      else FromFields(date[0], date[1], CenturyYear(ParseSigned(date[2], I32_MAX)), p[2])
  }

  function ParseAsctime(s: string): Option<int> {
    var p := Words(s, IsSpace);
    if |p| != 5 then None
    else FromFields(p[2], p[1], ParseSigned(p[4], I32_MAX), p[3])
  }

  function ParseHttpDate(input: string): Option<int> {
    var s := TrimEnd(TrimStart(input));
    if ParseSigned(s, I64_MAX).Some? then ParseSigned(s, I64_MAX)
    else if ParseRfc1123(s).Some? then ParseRfc1123(s)
    else if ParseRfc850(s).Some? then ParseRfc850(s)
    else ParseAsctime(s)
  }

  // ----- The round trip. -----

  lemma MonthsParse(m: nat)
    requires m < 12
    ensures MonthNum(MONTHS[m]) == Some(m)
  {}

  /** The twelve names, in calendar order; no other text names a month. */
  lemma MonthsAreNamed(m: nat, name: string)
    requires m < 12
    ensures MONTHS == ["Jan", "Feb", "Mar", "Apr", "May", "Jun", "Jul", "Aug", "Sep", "Oct", "Nov", "Dec"]
    ensures MonthNum(name) == Some(m) <==> name == MONTHS[m]
  {
    MonthNumOf(m, name);
  }

  lemma MonthNumOf(m: nat, name: string)
    requires m < 12
    ensures MonthNum(name) == Some(m) <==> name == MONTHS[m]
  {
    MonthsParse(m);
  }

  lemma MonthNamesAreShort(m: nat)
    requires m < 12
    ensures |MONTHS[m]| == 3
  {}

  lemma DigitsHaveNo(s: string, c: char)
    requires !IsDigit(c) && forall i :: 0 <= i < |s| ==> IsDigit(s[i])
    ensures c !in s
  {}

  lemma ClockSplits(c: Moment)
    ensures Split(Clock(c), ':') == [TwoDigits(c.hour), TwoDigits(c.minute), TwoDigits(c.second)]
  {
    var t := [TwoDigits(c.hour), TwoDigits(c.minute), TwoDigits(c.second)];
    forall i | 0 <= i < 3 ensures ':' !in t[i] {
      DigitsHaveNo(t[i], ':');
    }
    SplitOfJoin(t, ':');
  }

  lemma ClockHasNoSpace(c: Moment)
    ensures Clock(c) != [] && forall i :: 0 <= i < |Clock(c)| ==> !IsSpace(Clock(c)[i])
  {
    JoinOfThree([TwoDigits(c.hour), TwoDigits(c.minute), TwoDigits(c.second)], ':');
  }

  lemma TokensAreWords(timestamp: nat, c: Moment)
    requires c.month < 12 && c.year >= 0
    ensures var w := Tokens(timestamp, c);
      forall k :: 0 <= k < 6 ==> w[k] != [] && forall i :: 0 <= i < |w[k]| ==> !IsSpace(w[k][i])
  {
    ClockHasNoSpace(c);
    var w := Tokens(timestamp, c);
    forall k | 0 <= k < 6 ensures w[k] != [] && forall i :: 0 <= i < |w[k]| ==> !IsSpace(w[k][i]) {
      if k == 0 {
        assert |Weekday(timestamp)| == 3;
      } else if k == 2 {
        assert |MONTHS[c.month]| == 3;
      }
    }
  }

  /** The printed fields give the timestamp back. */
  lemma FieldsParse(timestamp: nat)
    requires CivilOf(timestamp).year <= I32_MAX
    ensures var c := CivilOf(timestamp);
      FromFields(TwoDigits(c.day), MONTHS[c.month], ParseSigned(Decimal(c.year), I32_MAX), Clock(c)) == Some(timestamp)
  {
    var c := CivilOf(timestamp);
    MonthsParse(c.month);
    ClockSplits(c);
    PrintedNumbersParse(c.day);
    PrintedNumbersParse(c.year);
    PrintedNumbersParse(c.hour);
    PrintedNumbersParse(c.minute);
    PrintedNumbersParse(c.second);
    assert Moment(c.year, c.month, c.day, c.hour, c.minute, c.second) == c;
  }

  /** A text that starts with a letter is no number and needs no trimming at its start. */
  lemma PrintedEnds(timestamp: nat)
    ensures var s := Printed(timestamp);
      |s| > 4 && !IsSpace(s[0]) && !IsSpace(s[|s| - 1]) && !IsDigit(s[0]) && s[0] != '-' && s[0] != '+'
  {
    JoinOfSix(Tokens(timestamp, CivilOf(timestamp)), ' ');
    var s := Printed(timestamp);
    assert s[0] == Weekday(timestamp)[0];
    assert s[|s| - 1] == 'T';
  }

  /** Every timestamp whose year fits `i32` is read back from its own printed form. */
  lemma RoundTrip(timestamp: nat)
    requires CivilOf(timestamp).year <= I32_MAX
    ensures ParseHttpDate(Printed(timestamp)) == Some(timestamp)
  {
    var s := Printed(timestamp);
    PrintedEnds(timestamp);
    assert TrimEnd(TrimStart(s)) == s;
    assert ParseSigned(s, I64_MAX).None?;
    TokensAreWords(timestamp, CivilOf(timestamp));
    WordsOfJoin(Tokens(timestamp, CivilOf(timestamp)), ' ', IsSpace);
    FieldsParse(timestamp);
  }

  /** Echoing the printed modification time of an unchanged file passes the not-modified test. */
  lemma EchoIsNotModified(mtime: nat)
    requires CivilOf(mtime).year <= I32_MAX
    ensures var ims := ParseHttpDate(Printed(mtime)); ims.Some? && ims.value >= mtime
  {
    RoundTrip(mtime);
  }

  // ----- The layout. -----

  lemma YearHasFourDigits(year: nat)
    requires 1000 <= year <= 9999
    ensures |Decimal(year)| == 4
  {
    assert |Decimal(year / 10 / 10 / 10)| == 1;
    assert |Decimal(year / 10 / 10)| == 2;
    assert |Decimal(year / 10)| == 3;
  }

  lemma TwoDigitsAreTwo(n: nat)
    requires n < 100
    ensures |TwoDigits(n)| == 2 && TwoDigits(n) == [Digit(n / 10), Digit(n % 10)]
  {
    assert Decimal(n / 10) == [Digit(n / 10)];
  }

  /** Up to the year 9999 the printed date is the fixed-length form: 29 characters, each field in its place. */
  lemma PrintedIsFixedLength(timestamp: nat)
    requires CivilOf(timestamp).year <= 9999
    ensures var s, c := Printed(timestamp), CivilOf(timestamp);
      && |s| == 29 && s[3..5] == ", " && s[7] == s[11] == s[16] == ' ' && s[19] == s[22] == ':' && s[25..] == " GMT"
      && s[5..7] == TwoDigits(c.day) && s[8..11] == MONTHS[c.month]
      && s[12..16] == Decimal(c.year)
      && s[17..19] == TwoDigits(c.hour) && s[20..22] == TwoDigits(c.minute) && s[23..25] == TwoDigits(c.second)
  {
    var c := CivilOf(timestamp);
    ClockIsFixedLength(c);
    FieldsPlaced(timestamp, c);
    ClockPlaced(Printed(timestamp), Clock(c));
  }

  lemma FieldsPlaced(timestamp: nat, c: Moment)
    requires c == CivilOf(timestamp) && c.year <= 9999 && |Clock(c)| == 8
    ensures var s := Printed(timestamp);
      && |s| == 29 && s[3..5] == ", " && s[7] == s[11] == s[16] == ' ' && s[25..] == " GMT"
      && s[5..7] == TwoDigits(c.day) && s[8..11] == MONTHS[c.month] && s[12..16] == Decimal(c.year) && s[17..25] == Clock(c)
  {
    YearHasFourDigits(c.year);
    TwoDigitsAreTwo(c.day);
    MonthNamesAreShort(c.month);
    PrintedPieces(timestamp);
    Placed(Weekday(timestamp), TwoDigits(c.day), MONTHS[c.month], Decimal(c.year), Clock(c));
  }

  lemma PrintedPieces(timestamp: nat)
    ensures var c := CivilOf(timestamp);
      Printed(timestamp) == Laid(Weekday(timestamp), TwoDigits(c.day), MONTHS[c.month], Decimal(c.year), Clock(c))
  {
    JoinOfSix(Tokens(timestamp, CivilOf(timestamp)), ' ');
  }

  function Laid(weekday: string, day: string, month: string, year: string, clock: string): string {
    weekday + "," + [' '] + day + [' '] + month + [' '] + year + [' '] + clock + [' '] + "GMT"
  }

  lemma ClockIsFixedLength(c: Moment)
    requires c.hour < 24 && c.minute < 60 && c.second < 60
    ensures var t := Clock(c);
      && |t| == 8 && t[2] == t[5] == ':'
      && t[0..2] == TwoDigits(c.hour) && t[3..5] == TwoDigits(c.minute) && t[6..8] == TwoDigits(c.second)
  {
    TwoDigitsAreTwo(c.hour);
    TwoDigitsAreTwo(c.minute);
    TwoDigitsAreTwo(c.second);
    JoinOfThree([TwoDigits(c.hour), TwoDigits(c.minute), TwoDigits(c.second)], ':');
  }

  lemma Placed(weekday: string, day: string, month: string, year: string, clock: string)
    requires |weekday| == 3 && |day| == 2 && |month| == 3 && |year| == 4 && |clock| == 8
    ensures var s := Laid(weekday, day, month, year, clock);
      && |s| == 29 && s[3..5] == ", " && s[7] == s[11] == s[16] == ' ' && s[25..] == " GMT"
      && s[5..7] == day && s[8..11] == month && s[12..16] == year && s[17..25] == clock
  {
    var front := weekday + "," + [' '] + day + [' '] + month + [' '];
    var back := year + [' '] + clock + [' '] + "GMT";
    var s := front + back;
    assert Laid(weekday, day, month, year, clock) == s;
    assert front[3..5] == ", " && front[5..7] == day && front[8..11] == month;
    assert back[0..4] == year && back[5..13] == clock && back[13..17] == " GMT";
    InTheFront(front, back, 3, 5);
    InTheFront(front, back, 5, 7);
    InTheFront(front, back, 8, 11);
    InTheBack(front, back, 0, 4);
    InTheBack(front, back, 5, 13);
    InTheBack(front, back, 13, 17);
    assert s[25..29] == s[25..] && s[7] == front[7] && s[11] == front[11] && s[16] == back[4];
  }

  lemma InTheFront(front: string, back: string, i: nat, j: nat)
    requires i <= j <= |front|
    ensures (front + back)[i..j] == front[i..j]
  {}

  lemma InTheBack(front: string, back: string, i: nat, j: nat)
    requires i <= j <= |back|
    ensures (front + back)[|front| + i..|front| + j] == back[i..j]
  {}

  lemma ClockPlaced(s: string, clock: string)
    requires |s| == 29 && |clock| == 8 && s[17..25] == clock
    ensures s[17..19] == clock[0..2] && s[19] == clock[2] && s[20..22] == clock[3..5] && s[22] == clock[5]
    ensures s[23..25] == clock[6..8]
  {
    assert s[17..25][2] == s[19] && s[17..25][5] == s[22];
    SliceOfSlice(s, 17, 25, 0, 2);
    SliceOfSlice(s, 17, 25, 3, 5);
    SliceOfSlice(s, 17, 25, 6, 8);
  }

  lemma SliceOfSlice(s: string, a: nat, b: nat, i: nat, j: nat)
    requires a <= b <= |s| && i <= j <= b - a
    ensures s[a..b][i..j] == s[a + i..a + j]
  {
    var inner, outer := s[a..b][i..j], s[a + i..a + j];
    forall k | 0 <= k < j - i ensures inner[k] == outer[k] {
      assert s[a..b][i + k] == s[a + i + k];
    }
  }

  // ----- The two older formats. -----

  /** A word that starts with a letter, as a weekday does. */
  predicate IsDayName(w: string) {
    w != [] && forall i :: 0 <= i < |w| ==> 'A' <= w[i] <= 'z'
  }

  function DashedDate(c: Moment): string
    requires c.month < 12 && c.year >= 0
  {
    Join([TwoDigits(c.day), MONTHS[c.month], TwoDigits(c.year % 100)], '-')
  }

  /** The date as RFC 850 writes it, under any weekday name. */
  function PrintedRfc850(w: string, c: Moment): string
    requires c.month < 12 && c.year >= 0
  {
    w + [','] + ([' '] + Join([DashedDate(c), Clock(c), "GMT"], ' '))
  }

  /** The date as the C library's asctime writes it, the day padded with a blank. */
  function PrintedAsctime(w: string, c: Moment): string
    requires c.month < 12 && c.year >= 0
  {
    w + [' '] + (MONTHS[c.month] + [' '] + Padded(c))
  }

  function Padded(c: Moment): string
    requires c.year >= 0
  {
    (if c.day < 10 then [' '] else []) + Join([Decimal(c.day), Clock(c), Decimal(c.year)], ' ')
  }

  /** Separators alone make no word. */
  lemma SkipSeparator(rest: string, c: char, sep: char -> bool)
    requires sep(c)
    ensures Words([c] + rest, sep) == Words(rest, sep)
  {
    assert RunLength([c] + rest, sep) == 0;
    assert ([c] + rest)[1..] == rest;
  }

  /** What neither separates words nor occurs at the ends of numbers. */
  predicate IsInner(w: string) {
    w != [] && forall i :: 0 <= i < |w| ==> !IsSpace(w[i]) && w[i] != ','
  }

  lemma InnerIsWord(w: string)
    requires IsInner(w)
    ensures IsWord(w, IsSpace) && IsWord(w, IsSpaceOrComma)
  {}

  lemma DashedIsInner(c: Moment)
    requires c.month < 12 && c.year >= 0
    ensures IsInner(DashedDate(c))
  {
    JoinOfThree([TwoDigits(c.day), MONTHS[c.month], TwoDigits(c.year % 100)], '-');
    MonthIsInner(c.month);
  }

  lemma MonthIsInner(m: nat)
    requires m < 12
    ensures IsInner(MONTHS[m])
  {
    assert |MONTHS[m]| == 3;
  }

  lemma ClockIsInner(c: Moment)
    ensures IsInner(Clock(c))
  {
    JoinOfThree([TwoDigits(c.hour), TwoDigits(c.minute), TwoDigits(c.second)], ':');
  }

  lemma DashedSplits(c: Moment)
    requires c.month < 12 && c.year >= 0
    ensures Split(DashedDate(c), '-') == [TwoDigits(c.day), MONTHS[c.month], TwoDigits(c.year % 100)]
  {
    var t := [TwoDigits(c.day), MONTHS[c.month], TwoDigits(c.year % 100)];
    forall i | 0 <= i < 3 ensures '-' !in t[i] {
      if i != 1 {
        DigitsHaveNo(t[i], '-');
      }
    }
    SplitOfJoin(t, '-');
  }

  lemma Rfc850Tail(c: Moment)
    requires c.month < 12 && c.year >= 0
    ensures var tail := [DashedDate(c), Clock(c), "GMT"];
      forall k :: 0 <= k < 3 ==> IsInner(tail[k])
  {
    DashedIsInner(c);
    ClockIsInner(c);
  }

  lemma AllWords(words: seq<string>)
    requires forall k :: 0 <= k < |words| ==> IsInner(words[k])
    ensures forall k :: 0 <= k < |words| ==> IsWord(words[k], IsSpace) && IsWord(words[k], IsSpaceOrComma)
  {
    forall k | 0 <= k < |words| ensures IsWord(words[k], IsSpace) && IsWord(words[k], IsSpaceOrComma) {
      InnerIsWord(words[k]);
    }
  }

  lemma FourWords(w: string, d: char, rest: string, sep: char -> bool, x: string, y: string, z: string)
    requires IsWord(w, sep) && sep(d) && Words(rest, sep) == [x, y, z]
    ensures Words(w + [d] + rest, sep) == [w, x, y, z]
  {
    FirstWord(w, rest, d, sep);
  }

  lemma FiveWords(w: string, v: string, d: char, rest: string, sep: char -> bool, x: string, y: string, z: string)
    requires IsWord(w, sep) && IsWord(v, sep) && sep(d) && Words(rest, sep) == [x, y, z]
    ensures Words(w + [d] + (v + [d] + rest), sep) == [w, v, x, y, z]
  {
    TwoInFront(w, v, d, rest, sep, [x, y, z]);
    FiveInAll(w, v, x, y, z);
  }

  lemma FiveInAll(w: string, v: string, x: string, y: string, z: string)
    ensures [w] + ([v] + [x, y, z]) == [w, v, x, y, z]
  {}

  lemma TwoInFront(w: string, v: string, d: char, rest: string, sep: char -> bool, words: seq<string>)
    requires IsWord(w, sep) && IsWord(v, sep) && sep(d) && Words(rest, sep) == words
    ensures Words(w + [d] + (v + [d] + rest), sep) == [w] + ([v] + words)
  {
    var more := v + [d] + rest;
    InFront(v, d, rest, sep, words);
    InFront(w, d, more, sep, [v] + words);
  }

  lemma InFront(w: string, d: char, rest: string, sep: char -> bool, words: seq<string>)
    requires IsWord(w, sep) && sep(d) && Words(rest, sep) == words
    ensures Words(w + [d] + rest, sep) == [w] + words
  {
    FirstWord(w, rest, d, sep);
  }

  lemma TailWords(words: seq<string>, sep: char -> bool)
    requires |words| == 3 && sep(' ') && forall k :: 0 <= k < 3 ==> IsWord(words[k], sep)
    ensures Words(Join(words, ' '), sep) == Words([' '] + Join(words, ' '), sep) == [words[0], words[1], words[2]]
  {
    WordsOfJoin(words, ' ', sep);
    SkipSeparator(Join(words, ' '), ' ', sep);
  }

  lemma Rfc850Words(w: string, c: Moment)
    requires IsDayName(w) && c.month < 12 && c.year >= 0
    ensures Words(PrintedRfc850(w, c), IsSpaceOrComma) == [w, DashedDate(c), Clock(c), "GMT"]
  {
    var tail := [DashedDate(c), Clock(c), "GMT"];
    Rfc850Tail(c);
    AllWords(tail);
    TailWords(tail, IsSpaceOrComma);
    InnerIsWord(w);
    FourWords(w, ',', [' '] + Join(tail, ' '), IsSpaceOrComma, DashedDate(c), Clock(c), "GMT");
  }

  lemma Rfc850Fields(w: string, c: Moment)
    requires IsDayName(w) && c.month < 12 && c.year >= 0
    ensures |Words(PrintedRfc850(w, c), IsSpace)| == 4
  {
    var tail := [DashedDate(c), Clock(c), "GMT"];
    Rfc850Tail(c);
    AllWords(tail);
    TailWords(tail, IsSpace);
    InnerIsWord(w);
    FourWords(w + [','], ' ', Join(tail, ' '), IsSpace, DashedDate(c), Clock(c), "GMT");
    Regrouped(w, ',', ' ', Join(tail, ' '));
  }

  lemma Regrouped(w: string, a: char, b: char, rest: string)
    ensures w + [a] + ([b] + rest) == (w + [a]) + [b] + rest
  {}

  /** The year from 1970 to 2069 that ends in the same two digits. */
  function ShortYear(year: nat): (y: nat)
    ensures 1970 <= y <= 2069 && y % 100 == year % 100
  {
    if year % 100 < 70 then 2000 + year % 100 else 1900 + year % 100
  }

  lemma ShortYearParses(year: nat)
    ensures CenturyYear(ParseSigned(TwoDigits(year % 100), I32_MAX)) == Some(ShortYear(year))
  {
    DecimalValue(year % 100);
    LeadingZero(Decimal(year % 100));
  }

  lemma ClockAndDateParse(c: Moment, year: int)
    requires Proper(c)
    ensures FromFields(TwoDigits(c.day), MONTHS[c.month], Some(year), Clock(c)) == Some(Epoch(c.(year := year)))
  {
    MonthsParse(c.month);
    ClockSplits(c);
    PrintedNumbersParse(c.day);
    PrintedNumbersParse(c.hour);
    PrintedNumbersParse(c.minute);
    PrintedNumbersParse(c.second);
    assert Moment(year, c.month, c.day, c.hour, c.minute, c.second) == c.(year := year);
  }

  /** A moment keeps its place in the calendar when only its century changes this way. */
  lemma ShortYearIsProper(c: Moment)
    requires Proper(c)
    ensures Proper(c.(year := ShortYear(c.year)))
  {
    LeapShortens(c.year);
  }

  lemma LeapShortens(year: nat)
    ensures IsLeap(year) ==> IsLeap(ShortYear(year))
  {
    CenturiesAreFours(year / 100, year % 100);
    CenturiesAreFours(ShortYear(year) / 100, year % 100);
  }

  lemma CenturiesAreFours(century: nat, rest: nat)
    requires rest < 100
    ensures (100 * century + rest) % 4 == rest % 4
  {
    assert 100 * century + rest == 4 * (25 * century) + rest;
  }

  lemma NotANumber(s: string, max: nat)
    requires s != [] && !IsDigit(s[0]) && s[0] != '-' && s[0] != '+'
    ensures ParseSigned(s, max).None?
  {}

  /** A date in the RFC 850 form is read as the one that its two digits stand for, a proper moment from 1970 to 2069,
      so it is read back exactly up to 2069. */
  lemma Rfc850RoundTrip(timestamp: nat, w: string)
    requires IsDayName(w)
    ensures var c := CivilOf(timestamp);
      var near := c.(year := ShortYear(c.year));
      Proper(near) && ParseHttpDate(PrintedRfc850(w, c)) == Some(Epoch(near))
    ensures ParseHttpDate(PrintedRfc850(w, CivilOf(timestamp))) == Some(timestamp) <==> CivilOf(timestamp).year <= 2069
  {
    Rfc850IsRead(timestamp, w);
    var c := CivilOf(timestamp);
    ShortYearIsProper(c);
    if Epoch(c.(year := ShortYear(c.year))) == timestamp {
      MomentIsUnique(c, c.(year := ShortYear(c.year)));
    }
  }

  lemma Rfc850IsRead(timestamp: nat, w: string)
    requires IsDayName(w)
    ensures var c := CivilOf(timestamp);
      ParseHttpDate(PrintedRfc850(w, c)) == Some(Epoch(c.(year := ShortYear(c.year))))
  {
    var c := CivilOf(timestamp);
    var s := PrintedRfc850(w, c);
    Rfc850Ends(w, c);
    Untrimmed(s);
    NotANumber(s, I64_MAX);
    Rfc850Words(w, c);
    Rfc850Fields(w, c);
    Rfc850Parses(c, s, w);
  }

  lemma Rfc850Ends(w: string, c: Moment)
    requires IsDayName(w) && c.month < 12 && c.year >= 0
    ensures var s := PrintedRfc850(w, c); s != [] && s[0] == w[0] && s[|s| - 1] == 'T'
  {
    var s := PrintedRfc850(w, c);
    JoinOfThree([DashedDate(c), Clock(c), "GMT"], ' ');
    assert s[|s| - 1] == "GMT"[2];
  }

  lemma Untrimmed(s: string)
    requires s != [] && !IsSpace(s[0]) && !IsSpace(s[|s| - 1])
    ensures TrimEnd(TrimStart(s)) == s
  {}

  lemma Rfc850Parses(c: Moment, s: string, w: string)
    requires Proper(c) && Words(s, IsSpaceOrComma) == [w, DashedDate(c), Clock(c), "GMT"]
    ensures ParseRfc850(s) == Some(Epoch(c.(year := ShortYear(c.year))))
  {
    DashedSplits(c);
    ShortYearParses(c.year);
    ClockAndDateParse(c, ShortYear(c.year));
  }

  lemma AsctimeWords(w: string, c: Moment, sep: char -> bool)
    requires c.month < 12 && c.year >= 0 && sep(' ')
    requires IsWord(w, sep) && IsWord(MONTHS[c.month], sep) && IsWord(Clock(c), sep)
    requires IsWord(Decimal(c.day), sep) && IsWord(Decimal(c.year), sep)
    ensures Words(PrintedAsctime(w, c), sep) == [w, MONTHS[c.month], Decimal(c.day), Clock(c), Decimal(c.year)]
  {
    PaddedWords(c, sep);
    FiveWords(w, MONTHS[c.month], ' ', Padded(c), sep, Decimal(c.day), Clock(c), Decimal(c.year));
  }

  lemma PaddedWords(c: Moment, sep: char -> bool)
    requires c.year >= 0 && sep(' ') && IsWord(Clock(c), sep) && IsWord(Decimal(c.day), sep) && IsWord(Decimal(c.year), sep)
    ensures Words(Padded(c), sep) == [Decimal(c.day), Clock(c), Decimal(c.year)]
  {
    var tail := [Decimal(c.day), Clock(c), Decimal(c.year)];
    TailWords(tail, sep);
    assert [] + Join(tail, ' ') == Join(tail, ' ');
  }

  /** What the reader finds in the asctime form. */
  lemma AsctimeReads(w: string, c: Moment)
    requires IsDayName(w) && c.month < 12 && c.year >= 0
    ensures Words(PrintedAsctime(w, c), IsSpace) == [w, MONTHS[c.month], Decimal(c.day), Clock(c), Decimal(c.year)]
    ensures |Words(PrintedAsctime(w, c), IsSpaceOrComma)| == 5
  {
    MonthIsInner(c.month);
    ClockIsInner(c);
    InnerIsWord(w);
    InnerIsWord(MONTHS[c.month]);
    InnerIsWord(Clock(c));
    InnerIsWord(Decimal(c.day));
    InnerIsWord(Decimal(c.year));
    AsctimeWords(w, c, IsSpace);
    AsctimeWords(w, c, IsSpaceOrComma);
  }

  /** A date in the asctime form is read back, for every year that fits `i32`. */
  lemma AsctimeRoundTrip(timestamp: nat, w: string)
    requires IsDayName(w) && CivilOf(timestamp).year <= I32_MAX
    ensures ParseHttpDate(PrintedAsctime(w, CivilOf(timestamp))) == Some(timestamp)
  {
    var s := PrintedAsctime(w, CivilOf(timestamp));
    AsctimeEnds(w, CivilOf(timestamp));
    Untrimmed(s);
    NotANumber(s, I64_MAX);
    AsctimeReads(w, CivilOf(timestamp));
    AsctimeParses(timestamp, s, w);
  }

  lemma AsctimeParses(timestamp: nat, s: string, w: string)
    requires CivilOf(timestamp).year <= I32_MAX
    requires var c := CivilOf(timestamp);
      Words(s, IsSpace) == [w, MONTHS[c.month], Decimal(c.day), Clock(c), Decimal(c.year)]
    ensures ParseRfc1123(s).None? && ParseAsctime(s) == Some(timestamp)
  {
    AsctimeFields(timestamp);
  }

  lemma AsctimeEnds(w: string, c: Moment)
    requires IsDayName(w) && c.month < 12 && c.year >= 0
    ensures var s := PrintedAsctime(w, c); s != [] && s[0] == w[0] && IsDigit(s[|s| - 1])
  {
    var s, y := PrintedAsctime(w, c), Decimal(c.year);
    JoinOfThree([Decimal(c.day), Clock(c), y], ' ');
    assert s[|s| - 1] == y[|y| - 1];
  }

  lemma AsctimeFields(timestamp: nat)
    requires CivilOf(timestamp).year <= I32_MAX
    ensures var c := CivilOf(timestamp);
      FromFields(Decimal(c.day), MONTHS[c.month], ParseSigned(Decimal(c.year), I32_MAX), Clock(c)) == Some(timestamp)
  {
    var c := CivilOf(timestamp);
    DecimalValue(c.day);
    PrintedNumbersParse(c.year);
    PrintedNumbersParse(c.day);
    ClockAndDateParse(c, c.year);
    assert c.(year := c.year) == c;
  }
}
