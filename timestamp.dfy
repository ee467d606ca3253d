/** The report window text: `strftime('%I:%M %p of %A, %B %d, %Y')` of the start and end
    times (main_build.py, lines 337-340), in the C locale's English names. */
module Timestamp {
  import opened Wrappers
  import opened Text

  /** A point in time as the formatter needs it: the weekday is 0 for Monday .. 6 for Sunday. */
  datatype DateTime = DateTime(year: int, month: int, day: int, hour: int, minute: int, weekday: int)

  predicate Valid(t: DateTime) {
    1000 <= t.year <= 9999 && 1 <= t.month <= 12 && 1 <= t.day <= 31 &&
    0 <= t.hour < 24 && 0 <= t.minute < 60 && 0 <= t.weekday < 7
  }

  const WeekdayNames: seq<string> := ["Monday", "Tuesday", "Wednesday", "Thursday", "Friday", "Saturday", "Sunday"]

  const MonthNames: seq<string> :=
    ["January", "February", "March", "April", "May", "June",
     "July", "August", "September", "October", "November", "December"]

  function Digit(d: int): char
    requires 0 <= d < 10
  {
    ('0' as int + d) as char
  }

  function DigitValue(c: char): int {
    c as int - '0' as int
  }

  /** A number below 100 with a leading zero (`%I`, `%M`, `%d`). */
  function TwoDigits(n: int): string
    requires 0 <= n < 100
  {
    [Digit(n / 10), Digit(n % 10)]
  }

  /** A year of four digits (`%Y`). */
  function FourDigits(n: int): string
    requires 0 <= n < 10000
  {
    TwoDigits(n / 100) + TwoDigits(n % 100)
  }

  /** The hour on a 12-hour clock (`%I`): midnight and noon are 12. */
  function Hour12(h: int): int
    requires 0 <= h < 24
  {
    if h % 12 == 0 then 12 else h % 12
  }

  /** `%p`. */
  function Meridiem(h: int): string {
    if h < 12 then "AM" else "PM"
  }

  /** `%I:%M %p`. */
  function Clock(t: DateTime): string
    requires Valid(t)
  {
    TwoDigits(Hour12(t.hour)) + ":" + TwoDigits(t.minute) + " " + Meridiem(t.hour)
  }

  /** `%A, %B %d, %Y`. */
  function Date(t: DateTime): string
    requires Valid(t)
  {
    WeekdayNames[t.weekday] + ", " + MonthNames[t.month - 1] + " " + TwoDigits(t.day) + ", " + FourDigits(t.year)
  }

  /** `strftime('%I:%M %p of %A, %B %d, %Y')`. */
  function Format(t: DateTime): string
    requires Valid(t)
  {
    Clock(t) + (" of " + Date(t))
  }

  /** The replacement for the template's time-window sentence. */
  function TimeWindow(start: DateTime, end: DateTime): string
    requires Valid(start) && Valid(end)
  {
    "from " + Format(start) + " to " + Format(end)
  }

  /** The clock is eight characters and ends with the "M" of AM or PM. */
  lemma ClockShape(t: DateTime)
    requires Valid(t)
    ensures |Clock(t)| == 8 && Clock(t)[7] == 'M'
  {
    assert Clock(t)[6..] == Meridiem(t.hour);
  }

  /** The date is at most 29 characters ("Wednesday, September 30, 2024") and holds no
      lower-case "f". */
  lemma DateShape(t: DateTime)
    requires Valid(t)
    ensures |Date(t)| <= 29 && 'f' !in Date(t)
  {
    WeekdayShape(t.weekday);
    MonthShape(t.month - 1);
    assert 'f' !in TwoDigits(t.day) && 'f' !in FourDigits(t.year);
  }

  lemma WeekdayShape(w: int)
    requires 0 <= w < 7
    ensures |WeekdayNames[w]| <= 9 && 'f' !in WeekdayNames[w]
  {
  }

  lemma MonthShape(m: int)
    requires 0 <= m < 12
    ensures |MonthNames[m]| <= 9 && 'f' !in MonthNames[m]
  {
  }

  /** The window "from <start> to <end>": it starts with "f", the "M" of the start's clock
      is at index 12 and that of the end's clock at index j = 16 + |start|, followed by
      " of " and the end's date, which holds no "f". */
  lemma WindowLayout(start: DateTime, end: DateTime)
    requires Valid(start) && Valid(end)
    ensures var w := TimeWindow(start, end); var j := 16 + |Format(start)|;
      28 <= j <= 57 && j + 5 < |w| && w[0] == 'f' && w[12] == 'M' && w[j] == 'M' &&
      w[j + 1..j + 5] == " of " && w[j + 5..] == Date(end)
  {
    ClockShape(start);
    ClockShape(end);
    DateShape(start);
    DateShape(end);
    var w := TimeWindow(start, end);
    var head := "from " + Format(start) + " to ";
    var tail := Format(end);
    assert w == head + tail;
    assert |head| == 9 + |Format(start)|;
    assert w[5..13] == Clock(start);
    assert tail[7] == 'M' && tail[8..12] == " of " && tail[12..] == Date(end);
    assert w[|head|..] == tail;
  }

  /** Reads a two-digit field. */
  function ReadTwoDigits(s: string): Option<int> {
    if |s| == 2 && IsDigit(s[0]) && IsDigit(s[1]) then Some(DigitValue(s[0]) * 10 + DigitValue(s[1])) else None
  }

  /** Reads the leading "hh:mm AM" of a formatted time back as a 24-hour (hour, minute). */
  function ReadClock(s: string): Option<(int, int)> {
    if |s| < 8 || s[2] != ':' || s[5] != ' ' || (s[6..8] != "AM" && s[6..8] != "PM") then None
    else match (ReadTwoDigits(s[..2]), ReadTwoDigits(s[3..5]))
      case (Some(h), Some(m)) =>
        if 1 <= h <= 12 && m < 60 then Some((h % 12 + (if s[6..8] == "PM" then 12 else 0), m)) else None
      case _ => None
  }

  /** Reads the trailing four-digit year of a formatted time. */
  function ReadYear(s: string): Option<int> {
    if |s| < 4 then None
    else match (ReadTwoDigits(s[|s| - 4..|s| - 2]), ReadTwoDigits(s[|s| - 2..]))
      case (Some(hi), Some(lo)) => Some(hi * 100 + lo)
      case _ => None
  }

  lemma TwoDigitsRead(n: int)
    requires 0 <= n < 100
    ensures ReadTwoDigits(TwoDigits(n)) == Some(n)
  {
  }

  /** The 12-hour clock with AM/PM determines the hour of the day. */
  lemma Hour12Determines(h: int)
    requires 0 <= h < 24
    ensures 1 <= Hour12(h) <= 12
    ensures Hour12(h) % 12 + (if h >= 12 then 12 else 0) == h
  {
  }

  /** Reading the clock looks at the first eight characters only. */
  lemma ReadClockPrefix(c: string, rest: string)
    requires |c| >= 8
    ensures ReadClock(c + rest) == ReadClock(c)
  {
    var s := c + rest;
    assert s[..2] == c[..2] && s[3..5] == c[3..5] && s[6..8] == c[6..8];
  }

  /** Reading the year looks at the last four characters only. */
  lemma ReadYearSuffix(pre: string, s: string)
    requires |s| >= 4
    ensures ReadYear(pre + s) == ReadYear(s)
  {
    var t := pre + s;
    assert t[|t| - 4..|t| - 2] == s[|s| - 4..|s| - 2] && t[|t| - 2..] == s[|s| - 2..];
  }

  /** The clock is a zero-padded 12-hour clock 01..12, minutes and AM/PM, which read
      back as the hour and minute of the day. */
  lemma ClockRead(t: DateTime)
    requires Valid(t)
    ensures |Clock(t)| == 8
    ensures ReadClock(Clock(t)) == Some((t.hour, t.minute))
    ensures var h := ReadTwoDigits(Clock(t)[..2]); h.Some? && 1 <= h.value <= 12
  {
    var s := Clock(t);
    assert s[..2] == TwoDigits(Hour12(t.hour));
    assert s[3..5] == TwoDigits(t.minute);
    assert s[6..8] == Meridiem(t.hour);
    TwoDigitsRead(Hour12(t.hour));
    TwoDigitsRead(t.minute);
    Hour12Determines(t.hour);
  }

  /** The formatted time starts with that clock: it reads back as the hour and minute of
      the day, and its hour field is 01..12. */
  lemma ClockRoundTrip(t: DateTime)
    requires Valid(t)
    ensures ReadClock(Format(t)) == Some((t.hour, t.minute))
    ensures var h := ReadTwoDigits(Format(t)[..2]); h.Some? && 1 <= h.value <= 12
  {
    ClockRead(t);
    ReadClockPrefix(Clock(t), " of " + Date(t));
    assert Format(t)[..2] == Clock(t)[..2];
  }

  /** The formatted time ends with the four-digit year. */
  lemma YearRoundTrip(t: DateTime)
    requires Valid(t)
    ensures ReadYear(Format(t)) == Some(t.year)
  {
    var words := WeekdayNames[t.weekday] + ", " + MonthNames[t.month - 1] + " " + TwoDigits(t.day) + ", ";
    assert Date(t) == words + FourDigits(t.year);
    ReadYearSuffix(Clock(t), " of " + Date(t));
    ReadYearSuffix(" of ", Date(t));
    ReadYearSuffix(words, FourDigits(t.year));
    FourDigitsRead(t.year);
  }

  lemma FourDigitsRead(n: int)
    requires 0 <= n < 10000
    ensures ReadYear(FourDigits(n)) == Some(n)
  {
    var y := FourDigits(n);
    assert y[..2] == TwoDigits(n / 100) && y[2..] == TwoDigits(n % 100);
    TwoDigitsRead(n / 100);
    TwoDigitsRead(n % 100);
  }

  /** The clock of 8:00 in the morning has the leading zero and the upper-case AM of
      `strftime`, unlike the template's own "8:00 am". */
  lemma ClockExample()
    ensures Clock(DateTime(2024, 7, 11, 8, 0, 3)) == "08:00 AM"
  {
    assert TwoDigits(Hour12(8)) == "08";
    assert TwoDigits(0) == "00";
    assert Meridiem(8) == "AM";
  }

  lemma DateExample()
    ensures Date(DateTime(2024, 7, 11, 8, 0, 3)) == "Thursday, July 11, 2024"
  {
    assert WeekdayNames[3] == "Thursday";
    assert MonthNames[6] == "July";
    assert TwoDigits(11) == "11";
    assert FourDigits(2024) == "2024" by {
      assert TwoDigits(20) == "20" && TwoDigits(24) == "24";
    }
    assert Date(DateTime(2024, 7, 11, 8, 0, 3)) == "Thursday" + ", " + "July" + " " + "11" + ", " + "2024";
  }

  /** "08:00 AM of Thursday, July 11, 2024": the start of the template's own window. */
  lemma FormatExample()
    ensures Format(DateTime(2024, 7, 11, 8, 0, 3)) == "08:00 AM" + (" of " + "Thursday, July 11, 2024")
  {
    ClockExample();
    DateExample();
  }
}
