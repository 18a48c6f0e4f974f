/** Dates, instants and the calendar helpers the reports share: the working
    days of a range (`_laborables`), the `HH:MM` rendering of a duration
    (`_hhmm`), `strptime(s, "%Y-%m-%d")`, the end-of-day bound of the general
    report and the default "current month" range. */
module Calendar {
  import opened Common
  import opened Text

  /** A calendar date as its proleptic Gregorian ordinal (Python's
      `date.toordinal()`): 0001-01-01 is day 1, a Monday. */
  type Date = int

  /** An instant, in whole seconds since 0001-01-01T00:00 UTC. */
  type Instant = int

  const SecondsPerDay: int := 86400

  /** Offset from UTC of the display time zone (Africa/Malabo, UTC+1, no
      daylight saving time). */
  const MalaboOffset: int := 3600

  /** Python's `date.weekday()`: Monday is 0 and Sunday is 6. */
  function Weekday(d: Date): (w: int)
    ensures 0 <= w < 7
  {
    (d + 6) % 7
  }

  /** Monday to Friday. */
  predicate IsWorkingDay(d: Date) {
    Weekday(d) < 5
  }

  /** The local calendar date of an instant in a zone `offset` seconds ahead
      of UTC (Django's `TruncDate` and `timezone.localtime(ts).date()`). */
  function LocalDate(ts: Instant, offset: int): Date {
    (ts + offset) / SecondsPerDay + 1
  }

  /** The first instant of a local date. */
  function DayStart(d: Date, offset: int): Instant {
    (d - 1) * SecondsPerDay - offset
  }

  lemma LocalDateBounds(ts: Instant, d: Date, offset: int)
    ensures LocalDate(ts, offset) == d <==> DayStart(d, offset) <= ts < DayStart(d + 1, offset)
  {
  }

  // ------------------------------------------------------------------------
  // _laborables (reportes/views.py:72-79)

  /** The working days of the inclusive range [d1, d2], ascending. */
  function WorkingDays(d1: Date, d2: Date): seq<Date>
    decreases d2 - d1
  {
    if d1 > d2 then [] else (if IsWorkingDay(d1) then [d1] else []) + WorkingDays(d1 + 1, d2)
  }

  /** The working days of [d1, d2] as a set. */
  function WorkingDaySet(d1: Date, d2: Date): set<Date> {
    set x | d1 <= x <= d2 && IsWorkingDay(x)
  }

  /** A date is listed exactly when it lies in the range and is a weekday. */
  lemma {:induction false} WorkingDaysMember(d1: Date, d2: Date, x: Date)
    ensures x in WorkingDays(d1, d2) <==> d1 <= x <= d2 && IsWorkingDay(x)
    decreases d2 - d1
  {
    if d1 <= d2 {
      WorkingDaysMember(d1 + 1, d2, x);
    }
  }

  /** The list is strictly ascending, so it has no repeats. */
  lemma {:induction false} WorkingDaysAscending(d1: Date, d2: Date)
    ensures forall i, j :: 0 <= i < j < |WorkingDays(d1, d2)| ==> WorkingDays(d1, d2)[i] < WorkingDays(d1, d2)[j]
    decreases d2 - d1
  {
    if d1 <= d2 {
      var w := WorkingDays(d1, d2);
      var rest := WorkingDays(d1 + 1, d2);
      WorkingDaysAscending(d1 + 1, d2);
      forall k | 0 <= k < |rest| ensures rest[k] > d1 {
        WorkingDaysMember(d1 + 1, d2, rest[k]);
      }
    }
  }

  /** The number of working days of a range is the size of its set. */
  lemma {:induction false} WorkingDaysCount(d1: Date, d2: Date)
    ensures |WorkingDaySet(d1, d2)| == |WorkingDays(d1, d2)|
    decreases d2 - d1
  {
    if d1 > d2 {
      assert WorkingDaySet(d1, d2) == {};
    } else {
      WorkingDaysCount(d1 + 1, d2);
      var head: set<Date> := if IsWorkingDay(d1) then {d1} else {};
      assert WorkingDaySet(d1, d2) == head + WorkingDaySet(d1 + 1, d2);
      assert head !! WorkingDaySet(d1 + 1, d2);
    }
  }

  /** Any seven consecutive days hold exactly five working days. */
  lemma WeekHasFiveWorkingDays(d: Date)
    ensures |WorkingDays(d, d + 6)| == 5
  {
    assert WorkingDays(d + 7, d + 6) == [];
    CountStep(d + 6, d + 6);
    CountStep(d + 5, d + 6);
    CountStep(d + 4, d + 6);
    CountStep(d + 3, d + 6);
    CountStep(d + 2, d + 6);
    CountStep(d + 1, d + 6);
    CountStep(d, d + 6);
    WeekdayAfter(d, 1);
    WeekdayAfter(d, 2);
    WeekdayAfter(d, 3);
    WeekdayAfter(d, 4);
    WeekdayAfter(d, 5);
    WeekdayAfter(d, 6);
    FiveOfSeven(Weekday(d));
  }

  /** k days later the weekday has moved on by k. */
  lemma WeekdayAfter(d: Date, k: int)
    ensures Weekday(d + k) == (Weekday(d) + k) % 7
  {
  }

  /** Of the seven weekdays from any starting one, five are working days. */
  lemma FiveOfSeven(w: int)
    requires 0 <= w < 7
    ensures (if w < 5 then 1 else 0) + (if (w + 1) % 7 < 5 then 1 else 0) + (if (w + 2) % 7 < 5 then 1 else 0)
      + (if (w + 3) % 7 < 5 then 1 else 0) + (if (w + 4) % 7 < 5 then 1 else 0)
      + (if (w + 5) % 7 < 5 then 1 else 0) + (if (w + 6) % 7 < 5 then 1 else 0) == 5
  {
  }

  /** The list of a non-empty range is its first day, when a working day,
      before the rest. */
  lemma CountStep(d1: Date, d2: Date)
    requires d1 <= d2
    ensures |WorkingDays(d1, d2)| == (if IsWorkingDay(d1) then 1 else 0) + |WorkingDays(d1 + 1, d2)|
  {
  }

  /** `_laborables(d1, d2)`: walks the range one day at a time and keeps the
      weekdays, returning them as a list and as a set. */
  method Laborables(d1: Date, d2: Date) returns (out: seq<Date>, outSet: set<Date>)
    ensures out == WorkingDays(d1, d2)
    ensures outSet == WorkingDaySet(d1, d2)
    ensures forall x :: x in outSet <==> x in out
    ensures d1 > d2 ==> out == [] && outSet == {}
  {
    var cur := d1;
    out := [];
    while cur <= d2
      invariant d1 <= cur && (cur <= d2 + 1 || cur == d1)
      invariant out + WorkingDays(cur, d2) == WorkingDays(d1, d2)
      decreases d2 - cur
    {
      if Weekday(cur) < 5 {
        out := out + [cur];
      }
      assert WorkingDays(cur, d2) == (if IsWorkingDay(cur) then [cur] else []) + WorkingDays(cur + 1, d2);
      cur := cur + 1;
    }
    outSet := set x | x in out;
    forall x ensures x in outSet <==> x in WorkingDaySet(d1, d2) {
      WorkingDaysMember(d1, d2, x);
    }
  }

  // ------------------------------------------------------------------------
  // _hhmm (reportes/views.py:65-69)

  /** Python's `f"{n:02d}"`: at least two characters, zero-padded; a
      negative number keeps its sign inside the width. */
  function Pad2(n: int): string {
    if 0 <= n < 10 then "0" + NatToStr(n) else IntToStr(n)
  }

  /** `_hhmm(td)` for a duration of `td` whole seconds (None when absent):
      an absent or zero duration is "00:00"; otherwise whole minutes, shown as
      hours and minutes. */
  function Hhmm(td: Option<int>): string {
    if td.None? || td.value == 0 then "00:00"
    else
      var mins := td.value / 60;
      Pad2(mins / 60) + ":" + Pad2(mins % 60)
  }

  lemma {:induction false} LeadingZeroValue(s: string)
    requires AllDigits(s)
    ensures AllDigits("0" + s) && DigitsValue("0" + s) == DigitsValue(s)
    decreases |s|
  {
    var t := "0" + s;
    if |s| > 1 {
      LeadingZeroValue(s[..|s| - 1]);
      assert t[..|t| - 1] == "0" + s[..|s| - 1];
    }
  }

  lemma Pad2Digits(n: nat)
    ensures AllDigits(Pad2(n)) && DigitsValue(Pad2(n)) == n && |Pad2(n)| >= 2
    ensures n < 100 ==> |Pad2(n)| == 2
  {
    NatToStrRoundTrip(n);
    if n < 10 {
      LeadingZeroValue(NatToStr(n));
    } else {
      assert NatToStr(n) == NatToStr(n / 10) + [DigitChar(n % 10)];
    }
  }

  /** Reading the hours and the minutes back from `_hhmm` gives the whole
      minutes of the duration: minutes are two digits below 60 and hours at
      least two digits. */
  lemma HhmmReadsBack(t: nat)
    ensures var r := Hhmm(Some(t));
      && |r| >= 5 && r[|r| - 3] == ':'
      && AllDigits(r[..|r| - 3]) && |r[..|r| - 3]| >= 2
      && AllDigits(r[|r| - 2..]) && DigitsValue(r[|r| - 2..]) < 60
      && DigitsValue(r[..|r| - 3]) * 60 + DigitsValue(r[|r| - 2..]) == t / 60
  {
    var r := Hhmm(Some(t));
    if t == 0 {
      assert r == "00" + ":" + "00";
      Pad2Digits(0);
      assert Pad2(0) == "00";
    } else {
      var mins := t / 60;
      var h := Pad2(mins / 60);
      var m := Pad2(mins % 60);
      Pad2Digits(mins / 60);
      Pad2Digits(mins % 60);
      assert r == h + ":" + m;
      assert r[..|r| - 3] == h;
      assert r[|r| - 2..] == m;
    }
  }

  // ------------------------------------------------------------------------
  // Gregorian ordinals (Python's date arithmetic)

  predicate IsLeap(y: int) {
    y % 4 == 0 && (y % 100 != 0 || y % 400 == 0)
  }

  function DaysInMonth(y: int, m: int): (n: int)
    requires 1 <= m <= 12
    ensures 28 <= n <= 31
  {
    if m == 2 then (if IsLeap(y) then 29 else 28)
    else if m == 4 || m == 6 || m == 9 || m == 11 then 30
    else 31
  }

  /** Days in the years before year `y`. */
  function DaysBeforeYear(y: int): int {
    var p := y - 1;
    p * 365 + p / 4 - p / 100 + p / 400
  }

  /** Days in the months of year `y` before month `m`. */
  function DaysBeforeMonth(y: int, m: int): int
    requires 1 <= m <= 12
  {
    if m == 1 then 0 else DaysBeforeMonth(y, m - 1) + DaysInMonth(y, m - 1)
  }

  /** A date Python's `date` accepts. */
  predicate ValidYmd(y: int, m: int, d: int) {
    1 <= y <= 9999 && 1 <= m <= 12 && 1 <= d <= DaysInMonth(y, m)
  }

  function Ordinal(y: int, m: int, d: int): Date
    requires ValidYmd(y, m, d)
  {
    DaysBeforeYear(y) + DaysBeforeMonth(y, m) + d
  }

  /** The month after (y, m). */
  function NextMonth(y: int, m: int): (int, int)
    requires 1 <= m <= 12
  {
    if m == 12 then (y + 1, 1) else (y, m + 1)
  }

  lemma YearLength(y: int)
    ensures DaysBeforeYear(y + 1) - DaysBeforeYear(y) == if IsLeap(y) then 366 else 365
  {
    QuotientSteps(y);
    MultipleFacts(y);
  }

  /** Each quotient of the leap-year rule grows by one exactly at its
      multiples. */
  lemma QuotientSteps(y: int)
    ensures y / 4 - (y - 1) / 4 == if y % 4 == 0 then 1 else 0
    ensures y / 100 - (y - 1) / 100 == if y % 100 == 0 then 1 else 0
    ensures y / 400 - (y - 1) / 400 == if y % 400 == 0 then 1 else 0
  {
  }

  /** A multiple of 400 is one of 100, and a multiple of 100 one of 4. */
  lemma MultipleFacts(y: int)
    ensures y % 400 == 0 ==> y % 100 == 0
    ensures y % 100 == 0 ==> y % 4 == 0
  {
    if y % 400 == 0 {
      MultipleOf400(y, y / 400);
    }
    if y % 100 == 0 {
      MultipleOf100(y, y / 100);
    }
  }

  lemma MultipleOf400(y: int, q: int)
    requires y == 400 * q
    ensures y % 100 == 0
  {
  }

  lemma MultipleOf100(y: int, q: int)
    requires y == 100 * q
    ensures y % 4 == 0
  {
  }

  lemma DaysBeforeDecember(y: int)
    ensures DaysBeforeMonth(y, 12) + 31 == if IsLeap(y) then 366 else 365
  {
    var f := DaysInMonth(y, 2);
    assert DaysBeforeMonth(y, 2) == 31;
    assert DaysBeforeMonth(y, 3) == 31 + f;
    assert DaysBeforeMonth(y, 4) == 62 + f;
    assert DaysBeforeMonth(y, 5) == 92 + f;
    assert DaysBeforeMonth(y, 6) == 123 + f;
    assert DaysBeforeMonth(y, 7) == 153 + f;
    assert DaysBeforeMonth(y, 8) == 184 + f;
    assert DaysBeforeMonth(y, 9) == 215 + f;
    assert DaysBeforeMonth(y, 10) == 245 + f;
    assert DaysBeforeMonth(y, 11) == 276 + f;
    assert DaysBeforeMonth(y, 12) == 306 + f;
  }

  /** The day after the last day of a month is the first of the next one. */
  lemma MonthEnd(y: int, m: int)
    requires 1 <= y <= 9999 && 1 <= m <= 12 && !(y == 9999 && m == 12)
    ensures var (ny, nm) := NextMonth(y, m);
      ValidYmd(ny, nm, 1) && Ordinal(y, m, DaysInMonth(y, m)) + 1 == Ordinal(ny, nm, 1)
  {
    if m == 12 {
      YearLength(y);
      DaysBeforeDecember(y);
    }
  }

  /** `_range_default_mes_actual()` for a given local date `today`
      (reportes/views.py:47-53): the first day of the month, and the day before
      the first of the month reached by stepping four days past the 28th. */
  function DefaultMonthRange(y: int, m: int, d: int): (r: (Date, Date))
    requires ValidYmd(y, m, d) && !(y == 9999 && m == 12)
  {
    var (ny, nm) := NextMonth(y, m);
    MonthEnd(y, m);
    (Ordinal(y, m, 1), Ordinal(ny, nm, 1) - 1)
  }

  /** The default range is exactly the month of `today`, and the four-days-past
      -the-28th step lands inside the next month, on its day 32 − (days in
      this month), which is between 1 and 4. */
  lemma DefaultMonthRangeIsMonth(y: int, m: int, d: int)
    requires ValidYmd(y, m, d) && !(y == 9999 && m == 12)
    ensures var (ny, nm) := NextMonth(y, m);
      var probe := 32 - DaysInMonth(y, m);
      && 1 <= probe <= 4 && ValidYmd(ny, nm, probe)
      && Ordinal(y, m, 28) + 4 == Ordinal(ny, nm, probe)
    ensures DefaultMonthRange(y, m, d) == (Ordinal(y, m, 1), Ordinal(y, m, DaysInMonth(y, m)))
    ensures Ordinal(y, m, 1) <= Ordinal(y, m, d) <= Ordinal(y, m, DaysInMonth(y, m))
  {
    MonthEnd(y, m);
    var (ny, nm) := NextMonth(y, m);
    var n := DaysInMonth(y, m);
    var probe := 32 - n;
    assert ValidYmd(ny, nm, probe);
    var base := DaysBeforeYear(y) + DaysBeforeMonth(y, m);
    var nbase := DaysBeforeYear(ny) + DaysBeforeMonth(ny, nm);
    assert Ordinal(y, m, 28) == base + 28;
    assert Ordinal(y, m, n) == base + n;
    assert Ordinal(ny, nm, 1) == nbase + 1;
    assert Ordinal(ny, nm, probe) == nbase + probe;
  }

  // ------------------------------------------------------------------------
  // strptime(s, "%Y-%m-%d") (reportes/views.py:37-44, zkmanager/views.py:27-36)

  /** `%m`, the regular expression `1[0-2]|0[1-9]|[1-9]` at the start of `t`:
      the month and the number of characters it takes. */
  function MatchMonth(t: string): Option<(int, nat)> {
    if |t| >= 2 && t[0] == '1' && '0' <= t[1] <= '2' then Some((10 + DigitValue(t[1]), 2))
    else if |t| >= 2 && t[0] == '0' && '1' <= t[1] <= '9' then Some((DigitValue(t[1]), 2))
    else if |t| >= 1 && '1' <= t[0] <= '9' then Some((DigitValue(t[0]), 1))
    else None
  }

  /** `%d`, the regular expression `3[01]|[12]\d|0[1-9]|[1-9]| [1-9]` at the
      start of `t`, first alternative first. */
  function MatchDay(t: string): Option<(int, nat)> {
    if |t| >= 2 && t[0] == '3' && '0' <= t[1] <= '1' then Some((30 + DigitValue(t[1]), 2))
    else if |t| >= 2 && '1' <= t[0] <= '2' && IsDigit(t[1]) then Some((10 * DigitValue(t[0]) + DigitValue(t[1]), 2))
    else if |t| >= 2 && t[0] == '0' && '1' <= t[1] <= '9' then Some((DigitValue(t[1]), 2))
    else if |t| >= 1 && '1' <= t[0] <= '9' then Some((DigitValue(t[0]), 1))
    else if |t| >= 2 && t[0] == ' ' && '1' <= t[1] <= '9' then Some((DigitValue(t[1]), 2))
    else None
  }

  /** The year, month and day `strptime(s, "%Y-%m-%d")` reads, before the
      calendar check; None when the pattern does not match the whole text. */
  function MatchYmd(s: string): Option<(int, int, int)> {
    if |s| < 5 || !AllDigits(s[..4]) || s[4] != '-' then None
    else
      match MatchMonth(s[5..])
      case None => None
      case Some((m, lm)) =>
        var rest := s[5 + lm..];
        if |rest| == 0 || rest[0] != '-' then None
        else
          match MatchDay(rest[1..])
          case None => None
          case Some((d, ld)) =>
            if ld != |rest| - 1 then None else Some((DigitsValue(s[..4]), m, d))
  }

  /** `_parse_date_yyyy_mm_dd(s)`: empty text or text that `strptime` refuses
      (a pattern mismatch or a date that does not exist) gives None. */
  function ParseDate(s: string): (r: Option<Date>)
    ensures r.Some? ==> s != "" && MatchYmd(s).Some?
  {
    if s == "" then None
    else
      match MatchYmd(s)
      case None => None
      case Some((y, m, d)) => if ValidYmd(y, m, d) then Some(Ordinal(y, m, d)) else None
  }

  /** `date.strftime("%Y-%m-%d")`. */
  function FormatDate(y: int, m: int, d: int): string
    requires ValidYmd(y, m, d)
  {
    NatToStr(y) + "-" + Pad2(m) + "-" + Pad2(d)
  }

  lemma FourDigitYear(y: int)
    requires 1000 <= y <= 9999
    ensures |NatToStr(y)| == 4
  {
    assert NatToStr(y) == NatToStr(y / 10) + [DigitChar(y % 10)];
    assert NatToStr(y / 10) == NatToStr(y / 100) + [DigitChar(y / 10 % 10)];
    assert NatToStr(y / 100) == NatToStr(y / 1000) + [DigitChar(y / 100 % 10)];
  }

  lemma Pad2Small(n: int)
    requires 1 <= n <= 31
    ensures Pad2(n) == [DigitChar(n / 10), DigitChar(n % 10)]
  {
    if n >= 10 {
      assert NatToStr(n) == NatToStr(n / 10) + [DigitChar(n % 10)];
    }
  }

  /** Formatting a date and parsing it back gives the same date (for
      four-digit years): the default "today" range of the general report
      parses to today. */
  lemma ParseFormatRoundTrip(y: int, m: int, d: int)
    requires ValidYmd(y, m, d) && 1000 <= y
    ensures ParseDate(FormatDate(y, m, d)) == Some(Ordinal(y, m, d))
  {
    var s := FormatDate(y, m, d);
    FourDigitYear(y);
    NatToStrRoundTrip(y);
    Pad2Small(m);
    Pad2Small(d);
    assert s[..4] == NatToStr(y);
    assert s[4] == '-';
    var t := s[5..];
    assert t == Pad2(m) + "-" + Pad2(d);
    assert MatchMonth(t) == Some((m, 2));
    var rest := s[7..];
    assert rest == "-" + Pad2(d);
    assert MatchDay(rest[1..]) == Some((d, 2));
  }

  /** The general report's `_parse_fecha(s, end)` (reportes/views.py:168-177,
      zkmanager/views.py:27-36): a naive local timestamp in seconds, midnight
      of the date, or one second before the next midnight when `end`. */
  function ParseFecha(s: string, end: bool): Option<Instant> {
    match ParseDate(s)
    case None => None
    case Some(d) => Some((d - 1) * SecondsPerDay + (if end then SecondsPerDay - 1 else 0))
  }

  /** The start and end bounds of one date cover exactly the seconds of that
      local day. */
  lemma ParseFechaCoversDay(s: string, x: int)
    requires ParseDate(s).Some?
    ensures ParseFecha(s, false).Some? && ParseFecha(s, true).Some?
    ensures ParseFecha(s, false).value <= x <= ParseFecha(s, true).value
      <==> LocalDate(x, 0) == ParseDate(s).value
  {
  }

  /** `_parse_rango_request`: both dates or, when either is missing or
      invalid, the current month of `today`. */
  function ParseRango(ini: string, fin: string, y: int, m: int, d: int): (r: (Date, Date))
    requires ValidYmd(y, m, d) && !(y == 9999 && m == 12)
    ensures ParseDate(ini).Some? && ParseDate(fin).Some? ==> r == (ParseDate(ini).value, ParseDate(fin).value)
    ensures ParseDate(ini).None? || ParseDate(fin).None? ==>
      r == (Ordinal(y, m, 1), Ordinal(y, m, DaysInMonth(y, m)))
  {
    DefaultMonthRangeIsMonth(y, m, d);
    var d1 := ParseDate(ini);
    var d2 := ParseDate(fin);
    if d1.None? || d2.None? then DefaultMonthRange(y, m, d) else (d1.value, d2.value)
  }
}
