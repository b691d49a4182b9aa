/** The reference time of a query: ISO-8601 parsing and the weekday of a Gregorian date. */
module Temporal {
  import opened Prelude
  import opened Text

  /** ISO weekday 1 (Monday) to 7 (Sunday), hour 0 to 23. */
  datatype TemporalInstant = TemporalInstant(dayOfWeek: int, hour: int) {
    predicate InRange() { 1 <= dayOfWeek <= 7 && 0 <= hour <= 23 }
  }

  /** Division of `i64` truncates toward zero. */
  function Quot(a: int, b: int): int
    requires b > 0
  {
    if a >= 0 then a / b else -(-a / b)
  }

  function Rem(a: int, b: int): int
    requires b > 0
  {
    if a >= 0 then a % b else -(-a % b)
  }

  predicate IsLeapYear(year: int) {
    (Rem(year, 4) == 0 && Rem(year, 100) != 0) || Rem(year, 400) == 0
  }

  function DaysInMonth(year: int, month: int): int {
    if month in {1, 3, 5, 7, 8, 10, 12} then 31
    else if month in {4, 6, 9, 11} then 30
    else if month == 2 then if IsLeapYear(year) then 29 else 28
    else 0
  }

  /** Zeller's congruence, with truncating division. */
  function IsoWeekday(year: int, month: int, day: int): int {
    var m := if month < 3 then month + 12 else month;
    var y := if month < 3 then year - 1 else year;
    var k := Rem(y, 100);
    var j := Quot(y, 100);
    var h := Rem(day + Quot(13 * (m + 1), 5) + k + Quot(k, 4) + Quot(j, 4) + 5 * j, 7);
    Rem(h + 5, 7) + 1
  }

  // ------------------------------------------------ the calendar, by counting days

  datatype Date = Date(year: nat, month: int, day: int)

  predicate ValidDate(d: Date) {
    1 <= d.month <= 12 && 1 <= d.day <= DaysInMonth(d.year, d.month)
  }

  /** Days from 1 January of year 0 to 1 January of `year`. */
  function DaysBeforeYear(year: nat): nat {
    if year == 0 then 0 else DaysBeforeYear(year - 1) + if IsLeapYear(year - 1) then 366 else 365
  }

  function DaysBeforeMonth(year: nat, month: nat): nat
    requires 1 <= month <= 12
  {
    if month == 1 then 0 else DaysBeforeMonth(year, month - 1) + DaysInMonth(year, month - 1)
  }

  function DayNumber(d: Date): nat
    requires ValidDate(d)
  {
    DaysBeforeYear(d.year) + DaysBeforeMonth(d.year, d.month) + d.day - 1
  }

  function NextDay(d: Date): (r: Date)
    requires ValidDate(d)
    ensures ValidDate(r)
  {
    if d.day < DaysInMonth(d.year, d.month) then Date(d.year, d.month, d.day + 1)
    else if d.month < 12 then Date(d.year, d.month + 1, 1)
    else Date(d.year + 1, 1, 1)
  }

  lemma MonthTable(year: nat)
    ensures DaysBeforeMonth(year, 1) == 0 && DaysBeforeMonth(year, 2) == 31
    ensures DaysBeforeMonth(year, 3) == 31 + DaysInMonth(year, 2)
  {
    assert DaysBeforeMonth(year, 2) == DaysBeforeMonth(year, 1) + 31;
    assert DaysBeforeMonth(year, 3) == DaysBeforeMonth(year, 2) + DaysInMonth(year, 2);
  }

  /** The length of months 3 to `month - 1`, as Zeller writes it. */
  lemma {:induction false} MonthClosedForm(year: nat, month: nat)
    requires 3 <= month <= 12
    ensures DaysBeforeMonth(year, month) == 31 + DaysInMonth(year, 2) + 28 * (month - 3) + 13 * (month + 1) / 5 - 10
    decreases month
  {
    MonthTable(year);
    if month > 3 {
      MonthClosedForm(year, month - 1);
      assert DaysBeforeMonth(year, month) == DaysBeforeMonth(year, month - 1) + DaysInMonth(year, month - 1);
      assert 13 * (month + 1) / 5 == 13 * month / 5 + DaysInMonth(year, month - 1) - 28;
    }
  }

  /** `DayNumber` counts days: the day after a date has the next number, across month and year ends. */
  lemma DayNumberCountsDays(d: Date)
    requires ValidDate(d)
    ensures DayNumber(NextDay(d)) == DayNumber(d) + 1
  {
    if d.day == DaysInMonth(d.year, d.month) {
      if d.month < 12 {
        assert DaysBeforeMonth(d.year, d.month + 1) == DaysBeforeMonth(d.year, d.month) + DaysInMonth(d.year, d.month);
      } else {
        MonthClosedForm(d.year, 12);
        assert DaysBeforeMonth(d.year, 12) == 306 + DaysInMonth(d.year, 2);
        assert DaysBeforeYear(d.year + 1) == DaysBeforeYear(d.year) + if IsLeapYear(d.year) then 366 else 365;
        assert DaysBeforeMonth(d.year + 1, 1) == 0;
      }
    }
  }

  /** The leap years among 1 to `year`. */
  function LeapYears(year: nat): nat {
    if year == 0 then 0 else LeapYears(year - 1) + if IsLeapYear(year) then 1 else 0
  }

  /** Quotient and remainder are determined by their product and bound. */
  lemma QuotientUnique(a: int, b: int, q: int, r: int)
    requires b > 0 && 0 <= r < b && a == b * q + r
    ensures a / b == q && a % b == r
  {
    var gap := a / b - q;
    MultipleIsFar(b, gap);
    assert b * gap == r - a % b by {
      assert a == b * (a / b) + a % b;
    }
  }

  lemma MultipleIsFar(b: int, gap: int)
    requires b > 0
    ensures gap >= 1 ==> b * gap >= b
    ensures gap <= -1 ==> b * gap <= -b
  {
  }

  lemma LeapYearEuclid(year: nat)
    ensures IsLeapYear(year) <==> year % 400 == 0 || (year % 4 == 0 && year % 100 != 0)
    ensures year % 400 == 0 ==> year % 100 == 0
    ensures year % 100 == 0 ==> year % 4 == 0
  {
    if year % 400 == 0 {
      QuotientUnique(year, 100, 4 * (year / 400), 0);
    }
    if year % 100 == 0 {
      QuotientUnique(year, 4, 25 * (year / 100), 0);
    }
  }

  lemma QuotientSteps(year: nat)
    requires year >= 1
    ensures year / 4 == (year - 1) / 4 + if year % 4 == 0 then 1 else 0
    ensures year / 100 == (year - 1) / 100 + if year % 100 == 0 then 1 else 0
    ensures year / 400 == (year - 1) / 400 + if year % 400 == 0 then 1 else 0
  {
  }

  lemma {:induction false} LeapYearsClosedForm(year: nat)
    ensures LeapYears(year) == year / 4 - year / 100 + year / 400
  {
    if year > 0 {
      LeapYearsClosedForm(year - 1);
      QuotientSteps(year);
      LeapYearEuclid(year);
    }
  }

  lemma {:induction false} DaysBeforeYearForm(year: nat)
    requires year >= 1
    ensures DaysBeforeYear(year) == 365 * year + LeapYears(year - 1) + 1
    decreases year
  {
    if year == 1 {
      assert IsLeapYear(0) && DaysBeforeYear(0) == 0;
    } else {
      DaysBeforeYearForm(year - 1);
    }
  }

  /** The year's share of the congruence, split into century and year of the century. */
  function CenturyTerm(y: nat): nat {
    y % 100 + y % 100 / 4 + y / 100 / 4 + 5 * (y / 100)
  }

  /** Zeller's century split equals counting leap days on the undivided year. */
  lemma CenturySplit(y: nat)
    ensures CenturyTerm(y) % 7 == (y + LeapYears(y)) % 7
  {
    var j, k := y / 100, y % 100;
    QuotientUnique(y, 4, 25 * j + k / 4, k % 4);
    QuotientUnique(y, 400, j / 4, 100 * (j % 4) + k);
    LeapYearsClosedForm(y);
    AddSevens(CenturyTerm(y), 17 * j);
  }

  lemma ZellerUnfolds(year: int, month: int, day: int, y: nat, m: int)
    requires 1 <= month <= 12 && day >= 1
    requires if month < 3 then m == month + 12 && y == year - 1 else m == month && y == year
    ensures IsoWeekday(year, month, day) == ((day + 13 * (m + 1) / 5 + CenturyTerm(y)) % 7 + 5) % 7 + 1
  {
  }

  /** The congruence on the year that starts in March, when that year is not negative. */
  lemma ZellerForm(year: int, month: int, day: int, y: nat, m: int)
    requires 1 <= month <= 12 && day >= 1
    requires if month < 3 then m == month + 12 && y == year - 1 else m == month && y == year
    ensures IsoWeekday(year, month, day) == (day + 13 * (m + 1) / 5 + y + LeapYears(y) + 5) % 7 + 1
  {
    hide CenturyTerm, IsoWeekday, LeapYears;
    ZellerUnfolds(year, month, day, y, m);
    CenturySplit(y);
    var c := day + 13 * (m + 1) / 5;
    SameResidue(c + 5, CenturyTerm(y), y + LeapYears(y));
    ResidueTwice(c + CenturyTerm(y));
  }

  lemma AddSevens(a: int, q: int)
    ensures (a + 7 * q) % 7 == a % 7
  {
  }

  lemma NextResidue(a: int)
    ensures (a + 1) % 7 + 1 == (a % 7 + 1) % 7 + 1
  {
  }

  lemma ResidueTwice(a: int)
    ensures (a % 7 + 5) % 7 == (a + 5) % 7
  {
  }

  lemma SameResidue(c: int, a: int, b: int)
    requires a % 7 == b % 7
    ensures (c + a) % 7 == (c + b) % 7
  {
    assert a == 7 * (a / 7) + a % 7 && b == 7 * (b / 7) + b % 7;
    assert c + a == (c + b) + 7 * (a / 7 - b / 7);
  }

  /** 1 January of year 1 is a Monday, so day number 366 is one. */
  function CalendarWeekday(d: Date): int
    requires ValidDate(d)
  {
    (DayNumber(d) + 5) % 7 + 1
  }

  lemma ZellerTail(d: Date)
    requires ValidDate(d) && d.month >= 3
    ensures IsoWeekday(d.year, d.month, d.day) == CalendarWeekday(d)
  {
    var x := d.day + 13 * (d.month + 1) / 5 + d.year + LeapYears(d.year) + 5;
    ZellerForm(d.year, d.month, d.day, d.year, d.month);
    var sevens := 52 * d.year + 4 * (d.month - 3) + 7;
    assert DayNumber(d) + 5 == x + 7 * sevens by {
      MonthClosedForm(d.year, d.month);
      DaysToMarch(d.year);
    }
    AddSevens(x, sevens);
  }

  /** Days to the first of March. */
  lemma DaysToMarch(year: nat)
    ensures DaysBeforeYear(year) + 31 + DaysInMonth(year, 2) == 365 * year + LeapYears(year) + 60
  {
    if year >= 1 {
      DaysBeforeYearForm(year);
    } else {
      assert IsLeapYear(0) && DaysBeforeYear(0) == 0 && LeapYears(0) == 0;
    }
  }

  lemma ZellerHead(d: Date)
    requires ValidDate(d) && d.month < 3 && d.year >= 1
    ensures IsoWeekday(d.year, d.month, d.day) == CalendarWeekday(d)
  {
    var months := if d.month == 1 then 36 else 39;
    var x := d.day + months + d.year - 1 + LeapYears(d.year - 1) + 5;
    ZellerForm(d.year, d.month, d.day, d.year - 1, d.month + 12);
    var sevens := 52 * d.year + if d.month == 1 then -5 else -1;
    assert DayNumber(d) + 5 == x + 7 * sevens by {
      DaysBeforeYearForm(d.year);
      MonthTable(d.year);
    }
    AddSevens(x, sevens);
  }

  /** January and February of year 0: `-1` truncates to century 0, one day late. */
  lemma ZellerYearZero(d: Date)
    requires ValidDate(d) && d.month < 3 && d.year == 0
    ensures IsoWeekday(d.year, d.month, d.day) == CalendarWeekday(d) % 7 + 1
  {
    MonthTable(0);
    if d.month == 1 {
      assert IsoWeekday(0, 1, d.day) == ((d.day + 35) % 7 + 5) % 7 + 1;
      ResidueTwice(d.day + 35);
      AddSevens(d.day + 5, 5);
      assert DayNumber(d) == d.day - 1;
      NextResidue(d.day + 4);
    } else {
      assert IsoWeekday(0, 2, d.day) == ((d.day + 38) % 7 + 5) % 7 + 1;
      ResidueTwice(d.day + 38);
      AddSevens(d.day + 36, 1);
      assert DayNumber(d) == d.day + 30;
      NextResidue(d.day + 35);
    }
  }

  /**
   * The congruence gives the calendar's weekday on exactly the dates outside
   * January and February of year 0.
   */
  lemma WeekdayCorrect(d: Date)
    requires ValidDate(d)
    ensures IsoWeekday(d.year, d.month, d.day) == CalendarWeekday(d) <==> !(d.year == 0 && d.month < 3)
  {
    if d.month >= 3 {
      ZellerTail(d);
    } else if d.year >= 1 {
      ZellerHead(d);
    } else {
      ZellerYearZero(d);
    }
  }

  lemma CalendarAdvances(d: Date)
    requires ValidDate(d)
    ensures CalendarWeekday(NextDay(d)) == CalendarWeekday(d) % 7 + 1
  {
    hide DayNumber, NextDay;
    DayNumberCountsDays(d);
    NextResidue(DayNumber(d) + 5);
  }

  /** The day after a date has the next weekday, Sunday followed by Monday, from 1 March of year 0 on. */
  lemma WeekdayAdvances(d: Date)
    requires ValidDate(d) && (d.year == 0 ==> d.month >= 3)
    ensures IsoWeekday(NextDay(d).year, NextDay(d).month, NextDay(d).day)
         == IsoWeekday(d.year, d.month, d.day) % 7 + 1
  {
    var next := NextDay(d);
    assert !(next.year == 0 && next.month < 3);
    WeekdayCorrect(d);
    WeekdayCorrect(next);
    CalendarAdvances(d);
  }

  // ------------------------------------------------ parsing

  datatype ParseError = BadLength | BadSeparator | NonNumeric | BadSeconds
    | MonthRange | DayRange | HourRange | MinuteRange | SecondRange

  predicate IsDigit(b: Byte) { '0' as int <= b <= '9' as int }

  predicate Digits(bytes: seq<Byte>, lo: nat, hi: nat)
    requires lo <= hi <= |bytes|
  {
    forall i :: lo <= i < hi ==> IsDigit(bytes[i])
  }

  /** The fold `acc * 10 + digit`. */
  function Field(bytes: seq<Byte>): int {
    if bytes == [] then 0
    else Field(bytes[..|bytes| - 1]) * 10 + (bytes[|bytes| - 1] - '0' as int)
  }

  function ParseIso8601(bytes: seq<Byte>): Result<TemporalInstant, ParseError> {
    var withSeconds := |bytes| == 19;
    if |bytes| != 16 && !withSeconds then Err(BadLength)
    else if bytes[4] != '-' as int || bytes[7] != '-' as int || bytes[10] != 'T' as int || bytes[13] != ':' as int then
      Err(BadSeparator)
    else if !Digits(bytes, 0, 4) || !Digits(bytes, 5, 7) || !Digits(bytes, 8, 10) || !Digits(bytes, 11, 13)
      || !Digits(bytes, 14, 16) then Err(NonNumeric)
    else if withSeconds && (bytes[16] != ':' as int || !Digits(bytes, 17, 19)) then Err(BadSeconds)
    else
      var year := Field(bytes[0..4]);
      var month := Field(bytes[5..7]);
      var day := Field(bytes[8..10]);
      var hour := Field(bytes[11..13]);
      var minute := Field(bytes[14..16]);
      var second := if withSeconds then Field(bytes[17..19]) else 0;
      if !(1 <= month <= 12) then Err(MonthRange)
      else if !(1 <= day <= DaysInMonth(year, month)) then Err(DayRange)
      else if hour > 23 then Err(HourRange)
      else if minute > 59 then Err(MinuteRange)
      else if second > 59 then Err(SecondRange)
      else Ok(TemporalInstant(IsoWeekday(year, month, day), hour))
  }

  /** A date-time as ISO 8601 writes it, with or without seconds. */
  datatype DateTime = DateTime(date: Date, hour: int, minute: int, second: Option<int>)

  predicate ValidDateTime(t: DateTime) {
    && ValidDate(t.date) && t.date.year <= 9999
    && 0 <= t.hour <= 23 && 0 <= t.minute <= 59
    && (t.second.Some? ==> 0 <= t.second.value <= 59)
  }

  function Digit(n: int): Byte
    requires 0 <= n <= 9
  {
    '0' as int + n
  }

  function TwoDigits(n: int): (r: seq<Byte>)
    requires 0 <= n <= 99
    ensures |r| == 2 && IsDigit(r[0]) && IsDigit(r[1]) && Field(r) == n
  {
    var r: seq<Byte> := [Digit(n / 10), Digit(n % 10)];
    assert r[..1] == [Digit(n / 10)] && Field(r[..1][..0]) == 0;
    r
  }

  function FourDigits(n: int): (r: seq<Byte>)
    requires 0 <= n <= 9999
    ensures |r| == 4 && (forall i :: 0 <= i < 4 ==> IsDigit(r[i])) && Field(r) == n
  {
    var high, low := TwoDigits(n / 100), TwoDigits(n % 100);
    FieldSplit(high, low);
    high + low
  }

  /** `YYYY-MM-DDTHH:MM` or `YYYY-MM-DDTHH:MM:SS`. */
  function Print(t: DateTime): (r: seq<Byte>)
    requires ValidDateTime(t)
    ensures |r| == if t.second.Some? then 19 else 16
  {
    FourDigits(t.date.year) + ['-' as int] + TwoDigits(t.date.month) + ['-' as int] + TwoDigits(t.date.day)
    + ['T' as int] + TwoDigits(t.hour) + [':' as int] + TwoDigits(t.minute)
    + match t.second case None => [] case Some(s) => [':' as int] + TwoDigits(s)
  }

  /** Every printed date-time parses, to the hour it shows and the congruence's weekday. */
  lemma PrintedParses(t: DateTime)
    requires ValidDateTime(t)
    ensures ParseIso8601(Print(t))
         == Ok(TemporalInstant(IsoWeekday(t.date.year, t.date.month, t.date.day), t.hour))
  {
    var b := Print(t);
    assert b[0..4] == FourDigits(t.date.year);
    assert b[5..7] == TwoDigits(t.date.month);
    assert b[8..10] == TwoDigits(t.date.day);
    assert b[11..13] == TwoDigits(t.hour);
    assert b[14..16] == TwoDigits(t.minute);
    PrintedDigits(t);
    if t.second.Some? {
      assert b[17..19] == TwoDigits(t.second.value);
    }
  }

  lemma PrintedDigits(t: DateTime)
    requires ValidDateTime(t)
    ensures var b := Print(t);
      && b[4] == b[7] == '-' as int && b[10] == 'T' as int && b[13] == ':' as int
      && Digits(b, 0, 4) && Digits(b, 5, 7) && Digits(b, 8, 10) && Digits(b, 11, 13) && Digits(b, 14, 16)
      && (|b| == 19 ==> b[16] == ':' as int && Digits(b, 17, 19))
  {
  }

  lemma TwoDigitField(b: seq<Byte>)
    requires |b| == 2 && Digits(b, 0, 2)
    ensures 0 <= Field(b) <= 99 && TwoDigits(Field(b)) == b
  {
    assert b[..1][..0] == [] && Field(b[..1]) == b[0] - '0' as int;
  }

  lemma FieldSplit(high: seq<Byte>, low: seq<Byte>)
    requires |low| == 2
    ensures Field(high + low) == 100 * Field(high) + Field(low)
  {
    assert (high + low)[..|high| + 1] == high + [low[0]];
    assert (high + [low[0]])[..|high|] == high;
    assert low[..1] == [low[0]] && low[..1][..0] == [];
    assert Field(low[..1]) == low[0] - '0' as int;
  }

  lemma FourDigitField(b: seq<Byte>)
    requires |b| == 4 && Digits(b, 0, 4)
    ensures 0 <= Field(b) <= 9999 && FourDigits(Field(b)) == b
  {
    var high, low := b[..2], b[2..];
    TwoDigitField(high);
    TwoDigitField(low);
    FieldSplit(high, low);
    assert b == high + low;
    Hundreds(Field(high), Field(low));
    assert Field(b) / 100 == Field(high) && Field(b) % 100 == Field(low);
  }

  lemma Hundreds(h: int, l: int)
    requires 0 <= l <= 99
    ensures (100 * h + l) / 100 == h && (100 * h + l) % 100 == l
  {
  }

  /** The parser accepts exactly the printed valid date-times. */
  lemma ParsesExactlyPrinted(b: seq<Byte>)
    ensures ParseIso8601(b).Ok? <==> exists t :: ValidDateTime(t) && Print(t) == b
  {
    hide Field, IsoWeekday, TwoDigits, FourDigits;
    if ParseIso8601(b).Ok? {
      FourDigitField(b[0..4]);
      TwoDigitField(b[5..7]);
      TwoDigitField(b[8..10]);
      TwoDigitField(b[11..13]);
      TwoDigitField(b[14..16]);
      var date := Date(Field(b[0..4]), Field(b[5..7]), Field(b[8..10]));
      if |b| == 19 {
        TwoDigitField(b[17..19]);
        var t := DateTime(date, Field(b[11..13]), Field(b[14..16]), Some(Field(b[17..19])));
        assert Print(t) == b;
      } else {
        var t := DateTime(date, Field(b[11..13]), Field(b[14..16]), None);
        assert Print(t) == b;
      }
    }
    if t :| ValidDateTime(t) && Print(t) == b {
      PrintedParses(t);
    }
  }

  /** Every parsed instant is in range, and from March of year 0 on its weekday is the calendar's. */
  lemma ParsedInstant(t: DateTime)
    requires ValidDateTime(t)
    ensures ParseIso8601(Print(t)).Ok? && ParseIso8601(Print(t)).value.InRange()
    ensures ParseIso8601(Print(t)).value == TemporalInstant(CalendarWeekday(t.date), t.hour)
       <==> !(t.date.year == 0 && t.date.month < 3)
  {
    PrintedParses(t);
    WeekdayCorrect(t.date);
    WeekdayInRange(t.date);
  }

  lemma WeekdayInRange(d: Date)
    requires ValidDate(d)
    ensures 1 <= IsoWeekday(d.year, d.month, d.day) <= 7
  {
    if d.month >= 3 {
      ZellerTail(d);
    } else if d.year >= 1 {
      ZellerHead(d);
    } else {
      ZellerYearZero(d);
    }
  }
}
