/**
 * Gregorian calendar arithmetic behind the JavaScript `Date` operations the
 * engine uses. A `Day` is a date at local midnight, counted in days from
 * 1970-01-01 (day 0); an invalid `Date` is `None`.
 */
module Calendar {
  import opened Wrappers
  import opened Strings

  type Day = int

  /** A calendar date: `month` is 1..12 (JavaScript's `getMonth()` is `month - 1`). */
  datatype Civil = Civil(year: int, month: int, day: int)

  predicate IsLeapYear(y: int) { y % 4 == 0 && (y % 100 != 0 || y % 400 == 0) }

  function YearLength(y: int): int { if IsLeapYear(y) then 366 else 365 }

  function DaysInMonth(y: int, m: int): (n: int)
    requires 1 <= m <= 12
    ensures 28 <= n <= 31
    ensures n == 29 <==> m == 2 && IsLeapYear(y)
    ensures n == 28 <==> m == 2 && !IsLeapYear(y)
  {
    if m == 2 then (if IsLeapYear(y) then 29 else 28)
    else if m == 4 || m == 6 || m == 9 || m == 11 then 30
    else 31
  }

  predicate ValidCivil(c: Civil)
  {
    1 <= c.month <= 12 && 1 <= c.day <= DaysInMonth(c.year, c.month)
  }

  /**
   * Days from 1970-01-01 to January 1st of year `y`: the lengths of the
   * years in between, added up forwards from 1970 or subtracted backwards
   * from it (`DaysBeforeYearClosed` gives the closed form).
   */
  function DaysBeforeYear(y: int): int
    decreases if y < 1970 then 1970 - y else y - 1970
  {
    if y == 1970 then 0
    else if y > 1970 then DaysBeforeYear(y - 1) + YearLength(y - 1)
    else DaysBeforeYear(y + 1) - YearLength(y)
  }

  /** Number of leap years among the years before `y` (up to a constant). */
  function LeapsBefore(y: int): int { (y - 1) / 4 - (y - 1) / 100 + (y - 1) / 400 }

  /** Days from January 1st to the 1st of month `m` (13 stands for the next January). */
  function DaysBeforeMonth(y: int, m: int): (n: int)
    requires 1 <= m <= 13
  {
    (367 * m - 362) / 12 + (if m <= 2 then 0 else if IsLeapYear(y) then -1 else -2)
  }

  /** The day number of a calendar date. */
  function DayNumber(c: Civil): Day
    requires 1 <= c.month <= 12
  {
    DaysBeforeYear(c.year) + DaysBeforeMonth(c.year, c.month) + c.day - 1
  }

  /** `getDay()`: 0 is Sunday, 1 Monday, ..., 6 Saturday; 1970-01-01 was a Thursday. */
  function Weekday(d: Day): (w: int)
    ensures 0 <= w < 7
    ensures w == 0 <==> d % 7 == 3
  {
    (d + 4) % 7
  }

  const Sunday := 0
  const Monday := 1

  // ---------------------------------------------------------------------
  // Year and month lengths add up
  // ---------------------------------------------------------------------

  lemma LeapsStep(y: int)
    ensures LeapsBefore(y + 1) == LeapsBefore(y) + (if IsLeapYear(y) then 1 else 0)
  {
    QuarterStep(y);
    CenturyStep(y);
    QuadricentennialStep(y);
    MultiplesNest(y);
  }

  /** A multiple of 400 is one of 100, and a multiple of 100 one of 4. */
  lemma MultiplesNest(y: int)
    ensures y % 400 == 0 ==> y % 100 == 0
    ensures y % 100 == 0 ==> y % 4 == 0
  {
    if y % 400 == 0 {
      var k := y / 400;
      assert y == 400 * k;
    }
    if y % 100 == 0 {
      var k := y / 100;
      assert y == 100 * k;
    }
  }

  /** The quotients by 4, 100 and 400 go up by one exactly at their multiples. */
  lemma QuarterStep(y: int)
    ensures y / 4 - (y - 1) / 4 == (if y % 4 == 0 then 1 else 0)
  {
  }

  lemma CenturyStep(y: int)
    ensures y / 100 - (y - 1) / 100 == (if y % 100 == 0 then 1 else 0)
  {
  }

  lemma QuadricentennialStep(y: int)
    ensures y / 400 - (y - 1) / 400 == (if y % 400 == 0 then 1 else 0)
  {
  }

  /** Consecutive years start `YearLength` days apart. */
  lemma YearStep(y: int)
    ensures DaysBeforeYear(y + 1) == DaysBeforeYear(y) + YearLength(y)
  {
  }

  /** 365 days a year plus one per leap year: the Gregorian count in closed form. */
  lemma {:induction false} DaysBeforeYearClosed(y: int)
    ensures DaysBeforeYear(y) == 365 * (y - 1970) + LeapsBefore(y) - LeapsBefore(1970)
    decreases if y < 1970 then 1970 - y else y - 1970
  {
    if y > 1970 {
      DaysBeforeYearClosed(y - 1);
      LeapsStep(y - 1);
    } else if y < 1970 {
      DaysBeforeYearClosed(y + 1);
      LeapsStep(y);
    }
  }

  /** Later years start strictly later, at least 365 days per year. */
  lemma {:induction false} YearsIncrease(a: int, b: int)
    requires a <= b
    ensures DaysBeforeYear(a) + 365 * (b - a) <= DaysBeforeYear(b)
    decreases b - a
  {
    if a < b {
      YearsIncrease(a, b - 1);
      YearStep(b - 1);
    }
  }

  /** Consecutive months start `DaysInMonth` days apart. */
  lemma MonthStep(y: int, m: int)
    requires 1 <= m <= 12
    ensures DaysBeforeMonth(y, m + 1) == DaysBeforeMonth(y, m) + DaysInMonth(y, m)
  {
  }

  lemma {:induction false} MonthsIncrease(y: int, a: int, b: int)
    requires 1 <= a <= b <= 13
    ensures DaysBeforeMonth(y, a) + 28 * (b - a) <= DaysBeforeMonth(y, b)
    decreases b - a
  {
    if a < b {
      MonthsIncrease(y, a, b - 1);
      MonthStep(y, b - 1);
    }
  }

  lemma MonthsFillYear(y: int)
    ensures DaysBeforeMonth(y, 13) == YearLength(y)
  {
  }

  /** A valid date lies inside its year and inside its month. */
  lemma DayNumberBounds(c: Civil)
    requires ValidCivil(c)
    ensures DaysBeforeYear(c.year) <= DayNumber(c) < DaysBeforeYear(c.year + 1)
    ensures DaysBeforeMonth(c.year, c.month) <= DayNumber(c) - DaysBeforeYear(c.year)
            < DaysBeforeMonth(c.year, c.month + 1)
  {
    YearStep(c.year);
    MonthStep(c.year, c.month);
    MonthsIncrease(c.year, c.month + 1, 13);
  }

  // ---------------------------------------------------------------------
  // From a day number back to the calendar (the getters of Date)
  // ---------------------------------------------------------------------

  function YearUp(n: Day, y: int): (r: int)
    requires DaysBeforeYear(y) <= n
    ensures DaysBeforeYear(r) <= n < DaysBeforeYear(r + 1)
    decreases n - DaysBeforeYear(y)
  {
    YearStep(y);
    if n < DaysBeforeYear(y + 1) then y else YearUp(n, y + 1)
  }

  function YearDown(n: Day, y: int): (r: int)
    requires n < DaysBeforeYear(y + 1)
    ensures DaysBeforeYear(r) <= n < DaysBeforeYear(r + 1)
    decreases DaysBeforeYear(y + 1) - n
  {
    YearStep(y);
    if DaysBeforeYear(y) <= n then y else YearDown(n, y - 1)
  }

  /** The year a day falls in, searched from an estimate of 365.2425 days a year. */
  function YearOf(n: Day): (y: int)
    ensures DaysBeforeYear(y) <= n < DaysBeforeYear(y + 1)
  {
    var guess := 1970 + n * 400 / 146097;
    if DaysBeforeYear(guess) <= n then YearUp(n, guess) else YearDown(n, guess - 1)
  }

  function MonthFrom(y: int, r: int, m: int): (res: int)
    requires 1 <= m <= 12 && DaysBeforeMonth(y, m) <= r < YearLength(y)
    ensures 1 <= res <= 12 && DaysBeforeMonth(y, res) <= r < DaysBeforeMonth(y, res + 1)
    decreases 12 - m
  {
    if r < DaysBeforeMonth(y, m + 1) then m else MonthFrom(y, r, m + 1)
  }

  /** Finds the calendar date of a day number: its year, then its month. */
  function CivilSearch(n: Day): (c: Civil)
    ensures ValidCivil(c) && DayNumber(c) == n
  {
    var y := YearOf(n);
    YearStep(y);
    var r := n - DaysBeforeYear(y);
    var m := MonthFrom(y, r, 1);
    MonthStep(y, m);
    Civil(y, m, r - DaysBeforeMonth(y, m) + 1)
  }

  /** Every day number is the day number of some calendar date. */
  lemma CivilExists(n: Day)
    ensures exists c: Civil :: ValidCivil(c) && DayNumber(c) == n
  {
    var c := CivilSearch(n);
  }

  /**
   * `getFullYear()`, `getMonth() + 1` and `getDate()` of a day: the one
   * calendar date with that day number (unique by `DayNumberInjective`).
   * The contract keeps only the field ranges; that the date has day number
   * `n` is `CivilOfSpec`, called where it is needed, so that proofs about
   * dates do not unfold the day count of every date they mention.
   */
  function CivilOf(n: Day): (c: Civil)
    ensures 1 <= c.month <= 12 && 1 <= c.day <= 31
  {
    CivilExists(n);
    CivilUnique(n);
    var c: Civil :| ValidCivil(c) && DayNumber(c) == n;
    c
  }

  /** The date of a day number is a valid date with that day number. */
  lemma CivilOfSpec(n: Day)
    ensures ValidCivil(CivilOf(n)) && DayNumber(CivilOf(n)) == n
  {
    CivilExists(n);
  }

  /** At most one calendar date has a given day number. */
  lemma CivilUnique(n: Day)
    ensures forall a: Civil, b: Civil :: ValidCivil(a) && DayNumber(a) == n && ValidCivil(b) && DayNumber(b) == n ==> a == b
  {
    forall a: Civil, b: Civil | ValidCivil(a) && DayNumber(a) == n && ValidCivil(b) && DayNumber(b) == n
      ensures a == b
    {
      DayNumberInjective(a, b);
    }
  }

  /** Calendar order is day-number order. */
  lemma DayNumberOrder(a: Civil, b: Civil)
    requires ValidCivil(a) && ValidCivil(b)
    ensures DayNumber(a) < DayNumber(b) <==>
      a.year < b.year || (a.year == b.year && (a.month < b.month || (a.month == b.month && a.day < b.day)))
  {
    DayNumberBounds(a);
    DayNumberBounds(b);
    if a.year < b.year {
      YearsIncrease(a.year + 1, b.year);
    } else if b.year < a.year {
      YearsIncrease(b.year + 1, a.year);
    } else if a.month < b.month {
      MonthsIncrease(a.year, a.month + 1, b.month);
    } else if b.month < a.month {
      MonthsIncrease(a.year, b.month + 1, a.month);
    }
  }

  /** Different dates have different day numbers. */
  lemma DayNumberInjective(a: Civil, b: Civil)
    requires ValidCivil(a) && ValidCivil(b) && DayNumber(a) == DayNumber(b)
    ensures a == b
  {
    DayNumberOrder(a, b);
    DayNumberOrder(b, a);
  }

  /** Reading a date back from its day number gives the date. */
  lemma CivilOfDayNumber(c: Civil)
    requires ValidCivil(c)
    ensures CivilOf(DayNumber(c)) == c
  {
    CivilOfSpec(DayNumber(c));
    DayNumberInjective(CivilOf(DayNumber(c)), c);
  }

  // ---------------------------------------------------------------------
  // new Date(year, monthIndex, day)
  // ---------------------------------------------------------------------

  /** The first day of month `monthIndex` (0-based, any integer) of year `y`, after carrying. */
  function FirstOfMonth(y: int, monthIndex: int): Day
  {
    DayNumber(Civil(y + monthIndex / 12, monthIndex % 12 + 1, 1))
  }

  /**
   * MakeDay of the ECMAScript specification, as `setDate` and `setMonth`
   * apply it to a date's fields: months out of 0..11 carry into the year,
   * days out of the month carry into the following or preceding months.
   */
  function MakeDay(year: int, monthIndex: int, day: int): (d: Day)
    ensures var y, m := year + monthIndex / 12, monthIndex % 12 + 1;
      1 <= day <= DaysInMonth(y, m) ==> d == DayNumber(Civil(y, m, day))
  {
    FirstOfMonth(year, monthIndex) + day - 1
  }

  /** MakeDay names the day `day` of the month reached once the month index has carried into the year. */
  lemma MakeDayCarry(year: int, monthIndex: int, day: int)
    ensures MakeDay(year, monthIndex, day)
            == DayNumber(Civil(year + monthIndex / 12, monthIndex % 12 + 1, day))
    ensures (year + monthIndex / 12) * 12 + (monthIndex % 12 + 1) == year * 12 + monthIndex + 1
  {
  }

  /** `new Date(year, monthIndex, day)`: MakeDay, after a year in 0..99 is read as 1900..1999. */
  function NewDate(year: int, monthIndex: int, day: int): (d: Day)
    ensures !(0 <= year <= 99) ==> d == MakeDay(year, monthIndex, day)
    ensures 0 <= year <= 99 ==> d == MakeDay(1900 + year, monthIndex, day)
  {
    MakeDay(if 0 <= year <= 99 then 1900 + year else year, monthIndex, day)
  }

  /** Days 1 to `n` of a month, `new Date(year, monthIndex, day)` for each. */
  function FirstDaysOfMonth(year: int, monthIndex: int, n: nat): (days: seq<Day>)
    ensures |days| == n
  {
    seq(n, i requires 0 <= i => NewDate(year, monthIndex, i + 1))
  }

  /** Day `d` of the month is element `d - 1` of `FirstDaysOfMonth`. */
  lemma FirstDaysOfMonthAt(year: int, monthIndex: int, n: nat, d: int)
    requires 1 <= d <= n
    ensures FirstDaysOfMonth(year, monthIndex, n)[d - 1] == NewDate(year, monthIndex, d)
  {
  }

  /** `new Date(y, monthIndex, day)` for a month of the year and a year outside 0..99. */
  lemma NewDateInMonth(y: int, monthIndex: int, day: int)
    requires 0 <= monthIndex < 12 && !(0 <= y <= 99)
    ensures NewDate(y, monthIndex, day) == DayNumber(Civil(y, monthIndex + 1, 1)) + day - 1
  {
    MakeDayCarry(y, monthIndex, day);
  }

  /** `d.setDate(d.getDate() + k)` moves the date by exactly `k` days. */
  lemma SetDateShift(d: Day, k: int)
    ensures var c := CivilOf(d); MakeDay(c.year, c.month - 1, c.day + k) == d + k
  {
    var c := CivilOf(d);
    CivilOfSpec(d);
    assert (c.month - 1) / 12 == 0 && (c.month - 1) % 12 == c.month - 1;
  }

  /** A date given in range is the date itself. */
  lemma NewDateOfCivil(c: Civil)
    requires ValidCivil(c) && !(0 <= c.year <= 99)
    ensures NewDate(c.year, c.month - 1, c.day) == DayNumber(c)
    ensures CivilOf(NewDate(c.year, c.month - 1, c.day)) == c
  {
    assert (c.month - 1) / 12 == 0 && (c.month - 1) % 12 == c.month - 1;
    CivilOfDayNumber(c);
  }

  /** Day `k` (0-based) of a month reads back as that month's day `k + 1`. */
  lemma DayOfMonth(y: int, m: int, k: int)
    requires 1 <= m <= 12 && 0 <= k < DaysInMonth(y, m)
    ensures CivilOf(DayNumber(Civil(y, m, 1)) + k) == Civil(y, m, k + 1)
  {
    var c := Civil(y, m, k + 1);
    CivilOfDayNumber(c);
    assert DayNumber(Civil(y, m, 1)) + k == DayNumber(c);
  }

  /** The month after (y, m) starts right after the last day of (y, m). */
  lemma NextMonthStart(y: int, m: int)
    requires 1 <= m <= 12
    ensures FirstOfMonth(y, m) == DayNumber(Civil(y, m, 1)) + DaysInMonth(y, m)
  {
    MonthStep(y, m);
    if m == 12 {
      YearStep(y);
      MonthsFillYear(y);
    }
  }

  /** `new Date(y, monthIndex + 1, 0).getDate()` is the number of days of the month. */
  lemma LastDayOfMonth(y: int, monthIndex: int)
    requires 0 <= monthIndex < 12 && !(0 <= y <= 99)
    ensures NewDate(y, monthIndex + 1, 0) == DayNumber(Civil(y, monthIndex + 1, DaysInMonth(y, monthIndex + 1)))
    ensures CivilOf(NewDate(y, monthIndex + 1, 0)).day == DaysInMonth(y, monthIndex + 1)
  {
    NextMonthStart(y, monthIndex + 1);
    CivilOfDayNumber(Civil(y, monthIndex + 1, DaysInMonth(y, monthIndex + 1)));
  }

  // ---------------------------------------------------------------------
  // new Date("YYYY-MM-DD")
  // ---------------------------------------------------------------------

  predicate IsFullDateShape(s: string)
  {
    |s| == 10 && s[4] == '-' && s[7] == '-'
    && IsDigits(s[..4]) && IsDigits(s[5..7]) && IsDigits(s[8..])
  }

  /**
   * The date of an RFC 3339 `full-date` string (section 5.6 of RFC 3339), or
   * `None` (an invalid `Date`) for any other string, an empty one included.
   */
  function ParseFullDate(s: string): (r: Option<Day>)
    ensures r.Some? ==> IsFullDateShape(s)
  {
    if !IsFullDateShape(s) then None
    else
      var c := Civil(DecimalValue(s[..4]), DecimalValue(s[5..7]), DecimalValue(s[8..]));
      if ValidCivil(c) then Some(DayNumber(c)) else None
  }

  /** Four, two and two digits joined by dashes: the `full-date` text of a date. */
  function FormatFullDate(c: Civil): (s: string)
    requires ValidCivil(c) && 0 <= c.year <= 9999
  {
    Pad(c.year, 4) + "-" + Pad(c.month, 2) + "-" + Pad(c.day, 2)
  }

  /** The numeral of `n` padded on the left with zeros to `width` digits. */
  function Pad(n: nat, width: nat): (s: string)
    requires n < Power10(width)
    ensures |s| == width && IsDigits(s) && DecimalValue(s) == n
  {
    if width == 0 then ""
    else
      var prefix := Pad(n / 10, width - 1);
      var s := prefix + [DigitChar(n % 10)];
      assert s[..|s| - 1] == prefix;
      s
  }

  function Power10(k: nat): nat { if k == 0 then 1 else 10 * Power10(k - 1) }

  /** A string of digits is the padded numeral of its own value. */
  lemma {:induction false} PadOfDigits(t: string)
    requires IsDigits(t)
    ensures DecimalValue(t) < Power10(|t|) && Pad(DecimalValue(t), |t|) == t
  {
    if t != [] {
      var prefix := t[..|t| - 1];
      assert IsDigits(prefix);
      PadOfDigits(prefix);
      assert DecimalValue(t) / 10 == DecimalValue(prefix);
      assert DecimalValue(t) % 10 == DigitValue(t[|t| - 1]);
      assert prefix + [t[|t| - 1]] == t;
    }
  }

  /** Formatting a parsed date gives the parsed text back. */
  lemma FormatParseFullDate(s: string)
    requires ParseFullDate(s).Some?
    ensures var c := CivilOf(ParseFullDate(s).value);
      ValidCivil(c) && 0 <= c.year <= 9999 && FormatFullDate(c) == s
  {
    var c := Civil(DecimalValue(s[..4]), DecimalValue(s[5..7]), DecimalValue(s[8..]));
    CivilOfDayNumber(c);
    FullDateText(s);
  }

  /** A `full-date`-shaped text is its three fields padded back to four, two and two digits. */
  lemma FullDateText(s: string)
    requires IsFullDateShape(s)
    ensures DecimalValue(s[..4]) < 10000 && DecimalValue(s[5..7]) < 100 && DecimalValue(s[8..]) < 100
    ensures Pad(DecimalValue(s[..4]), 4) + "-" + Pad(DecimalValue(s[5..7]), 2) + "-" + Pad(DecimalValue(s[8..]), 2) == s
  {
    PadOfDigits(s[..4]);
    PadOfDigits(s[5..7]);
    PadOfDigits(s[8..]);
    assert s == s[..4] + "-" + s[5..7] + "-" + s[8..];
  }

  /** Parsing the text of a date gives that date back. */
  lemma ParseFormatFullDate(c: Civil)
    requires ValidCivil(c) && 0 <= c.year <= 9999
    ensures ParseFullDate(FormatFullDate(c)) == Some(DayNumber(c))
  {
    var s := FormatFullDate(c);
    assert s[..4] == Pad(c.year, 4);
    assert s[5..7] == Pad(c.month, 2);
    assert s[8..] == Pad(c.day, 2);
  }

  // ---------------------------------------------------------------------
  // Comparisons of possibly invalid dates
  // ---------------------------------------------------------------------

  /** `a < b` on `Date`s: false whenever either is invalid (NaN). */
  predicate Before(a: Option<Day>, b: Option<Day>) { a.Some? && b.Some? && a.value < b.value }

  /** `a <= b` on `Date`s: false whenever either is invalid (NaN). */
  predicate NotAfter(a: Option<Day>, b: Option<Day>) { a.Some? && b.Some? && a.value <= b.value }
}
