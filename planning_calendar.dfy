/**
 * The planning grid: the Monday-based week, the whole-day difference of two
 * dates, the navigation state (view and anchor date), the visible days and
 * title of each view, and where a stay's bar falls on the visible days.
 */
module PlanningCalendar {
  import opened Wrappers
  import opened Strings
  import opened Calendar
  import opened Types

  /** Column labels, Monday first. */
  const DayNames: seq<string> := ["lun.", "mar.", "mer.", "jeu.", "ven.", "sam.", "dim."]

  const MonthNames: seq<string> := ["Janvier", "Février", "Mars", "Avril", "Mai", "Juin", "Juillet",
                                    "Août", "Septembre", "Octobre", "Novembre", "Décembre"]

  /** The French name of month 1..12. */
  function MonthName(month: int): string
    requires 1 <= month <= 12
  {
    MonthNames[month - 1]
  }

  // ---------------------------------------------------------------------
  // Start of week
  // ---------------------------------------------------------------------

  /** The Monday on or before `d`: the first day of `d`'s Monday-to-Sunday week. */
  function WeekStart(d: Day): (m: Day)
    ensures Weekday(m) == Monday && m <= d <= m + 6
    ensures Weekday(d) == Sunday ==> m == d - 6
  {
    d - (Weekday(d) + 6) % 7
  }

  /**
   * `getStartOfWeek`: copy the date, drop the time of day, then set the day
   * of month to `getDate() - getDay() + (getDay() == 0 ? -6 : 1)`, letting
   * the date carry into the previous month when that is zero or negative.
   */
  method GetStartOfWeek(date: Day) returns (start: Day)
    ensures start == WeekStart(date)
  {
    var d := date;
    var day := Weekday(d);
    var c := CivilOf(d);
    var diff := c.day - day + (if day == 0 then -6 else 1);
    SetDateShift(d, diff - c.day);
    BackToMonday(day);
    d := MakeDay(c.year, c.month - 1, diff);
    start := d;
  }

  /** Days back from weekday `w` to the Monday before it. */
  lemma BackToMonday(w: int)
    requires 0 <= w < 7
    ensures (w + 6) % 7 == (if w == 0 then 6 else w - 1)
  {
  }

  /** The `i`-th day after a Monday is column `i` of a Monday-first week. */
  lemma WeekdayAfterMonday(m: Day, i: int)
    requires Weekday(m) == Monday && 0 <= i < 7
    ensures (Weekday(m + i) + 6) % 7 == i
  {
    assert (m + 4) % 7 == 1;
  }

  /** The week start is the only Monday among the seven days ending at `d`. */
  lemma WeekStartUnique(d: Day, m: Day)
    requires Weekday(m) == Monday && m <= d <= m + 6
    ensures m == WeekStart(d)
  {
    var w := WeekStart(d);
    assert (m + 4) % 7 == 1 && (w + 4) % 7 == 1;
    assert -6 <= m - w <= 6;
    assert (m - w) % 7 == 0;
  }

  /** Taking the week start of a week start changes nothing. */
  lemma WeekStartIdempotent(d: Day)
    ensures WeekStart(WeekStart(d)) == WeekStart(d)
  {
    WeekStartUnique(WeekStart(d), WeekStart(d));
  }

  // ---------------------------------------------------------------------
  // Whole-day difference
  // ---------------------------------------------------------------------

  const MsPerDay: int := 1000 * 60 * 60 * 24

  /** Outside years 0..99 a date is not renumbered by `Date.UTC`. */
  predicate PlainYear(d: Day) { !(0 <= CivilOf(d).year <= 99) }

  /**
   * The day `Date.UTC(getFullYear(), getMonth(), getDate())` stands for:
   * like the `Date` constructor, `Date.UTC` reads a year in 0..99 as
   * 1900..1999, and leaves every other date where it is.
   */
  function UtcDay(d: Day): (u: int)
    ensures PlainYear(d) ==> u == d
  {
    var c := CivilOf(d);
    SetDateShift(d, 0);
    MakeDay(if 0 <= c.year <= 99 then 1900 + c.year else c.year, c.month - 1, c.day)
  }

  /**
   * `dateDiffInDays(a, b)`: the floor of the difference of the two UTC
   * midnights, in milliseconds, divided by a day's length. The division is
   * exact, so the result is the difference of the UTC days, which is
   * `b - a` whenever neither date lies in years 0..99.
   */
  function DateDiffInDays(a: Day, b: Day): (r: int)
    ensures r == UtcDay(b) - UtcDay(a)
    ensures PlainYear(a) && PlainYear(b) ==> r == b - a
  {
    ExactDays(UtcDay(a), UtcDay(b));
    (UtcDay(b) * MsPerDay - UtcDay(a) * MsPerDay) / MsPerDay
  }

  lemma ExactDays(x: int, y: int)
    ensures (y * MsPerDay - x * MsPerDay) / MsPerDay == y - x
  {
    assert y * MsPerDay - x * MsPerDay == (y - x) * MsPerDay;
  }

  /** The difference is zero on equal dates, antisymmetric and additive, for all dates. */
  lemma DateDiffLaws(a: Day, b: Day, c: Day)
    ensures DateDiffInDays(a, a) == 0
    ensures DateDiffInDays(a, b) == -DateDiffInDays(b, a)
    ensures DateDiffInDays(a, b) + DateDiffInDays(b, c) == DateDiffInDays(a, c)
  {
  }

  /** A date on or after a date of year 100 or later is of year 100 or later. */
  lemma LaterYear(base: Day, d: Day)
    requires CivilOf(base).year >= 100 && base <= d
    ensures CivilOf(d).year >= 100 && PlainYear(d)
  {
    if base < d {
      CivilOfSpec(base);
      CivilOfSpec(d);
      DayNumberOrder(CivilOf(base), CivilOf(d));
    }
  }

  // ---------------------------------------------------------------------
  // Navigation
  // ---------------------------------------------------------------------

  /** `setDate(getDate() + 7 * k)`: exactly `k` weeks later. */
  function ShiftWeeks(d: Day, k: int): (r: Day)
    ensures r == d + 7 * k
  {
    var c := CivilOf(d);
    SetDateShift(d, 7 * k);
    MakeDay(c.year, c.month - 1, c.day + 7 * k)
  }

  /**
   * `setMonth(getMonth() + k)` as written: the day of month is kept, so a
   * day the target month does not have carries into the month after it.
   */
  function ShiftMonthsAsWritten(d: Day, k: int): Day
  {
    var c := CivilOf(d);
    MakeDay(c.year, c.month - 1 + k, c.day)
  }

  /** From January 31st, one step forward lands in March: February is skipped. */
  lemma MonthSkippedAsWritten(y: int)
    ensures CivilOf(ShiftMonthsAsWritten(DayNumber(Civil(y, 1, 31)), 1)) == Civil(y, 3, 31 - DaysInMonth(y, 2))
  {
    CivilOfDayNumber(Civil(y, 1, 31));
    NextMonthStart(y, 2);
    CivilOfDayNumber(Civil(y, 3, 31 - DaysInMonth(y, 2)));
  }

  /**
   * The month step the navigation means: `k` calendar months later, the day
   * of month kept when the target month has it and clamped to its last day
   * otherwise.
   */
  function ShiftMonths(d: Day, k: int): (r: Day)
    ensures var c, t := CivilOf(d), CivilOf(r);
      t.year * 12 + t.month == c.year * 12 + c.month + k
      && t.day == (if c.day <= DaysInMonth(t.year, t.month) then c.day else DaysInMonth(t.year, t.month))
  {
    var c := CivilOf(d);
    var monthIndex := c.month - 1 + k;
    var y, m := c.year + monthIndex / 12, monthIndex % 12 + 1;
    var day := if c.day <= DaysInMonth(y, m) then c.day else DaysInMonth(y, m);
    MakeDayCarry(c.year, monthIndex, day);
    CivilOfDayNumber(Civil(y, m, day));
    MakeDay(c.year, monthIndex, day)
  }

  /** A month counted from year 0 names one year and one month. */
  lemma SameMonthCount(y1: int, m1: int, y2: int, m2: int)
    requires 1 <= m1 <= 12 && 1 <= m2 <= 12 && y1 * 12 + m1 == y2 * 12 + m2
    ensures y1 == y2 && m1 == m2
  {
  }

  /**
   * Going `k` months and back returns to the same month, and to the same
   * date when its day exists in every month.
   */
  lemma ShiftMonthsRoundTrip(d: Day, k: int)
    ensures var c, t := CivilOf(d), CivilOf(ShiftMonths(ShiftMonths(d, k), -k));
      t.year == c.year && t.month == c.month
    ensures CivilOf(d).day <= 28 ==> ShiftMonths(ShiftMonths(d, k), -k) == d
  {
    var there := ShiftMonths(d, k);
    var back := ShiftMonths(there, -k);
    var c, t := CivilOf(d), CivilOf(back);
    CivilOfSpec(d);
    SameMonthCount(t.year, t.month, c.year, c.month);
    if c.day <= 28 {
      assert t == c;
    }
  }

  /**
   * The month step as written overshoots the intended one by the days the
   * target month lacks: it is the clamped date plus the clamped-away days,
   * and the same date whenever the target month has the anchor's day.
   */
  lemma ShiftMonthsAsWrittenClamp(d: Day, k: int)
    ensures ShiftMonthsAsWritten(d, k) == ShiftMonths(d, k) + CivilOf(d).day - CivilOf(ShiftMonths(d, k)).day
    ensures CivilOf(d).day <= 28 ==> ShiftMonthsAsWritten(d, k) == ShiftMonths(d, k)
  {
    var c := CivilOf(d);
    var monthIndex := c.month - 1 + k;
    var y, m := c.year + monthIndex / 12, monthIndex % 12 + 1;
    var day := if c.day <= DaysInMonth(y, m) then c.day else DaysInMonth(y, m);
    MakeDayCarry(c.year, monthIndex, day);
    CivilOfDayNumber(Civil(y, m, day));
  }

  /** The planning's navigation state: the view and the date it is anchored on. */
  class CalendarController {
    var view: CalendarView
    var currentDate: Day

    /** The planning opens on the month view of July 2025. */
    constructor()
      ensures view == Month && currentDate == NewDate(2025, 6, 1)
    {
      view := Month;
      currentDate := NewDate(2025, 6, 1);
    }

    /** The view buttons change the view and keep the anchor. */
    method SetView(v: CalendarView)
      modifies this
      ensures view == v && currentDate == old(currentDate)
    {
      view := v;
    }

    /**
     * One month back in month view (`setMonth(getMonth() - 1)`, keeping the
     * day of month), one week back otherwise.
     */
    method HandlePrev()
      modifies this
      ensures view == old(view)
      ensures view == Month ==> currentDate == ShiftMonthsAsWritten(old(currentDate), -1)
      ensures view != Month ==> currentDate == old(currentDate) - 7
    {
      var newDate := currentDate;
      if view == Month {
        newDate := ShiftMonthsAsWritten(newDate, -1);
      } else {
        newDate := ShiftWeeks(newDate, -1);
      }
      currentDate := newDate;
    }

    /**
     * One month forward in month view (`setMonth(getMonth() + 1)`, keeping
     * the day of month), one week forward otherwise.
     */
    method HandleNext()
      modifies this
      ensures view == old(view)
      ensures view == Month ==> currentDate == ShiftMonthsAsWritten(old(currentDate), 1)
      ensures view != Month ==> currentDate == old(currentDate) + 7
    {
      var newDate := currentDate;
      if view == Month {
        newDate := ShiftMonthsAsWritten(newDate, 1);
      } else {
        newDate := ShiftWeeks(newDate, 1);
      }
      currentDate := newDate;
    }
  }

  /** Outside the month view, next then previous brings the anchor back. */
  method WeekNextPrev(cal: CalendarController)
    requires cal.view != Month
    modifies cal
    ensures cal.view == old(cal.view) && cal.currentDate == old(cal.currentDate)
  {
    cal.HandleNext();
    cal.HandlePrev();
  }

  /**
   * In the month view, next then previous brings back an anchor whose day
   * of month is at most 28 (every month has that day).
   */
  method MonthNextPrev(cal: CalendarController)
    requires cal.view == Month
    modifies cal
    ensures cal.view == Month
    ensures CivilOf(old(cal.currentDate)).day <= 28 ==> cal.currentDate == old(cal.currentDate)
  {
    ghost var anchor := cal.currentDate;
    MonthRoundTripAsWritten(anchor);
    cal.HandleNext();
    cal.HandlePrev();
  }

  /** `setMonth` one month forward then back returns to an anchor whose day of month is at most 28. */
  lemma MonthRoundTripAsWritten(anchor: Day)
    ensures CivilOf(anchor).day <= 28 ==> ShiftMonthsAsWritten(ShiftMonthsAsWritten(anchor, 1), -1) == anchor
  {
    if CivilOf(anchor).day <= 28 {
      ShiftMonthsAsWrittenClamp(anchor, 1);
      ShiftMonthsAsWrittenClamp(ShiftMonths(anchor, 1), -1);
      ShiftMonthsRoundTrip(anchor, 1);
    }
  }

  /** As written, from January 31st next then previous ends in February, not January. */
  lemma MonthRoundTripAsWrittenLeavesMonth(y: int)
    ensures CivilOf(ShiftMonthsAsWritten(ShiftMonthsAsWritten(DayNumber(Civil(y, 1, 31)), 1), -1))
            == Civil(y, 2, 31 - DaysInMonth(y, 2))
  {
    var e := 31 - DaysInMonth(y, 2);
    var there := ShiftMonthsAsWritten(DayNumber(Civil(y, 1, 31)), 1);
    MonthSkippedAsWritten(y);
    assert CivilOf(there) == Civil(y, 3, e);
    assert ShiftMonthsAsWritten(there, -1) == MakeDay(y, 1, e);
    MakeDayCarry(y, 1, e);
    assert MakeDay(y, 1, e) == DayNumber(Civil(y, 2, e));
    CivilOfDayNumber(Civil(y, 2, e));
  }

  // ---------------------------------------------------------------------
  // Visible days and title
  // ---------------------------------------------------------------------

  /** The columns of the grid and the caption above it. */
  datatype Window = Window(days: seq<Day>, title: string)

  /** Each visible day is the one before it plus one. */
  predicate Consecutive(days: seq<Day>)
  {
    forall i :: 0 <= i < |days| ==> days[i] == days[0] + i
  }

  /** The month view's days: `new Date(year, month, i + 1)` for `i` below the month's length. */
  function MonthDays(anchor: Day): (days: seq<Day>)
    ensures PlainYear(anchor) ==> var c := CivilOf(anchor);
      |days| == DaysInMonth(c.year, c.month)
      && forall i :: 0 <= i < |days| ==> CivilOf(days[i]) == Civil(c.year, c.month, i + 1)
  {
    var c := CivilOf(anchor);
    var year, month := c.year, c.month - 1;
    var daysInMonth := CivilOf(NewDate(year, month + 1, 0)).day;
    if PlainYear(anchor) then
      WholeMonth(c.year, c.month);
      FirstDaysOfMonth(year, month, daysInMonth)
    else FirstDaysOfMonth(year, month, daysInMonth)
  }

  /** Outside years 0..99, the days 1 up to day 0 of the next month are the month's days, in order. */
  lemma WholeMonth(y: int, m: int)
    requires 1 <= m <= 12 && !(0 <= y <= 99)
    ensures var days := FirstDaysOfMonth(y, m - 1, CivilOf(NewDate(y, m, 0)).day);
      |days| == DaysInMonth(y, m)
      && forall i :: 0 <= i < |days| ==> CivilOf(days[i]) == Civil(y, m, i + 1)
  {
    LastDayOfMonth(y, m - 1);
    var days := FirstDaysOfMonth(y, m - 1, CivilOf(NewDate(y, m, 0)).day);
    forall i | 0 <= i < |days|
      ensures CivilOf(days[i]) == Civil(y, m, i + 1)
    {
      DayOfMonthNamed(y, m, i + 1);
    }
  }

  /** Outside years 0..99, `new Date(y, m - 1, d)` of a day the month has is that calendar date. */
  lemma DayOfMonthNamed(y: int, m: int, d: int)
    requires 1 <= m <= 12 && !(0 <= y <= 99) && 1 <= d <= DaysInMonth(y, m)
    ensures CivilOf(NewDate(y, m - 1, d)) == Civil(y, m, d)
  {
    assert (m - 1) / 12 == 0 && (m - 1) % 12 + 1 == m;
    CivilOfDayNumber(Civil(y, m, d));
  }

  /** "Juillet 2025". */
  function MonthTitle(anchor: Day): (title: string)
    ensures var c := CivilOf(anchor); var name := MonthName(c.month);
      |name| + 1 < |title| && title[..|name|] == name && title[|name|] == ' '
      && NumberOf(title[|name| + 1..]) == Some(c.year)
  {
    var c := CivilOf(anchor);
    var name := MonthName(c.month);
    NameThenYear(name, c.year);
    name + " " + IntToDecimal(c.year)
  }

  /** A name, a space and a year's numeral: the name comes first and the year reads back. */
  lemma NameThenYear(name: string, year: int)
    ensures var title := name + " " + IntToDecimal(year);
      |name| + 1 < |title| && title[..|name|] == name && title[|name|] == ' '
      && NumberOf(title[|name| + 1..]) == Some(year)
  {
    var title := name + " " + IntToDecimal(year);
    assert title[..|name|] == name && title[|name| + 1..] == IntToDecimal(year);
    NumberOfDecimal(year);
  }

  function MonthWindow(anchor: Day): Window
  {
    Window(MonthDays(anchor), MonthTitle(anchor))
  }

  /** Column `i` of the month view is day `i + 1` of the anchor's month. */
  lemma MonthDay(anchor: Day, i: int)
    requires PlainYear(anchor)
    ensures var c := CivilOf(anchor);
      |MonthDays(anchor)| == DaysInMonth(c.year, c.month)
      && (0 <= i < |MonthDays(anchor)| ==>
            MonthDays(anchor)[i] == DayNumber(Civil(c.year, c.month, 1)) + i
            && CivilOf(MonthDays(anchor)[i]) == Civil(c.year, c.month, i + 1))
  {
    var c := CivilOf(anchor);
    var days := MonthDays(anchor);
    CivilOfSpec(anchor);
    LastDayOfMonth(c.year, c.month - 1);
    assert |days| == DaysInMonth(c.year, c.month);
    if 0 <= i < |days| {
      var first := DayNumber(Civil(c.year, c.month, 1));
      NewDateInMonth(c.year, c.month - 1, i + 1);
      assert days[i] == first + i;
      DayOfMonth(c.year, c.month, i);
    }
  }

  /**
   * The month view lists the anchor's month from its 1st to its last day,
   * one column per day, and names the month and the year.
   */
  lemma MonthWindowDays(anchor: Day)
    requires PlainYear(anchor)
    ensures var c, w := CivilOf(anchor), MonthWindow(anchor);
      |w.days| == DaysInMonth(c.year, c.month) && c.day <= |w.days|
      && (forall i :: 0 <= i < |w.days| ==> CivilOf(w.days[i]) == Civil(c.year, c.month, i + 1))
      && Consecutive(w.days)
      && w.days[c.day - 1] == anchor
      && w.title == MonthName(c.month) + " " + IntToDecimal(c.year)
  {
    var c, days := CivilOf(anchor), MonthDays(anchor);
    CivilOfSpec(anchor);
    MonthDay(anchor, 0);
    forall i | 0 <= i < |days|
      ensures days[i] == days[0] + i
      ensures CivilOf(days[i]) == Civil(c.year, c.month, i + 1)
    {
      MonthDay(anchor, i);
    }
    MonthDay(anchor, c.day - 1);
  }

  /** The week view's days: a copy of `getStartOfWeek(anchor)` moved by `setDate` 0 to 6 days. */
  function WeekDays(anchor: Day): (days: seq<Day>)
    ensures |days| == 7 && forall i :: 0 <= i < 7 ==> days[i] == WeekStart(anchor) + i
  {
    var m := WeekStart(anchor);
    var s := CivilOf(m);
    var days := seq(7, i requires 0 <= i => MakeDay(s.year, s.month - 1, s.day + i));
    assert forall i :: 0 <= i < 7 ==> days[i] == m + i by {
      forall i | 0 <= i < 7
        ensures days[i] == m + i
      {
        SetDateShift(m, i);
      }
    }
    days
  }

  /** "29 Décembre 2025 - 4 Janvier 2026", the first year shown only when the two differ. */
  function WeekTitleOf(first: Day, last: Day): (title: string)
    ensures var s, e := CivilOf(first), CivilOf(last);
      var head, year := DayAndMonth(s), IntToDecimal(e.year);
      |head| + |year| < |title| && title[..|head|] == head && title[|title| - |year| - 1] == ' '
      && NumberOf(title[|title| - |year|..]) == Some(e.year)
  {
    var s, e := CivilOf(first), CivilOf(last);
    var head := DayAndMonth(s);
    var middle := (if s.year != e.year then " " + IntToDecimal(s.year) else "") + " - " + DayAndMonth(e);
    HeadThenYear(head, middle, e.year);
    head + middle + " " + IntToDecimal(e.year)
  }

  /** A text that starts with `head` and ends with a space and a year's numeral: the year reads back. */
  lemma HeadThenYear(head: string, middle: string, year: int)
    ensures var numeral, title := IntToDecimal(year), head + middle + " " + IntToDecimal(year);
      |head| + |numeral| < |title| && title[..|head|] == head && title[|title| - |numeral| - 1] == ' '
      && NumberOf(title[|title| - |numeral|..]) == Some(year)
  {
    var numeral := IntToDecimal(year);
    var title := head + middle + " " + numeral;
    assert title[..|head|] == head && title[|title| - |numeral|..] == numeral;
    NumberOfDecimal(year);
  }

  function WeekWindow(anchor: Day): Window
  {
    var days := WeekDays(anchor);
    Window(days, WeekTitleOf(WeekStart(anchor), days[6]))
  }

  /** "14 Juillet". */
  function DayAndMonth(c: Civil): string
    requires 1 <= c.month <= 12 && 1 <= c.day
  {
    NatToDecimal(c.day) + " " + MonthName(c.month)
  }

  /** The week view lists the seven days Monday to Sunday of the anchor's week. */
  lemma WeekWindowDays(anchor: Day)
    ensures var days := WeekWindow(anchor).days;
      |days| == 7
      && (forall i :: 0 <= i < 7 ==> days[i] == WeekStart(anchor) + i)
      && Consecutive(days)
      && anchor in days
  {
    var days, m := WeekDays(anchor), WeekStart(anchor);
    forall i | 0 <= i < 7
      ensures days[i] == m + i
    {
      WeekDay(anchor, i);
    }
    assert Consecutive(days);
    assert days[anchor - m] == anchor;
  }

  /**
   * Seven days from a Monday to a Sunday: column `i` is a `(i + 1)`-th
   * weekday, so it is rightly headed `DayNames[i]`.
   */
  predicate MondayFirst(days: seq<Day>)
  {
    |days| == 7 && forall i :: 0 <= i < 7 ==> (Weekday(days[i]) + 6) % 7 == i
  }

  /** The week view's columns are headed "lun." to "dim.", in that order: column `i` gets `DayNames[i]`. */
  lemma WeekHeaders(anchor: Day)
    ensures MondayFirst(WeekWindow(anchor).days)
  {
    var days := WeekDays(anchor);
    forall i | 0 <= i < 7
      ensures (Weekday(days[i]) + 6) % 7 == i
    {
      WeekDay(anchor, i);
    }
    assert MondayFirst(days);
    assert WeekWindow(anchor).days == days;
  }

  /** Column `i` of the week view is `i` days after the week start, and a `(i + 1)`-th weekday. */
  lemma WeekDay(anchor: Day, i: int)
    requires 0 <= i < 7
    ensures WeekDays(anchor)[i] == WeekStart(anchor) + i
    ensures (Weekday(WeekDays(anchor)[i]) + 6) % 7 == i
  {
    var m := WeekStart(anchor);
    SetDateShift(m, i);
    WeekdayAfterMonday(m, i);
  }

  /**
   * The week title is built from the Monday and the Sunday of the week;
   * their years differ, and the title then carries the Monday's year too,
   * only for a week running from December into January.
   */
  lemma WeekTitle(anchor: Day)
    ensures var m := WeekStart(anchor);
      var s, e := CivilOf(m), CivilOf(m + 6);
      WeekWindow(anchor).title == WeekTitleOf(m, m + 6)
      && (s.year != e.year ==> e.year == s.year + 1 && s.month == 12 && e.month == 1)
  {
    WeekTitleText(anchor);
    YearTurn(WeekStart(anchor), 6);
  }

  lemma WeekTitleText(anchor: Day)
    ensures WeekWindow(anchor).title == WeekTitleOf(WeekStart(anchor), WeekStart(anchor) + 6)
  {
    WeekDay(anchor, 6);
  }

  /** Within a week, the year changes only from December 31st or earlier into January. */
  lemma YearTurn(a: Day, k: int)
    requires 0 <= k <= 6
    ensures var s, e := CivilOf(a), CivilOf(a + k);
      s.year != e.year ==> e.year == s.year + 1 && s.month == 12 && e.month == 1
  {
    var s, e := CivilOf(a), CivilOf(a + k);
    CivilOfSpec(a);
    CivilOfSpec(a + k);
    if s.year != e.year {
      DatesYearTurn(s, e, k);
    }
  }

  /** Two dates at most six days apart in different years are a December date and a January date of the next year. */
  lemma DatesYearTurn(s: Civil, e: Civil, k: int)
    requires ValidCivil(s) && ValidCivil(e) && 0 <= k <= 6
    requires DayNumber(e) == DayNumber(s) + k && s.year != e.year
    ensures e.year == s.year + 1 && s.month == 12 && e.month == 1
  {
    DayNumberBounds(s);
    DayNumberBounds(e);
    YearStep(s.year);
    if e.year < s.year {
      YearsIncrease(e.year + 1, s.year);
      assert false;
    }
    if e.year > s.year + 1 {
      YearsIncrease(s.year + 1, e.year);
      assert false;
    }
    MonthsIncrease(s.year, s.month + 1, 13);
    if e.month > 1 {
      MonthsIncrease(e.year, 2, e.month);
    }
  }

  /** The visible window of a view; the disabled year view falls through to the week view. */
  function VisibleWindow(view: CalendarView, anchor: Day): Window
  {
    if view == Month then MonthWindow(anchor) else WeekWindow(anchor)
  }

  /** Every view shows at least one day, consecutive days, and the anchor among them. */
  lemma VisibleWindowShape(view: CalendarView, anchor: Day)
    requires PlainYear(anchor)
    ensures var w := VisibleWindow(view, anchor);
      |w.days| >= 7 && Consecutive(w.days) && anchor in w.days
  {
    if view == Month {
      MonthWindowDays(anchor);
      var c := CivilOf(anchor);
      assert MonthWindow(anchor).days[c.day - 1] == anchor;
    } else {
      WeekWindowDays(anchor);
    }
  }

  // ---------------------------------------------------------------------
  // Stay bars
  // ---------------------------------------------------------------------

  /**
   * Where a stay is drawn, in columns: `Hidden` when nothing is drawn,
   * `Bar(offset, duration)` for a bar over columns `offset` to
   * `offset + duration - 1`, `Unplaced` for a bar whose position is NaN
   * (one bound is an invalid date while the other does not hide it).
   */
  datatype StayBar = Hidden | Bar(offset: int, duration: int) | Unplaced

  /**
   * The bar of a stay as written, from the visible days, the stay's parsed
   * bounds and whether its resident is known: the stay is dropped when it
   * ends on or before the first visible day, starts after the last one, or
   * belongs to no known resident; otherwise it is clipped to the first
   * visible day and to the last visible day (not the day after it), and
   * dropped when the clipped duration is not positive.
   */
  function BarAsWritten(days: seq<Day>, stayStart: Option<Day>, stayEnd: Option<Day>, known: bool): StayBar
    requires |days| >= 1
  {
    var viewStart, lastDay := days[0], days[|days| - 1];
    if (stayEnd.Some? && stayEnd.value <= viewStart) || (stayStart.Some? && stayStart.value > lastDay) then Hidden
    else if !known then Hidden
    else if stayStart.None? || stayEnd.None? then Unplaced
    else
      var effectiveStart := if stayStart.value < viewStart then viewStart else stayStart.value;
      var effectiveEnd := if stayEnd.value > lastDay then lastDay else stayEnd.value;
      var duration := DateDiffInDays(effectiveStart, effectiveEnd);
      if duration <= 0 then Hidden else Bar(DateDiffInDays(viewStart, effectiveStart), duration)
  }

  /** The bar of one stay of a room row, as written. */
  function LayoutAsWritten(days: seq<Day>, stay: PlanningStay, residents: seq<Resident>): (bar: StayBar)
    requires |days| >= 1
    ensures FindById(residents, stay.residentId).None? ==> bar == Hidden
    ensures bar.Unplaced? ==> DateOf(stay.start).None? || DateOf(stay.end).None?
    ensures bar.Bar? ==> DateOf(stay.start).Some? && DateOf(stay.end).Some?
    ensures bar.Bar? && Consecutive(days) && CivilOf(days[0]).year >= 100 ==>
              0 <= bar.offset && 1 <= bar.duration && bar.offset + bar.duration <= |days| - 1
  {
    assert Consecutive(days) && CivilOf(days[0]).year >= 100 ==>
             var b := BarAsWritten(days, DateOf(stay.start), DateOf(stay.end), FindById(residents, stay.residentId).Some?);
             b.Bar? ==> 0 <= b.offset && 1 <= b.duration && b.offset + b.duration <= |days| - 1 by {
      if Consecutive(days) && CivilOf(days[0]).year >= 100 {
        BarAsWrittenBounds(days, DateOf(stay.start), DateOf(stay.end), FindById(residents, stay.residentId).Some?);
      }
    }
    BarAsWritten(days, DateOf(stay.start), DateOf(stay.end), FindById(residents, stay.residentId).Some?)
  }

  /** From a first visible day of year 100 or later on, the bar is plain day arithmetic. */
  lemma BarAsWrittenPlain(days: seq<Day>, s: Day, e: Day)
    requires |days| >= 1 && CivilOf(days[0]).year >= 100 && days[0] <= days[|days| - 1]
    ensures var viewStart, lastDay := days[0], days[|days| - 1];
      var effectiveStart := if s < viewStart then viewStart else s;
      var effectiveEnd := if e > lastDay then lastDay else e;
      BarAsWritten(days, Some(s), Some(e), true)
      == if e <= viewStart || s > lastDay || effectiveEnd <= effectiveStart then Hidden
         else Bar(effectiveStart - viewStart, effectiveEnd - effectiveStart)
  {
    var viewStart, lastDay := days[0], days[|days| - 1];
    if !(e <= viewStart || s > lastDay) {
      var effectiveStart := if s < viewStart then viewStart else s;
      var effectiveEnd := if e > lastDay then lastDay else e;
      LaterYear(viewStart, viewStart);
      LaterYear(viewStart, effectiveStart);
      LaterYear(viewStart, effectiveEnd);
    }
  }

  /**
   * A drawn bar starts inside the grid, lasts at least a day and ends before
   * the last column; a stay ending on or before the first visible day, or
   * starting on the last visible day or later, or of an unknown resident,
   * is not drawn.
   */
  lemma BarAsWrittenBounds(days: seq<Day>, stayStart: Option<Day>, stayEnd: Option<Day>, known: bool)
    requires |days| >= 1 && Consecutive(days) && CivilOf(days[0]).year >= 100
    ensures var bar := BarAsWritten(days, stayStart, stayEnd, known);
      bar.Bar? ==> 0 <= bar.offset && 1 <= bar.duration && bar.offset + bar.duration <= |days| - 1
    ensures (stayEnd.Some? && stayEnd.value <= days[0])
            || (stayStart.Some? && stayEnd.Some? && stayStart.value >= days[|days| - 1])
            || !known
            ==> BarAsWritten(days, stayStart, stayEnd, known) == Hidden
  {
    assert days[|days| - 1] == days[0] + |days| - 1;
    if stayStart.Some? && stayEnd.Some? {
      BarAsWrittenPlain(days, stayStart.value, stayEnd.value);
    }
  }

  /**
   * A stay that covers every visible day, from the first visible day to the
   * day after the last, leaves the last column empty.
   */
  lemma LastColumnUncoveredAsWritten(days: seq<Day>, known: bool)
    requires |days| >= 2 && Consecutive(days) && CivilOf(days[0]).year >= 100 && known
    ensures BarAsWritten(days, Some(days[0]), Some(days[|days| - 1] + 1), known) == Bar(0, |days| - 1)
  {
    assert days[|days| - 1] == days[0] + |days| - 1;
    BarAsWrittenPlain(days, days[0], days[|days| - 1] + 1);
  }

  /**
   * The bar the grid means to draw: as written, except that the end is
   * clipped to the day after the last visible day, so that a stay running
   * past the window fills the last column.
   */
  function BarOf(days: seq<Day>, stayStart: Option<Day>, stayEnd: Option<Day>, known: bool): StayBar
    requires |days| >= 1
  {
    var viewStart, lastDay := days[0], days[|days| - 1];
    if (stayEnd.Some? && stayEnd.value <= viewStart) || (stayStart.Some? && stayStart.value > lastDay) then Hidden
    else if !known then Hidden
    else if stayStart.None? || stayEnd.None? then Unplaced
    else
      var effectiveStart := if stayStart.value < viewStart then viewStart else stayStart.value;
      var effectiveEnd := if stayEnd.value > lastDay then lastDay + 1 else stayEnd.value;
      var duration := DateDiffInDays(effectiveStart, effectiveEnd);
      if duration <= 0 then Hidden else Bar(DateDiffInDays(viewStart, effectiveStart), duration)
  }

  /** The bar of one stay of a room row, with the end clipped past the last column. */
  function Layout(days: seq<Day>, stay: PlanningStay, residents: seq<Resident>): (bar: StayBar)
    requires |days| >= 1
    ensures FindById(residents, stay.residentId).None? ==> bar == Hidden
    ensures bar.Unplaced? ==> DateOf(stay.start).None? || DateOf(stay.end).None?
    ensures bar.Bar? ==> DateOf(stay.start).Some? && DateOf(stay.end).Some?
    ensures bar.Bar? && Consecutive(days) && CivilOf(days[0]).year >= 100 ==>
              0 <= bar.offset && 1 <= bar.duration && bar.offset + bar.duration <= |days|
  {
    var s, e := DateOf(stay.start), DateOf(stay.end);
    assert Consecutive(days) && CivilOf(days[0]).year >= 100 && s.Some? && e.Some? ==>
             var b := BarOf(days, s, e, true);
             b.Bar? ==> 0 <= b.offset && b.offset + b.duration <= |days| by {
      if Consecutive(days) && CivilOf(days[0]).year >= 100 && s.Some? && e.Some? {
        BarCovers(days, s.value, e.value, 0);
      }
    }
    BarOf(days, DateOf(stay.start), DateOf(stay.end), FindById(residents, stay.residentId).Some?)
  }

  /** From a first visible day of year 100 or later on, the bar is plain day arithmetic. */
  lemma BarPlain(days: seq<Day>, s: Day, e: Day)
    requires |days| >= 1 && CivilOf(days[0]).year >= 100 && days[0] <= days[|days| - 1]
    ensures var viewStart, lastDay := days[0], days[|days| - 1];
      var effectiveStart := if s < viewStart then viewStart else s;
      var effectiveEnd := if e > lastDay then lastDay + 1 else e;
      BarOf(days, Some(s), Some(e), true)
      == if e <= viewStart || s > lastDay || effectiveEnd <= effectiveStart then Hidden
         else Bar(effectiveStart - viewStart, effectiveEnd - effectiveStart)
  {
    var viewStart, lastDay := days[0], days[|days| - 1];
    if !(e <= viewStart || s > lastDay) {
      var effectiveStart := if s < viewStart then viewStart else s;
      var effectiveEnd := if e > lastDay then lastDay + 1 else e;
      LaterYear(viewStart, viewStart);
      LaterYear(viewStart, effectiveStart);
      LaterYear(viewStart, effectiveEnd);
      BarOfClipped(days, s, e, effectiveStart, effectiveEnd);
    }
  }

  /** A drawn stay of a known resident is measured from its clipped bounds. */
  lemma BarOfClipped(days: seq<Day>, s: Day, e: Day, effectiveStart: Day, effectiveEnd: Day)
    requires |days| >= 1 && !(e <= days[0] || s > days[|days| - 1])
    requires effectiveStart == (if s < days[0] then days[0] else s)
    requires effectiveEnd == (if e > days[|days| - 1] then days[|days| - 1] + 1 else e)
    ensures var duration := DateDiffInDays(effectiveStart, effectiveEnd);
      BarOf(days, Some(s), Some(e), true)
      == if duration <= 0 then Hidden else Bar(DateDiffInDays(days[0], effectiveStart), duration)
  {
  }

  /**
   * With both dates valid and the resident known, column `i` is under the
   * bar exactly when the resident is there that day (arrival day included,
   * departure day excluded), and every bar fits in the grid.
   */
  lemma BarCovers(days: seq<Day>, s: Day, e: Day, i: int)
    requires |days| >= 1 && Consecutive(days) && CivilOf(days[0]).year >= 100
    requires 0 <= i < |days|
    ensures var bar := BarOf(days, Some(s), Some(e), true);
      (s <= days[i] < e <==> bar.Bar? && bar.offset <= i < bar.offset + bar.duration)
      && (bar.Bar? ==> 0 <= bar.offset && bar.offset + bar.duration <= |days|)
      && !bar.Unplaced?
  {
    assert days[|days| - 1] == days[0] + |days| - 1 && days[i] == days[0] + i;
    BarPlain(days, s, e);
  }

  /** A stay of an unknown resident is never drawn. */
  lemma UnknownResidentHidden(days: seq<Day>, stay: PlanningStay, residents: seq<Resident>)
    requires |days| >= 1
    requires forall r :: 0 <= r < |residents| ==> residents[r].id != stay.residentId
    ensures Layout(days, stay, residents) == Hidden
    ensures LayoutAsWritten(days, stay, residents) == Hidden
  {
  }
}
