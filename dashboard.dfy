/**
 * The dashboard's figures: the August occupancy rate and its alert, the
 * arrivals and departures of the day, the (Sunday-based) week and the
 * month, the first coming run of days under 80% occupancy, the resident
 * search and the average GIR.
 */
module Dashboard {
  import opened Wrappers
  import opened Strings
  import opened Seqs
  import opened Calendar
  import opened Types
  import PlanningCalendar

  // ---------------------------------------------------------------------
  // August occupancy
  // ---------------------------------------------------------------------

  const AugustYear: int := 2025
  const AugustMonthIndex: int := 7
  const DaysInAugust: nat := 31

  /** A resident is counted on a day from its arrival day to its departure day, both included. */
  predicate PresentOn(r: Resident, day: Day)
  {
    NotAfter(ParseFullDate(r.arrival), Some(day)) && NotAfter(Some(day), ParseFullDate(r.departure))
  }

  /** The residents counted on a day. */
  function OccupiedOn(residents: seq<Resident>, day: Day): (n: nat)
    ensures n <= |residents|
  {
    |Filter(residents, r => PresentOn(r, day))|
  }

  /** The days of August 2025, `new Date(2025, 7, day)` for day 1 to 31. */
  function AugustDays(): (days: seq<Day>)
    ensures |days| == DaysInAugust
  {
    FirstDaysOfMonth(AugustYear, AugustMonthIndex, DaysInAugust)
  }

  /** Resident-days over a sequence of days. */
  function OccupiedDays(residents: seq<Resident>, days: seq<Day>): nat
  {
    if days == [] then 0 else OccupiedDays(residents, days[..|days| - 1]) + OccupiedOn(residents, days[|days| - 1])
  }

  /** The smallest `q` with `q * b >= a`: `Math.ceil(a / b)` on non-negative integers. */
  function CeilDiv(a: nat, b: nat): (q: nat)
    requires b > 0
    ensures q * b >= a
    ensures q == 0 || (q - 1) * b < a
  {
    var q := (a + b - 1) / b;
    var r := (a + b - 1) % b;
    assert a + b - 1 == q * b + r;
    assert (q - 1) * b == q * b - b;
    q
  }

  /** The August rate in percent: resident-days over the 31 × 24 possible ones, rounded up. */
  function AugustRate(residents: seq<Resident>): nat
  {
    CeilDiv(100 * OccupiedDays(residents, AugustDays()), DaysInAugust * TotalRooms)
  }

  /**
   * `getAugustOccupancy`: day by day through August 2025, add up the
   * residents present, then take the ceiling of the percentage.
   */
  method GetAugustOccupancy(residents: seq<Resident>) returns (rate: int)
    ensures rate == AugustRate(residents)
  {
    var year := 2025;
    var month := 7;
    var daysInAugust := 31;
    var totalOccupied := 0;
    var day := 1;
    while day <= daysInAugust
      invariant 1 <= day <= daysInAugust + 1
      invariant totalOccupied == OccupiedDays(residents, AugustDays()[..day - 1])
    {
      var currentDay := NewDate(year, month, day);
      FirstDaysOfMonthAt(year, month, daysInAugust, day);
      OccupiedDaysStep(residents, AugustDays(), day - 1);
      var occupiedRooms := OccupiedOn(residents, currentDay);
      totalOccupied := totalOccupied + occupiedRooms;
      day := day + 1;
    }
    assert AugustDays()[..daysInAugust] == AugustDays();
    var totalPossible := daysInAugust * 24;
    if totalPossible == 0 {
      return 0;
    }
    rate := CeilDiv(100 * totalOccupied, totalPossible);
  }

  /** The resident-days of the first `n + 1` days add those of day `n` to those of the first `n`. */
  lemma OccupiedDaysStep(residents: seq<Resident>, days: seq<Day>, n: nat)
    requires n < |days|
    ensures OccupiedDays(residents, days[..n + 1]) == OccupiedDays(residents, days[..n]) + OccupiedOn(residents, days[n])
  {
    assert days[..n + 1][..n] == days[..n];
  }

  /** The dashboard warns about August when the rate is under 80%. */
  predicate LowOccupancyAlert(residents: seq<Resident>)
  {
    AugustRate(residents) < 80
  }

  /** With no resident the rate is 0, and the alert is shown. */
  lemma NoResidentsNoOccupancy()
    ensures AugustRate([]) == 0 && LowOccupancyAlert([])
  {
    EmptyOccupiedDays(AugustDays());
  }

  lemma {:induction false} EmptyOccupiedDays(days: seq<Day>)
    ensures OccupiedDays([], days) == 0
  {
    if days != [] {
      EmptyOccupiedDays(days[..|days| - 1]);
    }
  }

  /** One more resident never lowers the rate. */
  lemma AddingResidentNeverLowersRate(residents: seq<Resident>, r: Resident)
    ensures AugustRate(residents) <= AugustRate(residents + [r])
  {
    var days := AugustDays();
    OccupiedDaysGrow(residents, r, days);
    CeilDivMonotone(100 * OccupiedDays(residents, days), 100 * OccupiedDays(residents + [r], days), DaysInAugust * TotalRooms);
  }

  lemma {:induction false} OccupiedDaysGrow(residents: seq<Resident>, r: Resident, days: seq<Day>)
    ensures OccupiedDays(residents, days) <= OccupiedDays(residents + [r], days)
  {
    if days != [] {
      OccupiedDaysGrow(residents, r, days[..|days| - 1]);
      var day := days[|days| - 1];
      FilterAppend(residents, [r], x => PresentOn(x, day));
    }
  }

  lemma CeilDivMonotone(a: nat, a': nat, b: nat)
    requires b > 0 && a <= a'
    ensures CeilDiv(a, b) <= CeilDiv(a', b)
  {
    var q, q' := CeilDiv(a, b), CeilDiv(a', b);
    if q > q' {
      assert (q - 1) * b >= q' * b by {
        assert q - 1 >= q';
        MultiplyMonotone(q', q - 1, b);
      }
    }
  }

  lemma MultiplyMonotone(x: nat, y: nat, b: nat)
    requires x <= y
    ensures x * b <= y * b
  {
  }

  /**
   * The rate never exceeds the share of rooms the residents could fill:
   * 24 residents or fewer give at most 100%.
   */
  lemma RateBound(residents: seq<Resident>)
    ensures AugustRate(residents) <= CeilDiv(100 * DaysInAugust * |residents|, DaysInAugust * TotalRooms)
    ensures |residents| <= TotalRooms ==> AugustRate(residents) <= 100
  {
    var days := AugustDays();
    OccupiedDaysBound(residents, days);
    PercentBound(OccupiedDays(residents, days), |residents|);
  }

  lemma PercentBound(total: nat, n: nat)
    requires total <= DaysInAugust * n
    ensures CeilDiv(100 * total, DaysInAugust * TotalRooms) <= CeilDiv(100 * DaysInAugust * n, DaysInAugust * TotalRooms)
    ensures n <= TotalRooms ==> CeilDiv(100 * total, DaysInAugust * TotalRooms) <= 100
  {
    CeilDivMonotone(100 * total, 100 * DaysInAugust * n, DaysInAugust * TotalRooms);
    if n <= TotalRooms {
      CeilDivMonotone(100 * DaysInAugust * n, 100 * DaysInAugust * TotalRooms, DaysInAugust * TotalRooms);
      assert CeilDiv(74400, 744) == 100;
    }
  }

  lemma {:induction false} OccupiedDaysBound(residents: seq<Resident>, days: seq<Day>)
    ensures OccupiedDays(residents, days) <= |days| * |residents|
  {
    if days != [] {
      OccupiedDaysBound(residents, days[..|days| - 1]);
      assert (|days| - 1) * |residents| + |residents| == |days| * |residents|;
    }
  }

  /** Unlike the reservation overlap, a resident counts on its departure day as well as its arrival day. */
  lemma PresentOnBothEnds(r: Resident, arrival: Day, departure: Day)
    requires ParseFullDate(r.arrival) == Some(arrival) && ParseFullDate(r.departure) == Some(departure)
    requires arrival <= departure
    ensures PresentOn(r, arrival) && PresentOn(r, departure)
    ensures forall day :: PresentOn(r, day) <==> arrival <= day <= departure
  {
  }

  // ---------------------------------------------------------------------
  // Arrivals and departures
  // ---------------------------------------------------------------------

  /** How many residents arrive (or leave) today, this week and this month. */
  datatype Counts = Counts(daily: nat, weekly: nat, monthly: nat)

  datatype Movements = Movements(arrivals: Counts, departures: Counts)

  /** The arrival day of a resident, or its departure day. */
  function MovementDay(r: Resident, arriving: bool): Option<Day>
  {
    ParseFullDate(if arriving then r.arrival else r.departure)
  }

  /** `MovementDay` for one direction, as a function of the resident. */
  function MovementOf(arriving: bool): Resident -> Option<Day>
  {
    r => MovementDay(r, arriving)
  }

  /** The residents whose day, as `dayOf` gives it, is `day`. */
  function CountOnDay(residents: seq<Resident>, dayOf: Resident -> Option<Day>, day: Day): (n: nat)
    ensures n <= |residents|
  {
    |Filter(residents, r => dayOf(r) == Some(day))|
  }

  /** The residents whose day, as `dayOf` gives it, is between `first` and `last`, both included. */
  function CountInPeriod(residents: seq<Resident>, dayOf: Resident -> Option<Day>, first: Day, last: Day): (n: nat)
    ensures n <= |residents|
  {
    |Filter(residents, r => NotAfter(Some(first), dayOf(r)) && NotAfter(dayOf(r), Some(last)))|
  }

  /** The residents whose movement falls on `day`. */
  function CountOn(residents: seq<Resident>, arriving: bool, day: Day): (n: nat)
    ensures n <= |residents|
  {
    CountOnDay(residents, MovementOf(arriving), day)
  }

  /** The residents whose movement falls between `first` and `last`, both included. */
  function CountBetween(residents: seq<Resident>, arriving: bool, first: Day, last: Day): (n: nat)
    ensures n <= |residents|
  {
    CountInPeriod(residents, MovementOf(arriving), first, last)
  }

  /**
   * The Sunday on or before `today`: what
   * `today.setDate(today.getDate() - today.getDay())` computes, as
   * `SundayWeekStartIsSetDate` shows.
   */
  function SundayWeekStart(today: Day): (s: Day)
    ensures Weekday(s) == Sunday && s <= today <= s + 6
  {
    today - Weekday(today)
  }

  /** Moving the day of the month back by the weekday lands on `SundayWeekStart`. */
  lemma SundayWeekStartIsSetDate(today: Day)
    ensures var c := CivilOf(today);
      MakeDay(c.year, c.month - 1, c.day - Weekday(today)) == SundayWeekStart(today)
  {
    SetDateShift(today, -Weekday(today));
  }

  /** `new Date(getFullYear(), getMonth(), 1)` and `new Date(getFullYear(), getMonth() + 1, 0)`. */
  function MonthBounds(today: Day): (Day, Day)
  {
    var c := CivilOf(today);
    (NewDate(c.year, c.month - 1, 1), NewDate(c.year, c.month, 0))
  }

  /** The periods the counts cover: a day, the first and last days of its week and of its month. */
  datatype Periods = Periods(today: Day, weekStart: Day, weekEnd: Day, monthStart: Day, monthEnd: Day)

  /** Today's periods: the Sunday-based week and the calendar month of `today`. */
  function PeriodsOf(today: Day): (p: Periods)
    ensures p.today == today && p.weekStart == SundayWeekStart(today) && p.weekEnd == p.weekStart + 6
    ensures (p.monthStart, p.monthEnd) == MonthBounds(today)
  {
    var (monthStart, monthEnd) := MonthBounds(today);
    var weekStart := SundayWeekStart(today);
    Periods(today, weekStart, weekStart + 6, monthStart, monthEnd)
  }

  /** The movements of the day, of the seven days from the week start and of the month. */
  function MovementCounts(residents: seq<Resident>, arriving: bool, p: Periods): (c: Counts)
    ensures c.daily <= |residents| && c.weekly <= |residents| && c.monthly <= |residents|
    ensures p.weekStart <= p.today <= p.weekEnd ==> c.daily <= c.weekly
    ensures p.monthStart <= p.today <= p.monthEnd ==> c.daily <= c.monthly
  {
    assert p.weekStart <= p.today <= p.weekEnd ==>
             CountOn(residents, arriving, p.today) <= CountBetween(residents, arriving, p.weekStart, p.weekEnd) by {
      if p.weekStart <= p.today <= p.weekEnd {
        OnDayWithinPeriod(residents, arriving, p.today, p.weekStart, p.weekEnd);
      }
    }
    assert p.monthStart <= p.today <= p.monthEnd ==>
             CountOn(residents, arriving, p.today) <= CountBetween(residents, arriving, p.monthStart, p.monthEnd) by {
      if p.monthStart <= p.today <= p.monthEnd {
        OnDayWithinPeriod(residents, arriving, p.today, p.monthStart, p.monthEnd);
      }
    }
    Counts(CountOn(residents, arriving, p.today),
           CountBetween(residents, arriving, p.weekStart, p.weekEnd),
           CountBetween(residents, arriving, p.monthStart, p.monthEnd))
  }

  /** `calculateArrivalsDepartures`, with today's date as a parameter. */
  function ArrivalsDepartures(residents: seq<Resident>, today: Day): (m: Movements)
    ensures m.arrivals.daily <= m.arrivals.weekly <= |residents|
    ensures m.departures.daily <= m.departures.weekly <= |residents|
    ensures !(0 <= CivilOf(today).year <= 99) ==>
              m.arrivals.daily <= m.arrivals.monthly && m.departures.daily <= m.departures.monthly
  {
    var p := PeriodsOf(today);
    assert !(0 <= CivilOf(today).year <= 99) ==> p.monthStart <= today <= p.monthEnd by {
      if !(0 <= CivilOf(today).year <= 99) {
        TodayInMonth(today);
      }
    }
    Movements(MovementCounts(residents, true, p), MovementCounts(residents, false, p))
  }

  /** A movement on a day inside a period is one of that period. */
  lemma OnDayWithinPeriod(residents: seq<Resident>, arriving: bool, day: Day, first: Day, last: Day)
    requires first <= day <= last
    ensures CountOn(residents, arriving, day) <= CountBetween(residents, arriving, first, last)
  {
    DayWithinPeriod(residents, MovementOf(arriving), day, first, last);
  }

  /** Whatever gives the day of a resident, a resident of a day inside a period is one of that period. */
  lemma DayWithinPeriod(residents: seq<Resident>, dayOf: Resident -> Option<Day>, day: Day, first: Day, last: Day)
    requires first <= day <= last
    ensures CountOnDay(residents, dayOf, day) <= CountInPeriod(residents, dayOf, first, last)
  {
    CountStronger(residents,
      r => dayOf(r) == Some(day),
      r => NotAfter(Some(first), dayOf(r)) && NotAfter(dayOf(r), Some(last)));
  }

  /**
   * A movement of today is one of this week (of any week whose first and
   * last days enclose today, as `PeriodsOf`'s do); no count exceeds the
   * number of residents.
   */
  lemma DailyWithinWeekly(residents: seq<Resident>, arriving: bool, p: Periods)
    requires p.weekStart <= p.today <= p.weekEnd
    ensures var c := MovementCounts(residents, arriving, p);
      c.daily <= c.weekly && c.weekly <= |residents| && c.monthly <= |residents|
  {
    OnDayWithinPeriod(residents, arriving, p.today, p.weekStart, p.weekEnd);
  }

  /** Outside years 0..99, a movement of today is one of this month. */
  lemma DailyWithinMonthly(residents: seq<Resident>, arriving: bool, p: Periods)
    requires (p.monthStart, p.monthEnd) == MonthBounds(p.today) && !(0 <= CivilOf(p.today).year <= 99)
    ensures var c := MovementCounts(residents, arriving, p);
      c.daily <= c.monthly
  {
    TodayInMonth(p.today);
    OnDayWithinPeriod(residents, arriving, p.today, p.monthStart, p.monthEnd);
  }

  /**
   * Outside years 0..99 (which `new Date` reads as 1900..1999), today lies
   * between the first and the last day of its month.
   */
  lemma TodayInMonth(today: Day)
    requires !(0 <= CivilOf(today).year <= 99)
    ensures MonthBounds(today).0 <= today <= MonthBounds(today).1
  {
    var c := CivilOf(today);
    CivilOfSpec(today);
    NewDateInMonth(c.year, c.month - 1, 1);
    LastDayOfMonth(c.year, c.month - 1);
    DayNumberOrder(c, Civil(c.year, c.month, DaysInMonth(c.year, c.month)));
  }

  /**
   * The dashboard's week starts on the Sunday, the planning's on the
   * Monday: the two agree on no day.
   */
  lemma SundayWeekBeforeMondayWeek(today: Day)
    ensures var m := PlanningCalendar.WeekStart(today);
      SundayWeekStart(today) == (if Weekday(today) == Sunday then m + 6 else m - 1)
  {
    var m := PlanningCalendar.WeekStart(today);
    PlanningCalendar.BackToMonday(Weekday(today));
  }

  // ---------------------------------------------------------------------
  // The coming run of low occupancy
  // ---------------------------------------------------------------------

  /** One point of the occupancy forecast: a date and a percentage. */
  datatype OccupancyPoint = OccupancyPoint(date: string, occupancy: int)

  /** Points dated before today are skipped (an invalid date is never before). */
  predicate Upcoming(p: OccupancyPoint, today: Day)
  {
    !Before(ParseFullDate(p.date), Some(today))
  }

  predicate Low(p: OccupancyPoint) { p.occupancy < 80 }

  /**
   * Points `s` to `e` are the first run of upcoming low points: `s` is the
   * first upcoming low point, every upcoming point from `s` to `e` is low,
   * `e` is low, and the first upcoming point after `e`, if any, is not.
   */
  predicate IsFirstLowRun(points: seq<OccupancyPoint>, today: Day, s: int, e: int)
  {
    0 <= s <= e < |points|
    && Upcoming(points[s], today) && Low(points[s])
    && (forall k :: 0 <= k < s ==> !(Upcoming(points[k], today) && Low(points[k])))
    && Upcoming(points[e], today) && Low(points[e])
    && (forall k :: s <= k <= e && Upcoming(points[k], today) ==> Low(points[k]))
    && (forall k :: e < k < |points| && Upcoming(points[k], today) && (forall m :: e < m < k ==> !Upcoming(points[m], today))
          ==> !Low(points[k]))
  }

  /** No upcoming point before `i` is low. */
  predicate NoLowBefore(points: seq<OccupancyPoint>, today: Day, i: int)
  {
    0 <= i <= |points| && forall k :: 0 <= k < i ==> !(Upcoming(points[k], today) && Low(points[k]))
  }

  /**
   * Scanning up to `i` found the run `s`..`e`: `s` is the first upcoming low
   * point, the upcoming points from `s` to `e` are low, `e` is low, and no
   * point after `e` and before `i` is upcoming.
   */
  predicate RunSoFar(points: seq<OccupancyPoint>, today: Day, s: int, e: int, i: int)
  {
    0 <= s <= e < i <= |points|
    && Upcoming(points[s], today) && Low(points[s]) && NoLowBefore(points, today, s)
    && Upcoming(points[e], today) && Low(points[e])
    && (forall k :: s <= k <= e && Upcoming(points[k], today) ==> Low(points[k]))
    && (forall k :: e < k < i ==> !Upcoming(points[k], today))
  }

  /**
   * The scan for the coming period under 80%: `lowStart` and `lowEnd` are
   * the dates of the first run of upcoming low points, both `None` (null)
   * when no upcoming point is low. A point with an invalid date is not
   * skipped and gives an invalid date (`Some(None)`).
   */
  method LowOccupancyScan(points: seq<OccupancyPoint>, today: Day)
    returns (lowStart: Option<Option<Day>>, lowEnd: Option<Option<Day>>)
    ensures lowStart.Some? <==> lowEnd.Some?
    ensures lowStart.None? <==> forall k :: 0 <= k < |points| ==> !(Upcoming(points[k], today) && Low(points[k]))
    ensures lowStart.Some? ==>
      exists s, e :: IsFirstLowRun(points, today, s, e)
        && lowStart.value == ParseFullDate(points[s].date) && lowEnd.value == ParseFullDate(points[e].date)
  {
    lowStart, lowEnd := None, None;
    var lastWasLow := false;
    ghost var s, e := 0, 0;
    var i := 0;
    while i < |points|
      invariant 0 <= i <= |points|
      invariant lastWasLow <==> lowStart.Some?
      invariant lowStart.Some? <==> lowEnd.Some?
      invariant !lastWasLow ==> NoLowBefore(points, today, i)
      invariant lastWasLow ==> RunSoFar(points, today, s, e, i)
      invariant lastWasLow ==> lowStart.value == ParseFullDate(points[s].date) && lowEnd.value == ParseFullDate(points[e].date)
    {
      var d := ParseFullDate(points[i].date);
      if Before(d, Some(today)) {
        PastPointSkipped(points, today, lastWasLow, s, e, i);
        i := i + 1;
        continue;
      }
      if points[i].occupancy < 80 {
        if !lastWasLow {
          lowStart := Some(d);
          s := i;
        }
        LowPointJoinsRun(points, today, lastWasLow, s, e, i);
        lowEnd := Some(d);
        e := i;
        lastWasLow := true;
      } else {
        if lastWasLow {
          RunEndsAtHighPoint(points, today, s, e, i);
          break;
        }
        assert NoLowBefore(points, today, i + 1) by {
          assert !Low(points[i]);
        }
        lastWasLow := false;
      }
      i := i + 1;
    }
    if lastWasLow {
      RunEndsAtHighPoint(points, today, s, e, i);
    } else {
      assert NoLowBefore(points, today, |points|);
    }
  }

  /** A point dated before today leaves the scan's findings as they were, one point further. */
  lemma PastPointSkipped(points: seq<OccupancyPoint>, today: Day, lastWasLow: bool, s: int, e: int, i: int)
    requires 0 <= i < |points| && !Upcoming(points[i], today)
    requires !lastWasLow ==> NoLowBefore(points, today, i)
    requires lastWasLow ==> RunSoFar(points, today, s, e, i)
    ensures !lastWasLow ==> NoLowBefore(points, today, i + 1)
    ensures lastWasLow ==> RunSoFar(points, today, s, e, i + 1)
  {
    if lastWasLow {
      forall k | e < k < i + 1
        ensures !Upcoming(points[k], today)
      {
        if k < i {
          assert e < k < i;
        }
      }
    } else {
      forall k | 0 <= k < i + 1
        ensures !(Upcoming(points[k], today) && Low(points[k]))
      {
        if k < i {
          assert 0 <= k < i;
        }
      }
    }
  }

  /** An upcoming low point starts the run (after none was low) or extends it. */
  lemma LowPointJoinsRun(points: seq<OccupancyPoint>, today: Day, lastWasLow: bool, s: int, e: int, i: int)
    requires 0 <= i < |points| && Upcoming(points[i], today) && Low(points[i])
    requires !lastWasLow ==> NoLowBefore(points, today, i) && s == i
    requires lastWasLow ==> RunSoFar(points, today, s, e, i)
    ensures RunSoFar(points, today, s, i, i + 1)
  {
  }

  /**
   * A run of low points `s`..`e` found while scanning up to `i` is the
   * first run when the scan stops at `i`: at the end, or at an upcoming
   * point that is not low.
   */
  lemma RunEndsAtHighPoint(points: seq<OccupancyPoint>, today: Day, s: int, e: int, i: int)
    requires RunSoFar(points, today, s, e, i)
    requires i < |points| ==> Upcoming(points[i], today) && !Low(points[i])
    ensures IsFirstLowRun(points, today, s, e)
  {
    forall k | e < k < |points| && Upcoming(points[k], today) && (forall m :: e < m < k ==> !Upcoming(points[m], today))
      ensures !Low(points[k])
    {
    }
  }

  // ---------------------------------------------------------------------
  // Search and average GIR
  // ---------------------------------------------------------------------

  /** The term is in the name, the room or the family contact name, ignoring case. */
  predicate Matches(r: Resident, term: string)
  {
    Includes(Lower(r.name), term)
    || (r.room != "" && Includes(Lower(r.room), term))
    || (r.familyContactName != "" && Includes(Lower(r.familyContactName), term))
  }

  /**
   * `filteredResidents`: everyone for an empty (or absent) search,
   * otherwise the residents matching the trimmed, lower-cased term, in
   * their order.
   */
  function FilteredResidents(residents: seq<Resident>, search: string): (result: seq<Resident>)
    ensures search == "" ==> result == residents
    ensures IsSubsequence(result, residents) || search == ""
    ensures search != "" ==> forall i :: 0 <= i < |result| ==> Matches(result[i], Lower(Trim(search)))
    ensures search != "" ==> forall i :: 0 <= i < |residents| && Matches(residents[i], Lower(Trim(search))) ==> residents[i] in result
    ensures search != "" ==> forall x :: multiset(result)[x] == if Matches(x, Lower(Trim(search))) then multiset(residents)[x] else 0
  {
    if search == "" then residents
    else
      var s := Lower(Trim(search));
      FilterMultiplicity(residents, r => Matches(r, s));
      Filter(residents, r => Matches(r, s))
  }

  /** A search made only of white space trims to the empty term, which every name contains. */
  lemma BlankSearchKeepsEveryone(residents: seq<Resident>, search: string)
    requires Trim(search) == ""
    ensures FilteredResidents(residents, search) == residents
  {
    if search != "" {
      assert OccursAt(Lower(""), "", 0);
      forall i | 0 <= i < |residents| ensures Matches(residents[i], "") {
        assert OccursAt(Lower(residents[i].name), "", 0);
      }
      FilterAll(residents, r => Matches(r, Lower(Trim(search))));
    }
  }

  lemma {:induction false} FilterAll<T>(s: seq<T>, p: T -> bool)
    requires forall i :: 0 <= i < |s| ==> p(s[i])
    ensures Filter(s, p) == s
  {
    if s != [] {
      FilterAll(s[1..], p);
    }
  }

  /** `replace(/\D/g, '')`: the decimal digits of a string, in order. */
  function Digits(s: string): (d: string)
    ensures IsDigits(d) && |d| <= |s|
    ensures |s| == 1 ==> d == if IsDigit(s[0]) then s else []
  {
    if s == [] then [] else (if IsDigit(s[0]) then [s[0]] else []) + Digits(s[1..])
  }

  /** The digits are a subsequence of the string holding every digit of it, as often as it occurs. */
  lemma {:induction false} DigitsKept(s: string)
    ensures IsSubsequence(Digits(s), s)
    ensures forall c :: multiset(Digits(s))[c] == if IsDigit(c) then multiset(s)[c] else 0
  {
    if s != [] {
      DigitsKept(s[1..]);
      var rest := Digits(s[1..]);
      assert s == [s[0]] + s[1..];
      assert multiset(s) == multiset([s[0]]) + multiset(s[1..]);
      if IsDigit(s[0]) {
        var d := [s[0]] + rest;
        assert Digits(s) == d && d[0] == s[0] && d[1..] == rest;
        assert multiset(d) == multiset([s[0]]) + multiset(rest);
      } else {
        assert Digits(s) == rest;
        SubsequenceOfTail(rest, s);
      }
    }
  }

  lemma {:induction false} DigitsAppend(a: string, b: string)
    ensures Digits(a + b) == Digits(a) + Digits(b)
  {
    if a != [] {
      assert (a + b)[1..] == a[1..] + b && (a + b)[0] == a[0];
      DigitsAppend(a[1..], b);
    } else {
      assert a + b == b;
    }
  }

  lemma {:induction false} NoDigits(s: string)
    requires forall i :: 0 <= i < |s| ==> !IsDigit(s[i])
    ensures Digits(s) == []
  {
    if s != [] {
      NoDigits(s[1..]);
    }
  }

  /**
   * The GIR of a code: its digits read as a number, kept when it is 1 to 6
   * ("GIR 3" gives 3; "GIR 7", "" and "GIR x" give nothing).
   */
  function GirValue(gir: string): (v: Option<nat>)
    ensures v.Some? <==> Digits(gir) != [] && 1 <= DecimalValue(Digits(gir)) <= 6
    ensures v.Some? ==> v.value == DecimalValue(Digits(gir)) && 1 <= v.value <= 6
  {
    var d := Digits(gir);
    var n := ParseInt(d);
    assert n == (if d == [] then None else Some(DecimalValue(d) as int)) by {
      if d != [] {
        ParseIntOfDigits(d);
      } else {
        ParseIntSingle('0');
      }
    }
    if n.Some? && 1 <= n.value <= 6 then Some(n.value as nat) else None
  }

  /** `parseInt` of one digit is its value; of the empty string, NaN. */
  lemma ParseIntSingle(c: char)
    ensures ParseInt([]).None?
    ensures IsDigit(c) ==> ParseInt([c]) == Some(DigitValue(c))
  {
    assert TrimStart([]) == [];
    if IsDigit(c) {
      ParseIntDigit(c);
    }
  }

  lemma ParseIntDigit(c: char)
    requires IsDigit(c)
    ensures ParseInt([c]) == Some(DigitValue(c))
  {
    ParseIntOfDigits([c]);
    assert [c][..0] == [];
  }

  /**
   * A code made of a digit-free prefix and one last character: the GIR is
   * that character's digit when it is 1 to 6, nothing otherwise.
   */
  lemma GirOfLastChar(prefix: string, c: char)
    requires forall i :: 0 <= i < |prefix| ==> !IsDigit(prefix[i])
    ensures !IsDigit(c) ==> GirValue(prefix + [c]).None?
    ensures IsDigit(c) ==> GirValue(prefix + [c]) == if 1 <= DigitValue(c) <= 6 then Some(DigitValue(c)) else None
  {
    DigitsAppend(prefix, [c]);
    NoDigits(prefix);
    assert Digits([c]) == (if IsDigit(c) then [c] else []) + Digits([]);
    assert Digits(prefix + [c]) == if IsDigit(c) then [c] else [];
    ParseIntSingle(c);
  }

  /** With no digit at all there is no GIR. */
  lemma GirOfNoDigit(code: string)
    requires forall i :: 0 <= i < |code| ==> !IsDigit(code[i])
    ensures GirValue(code).None?
  {
    NoDigits(code);
    ParseIntSingle(' ');
  }

  /** A resident whose GIR code gives a value. */
  predicate HasGir(r: Resident) { GirValue(r.gir).Some? }

  /**
   * The valid GIR values of the residents, in order: one per resident with
   * a valid code, that code's value.
   */
  function GirValues(residents: seq<Resident>): (values: seq<nat>)
    ensures |values| <= |residents|
    ensures forall i :: 0 <= i < |values| ==> 1 <= values[i] <= 6
  {
    if residents == [] then []
    else
      var rest := GirValues(residents[1..]);
      match GirValue(residents[0].gir)
      case Some(v) => [v] + rest
      case None => rest
  }

  /** The values are those of the residents `Filter` keeps for a valid code, one each, in order. */
  lemma {:induction false} GirValuesOfKept(residents: seq<Resident>)
    ensures |GirValues(residents)| == |Filter(residents, HasGir)|
    ensures forall i :: 0 <= i < |GirValues(residents)| ==>
              GirValues(residents)[i] == GirValue(Filter(residents, HasGir)[i].gir).value
  {
    if residents != [] {
      GirValuesOfKept(residents[1..]);
      var kept := Filter(residents[1..], HasGir);
      if HasGir(residents[0]) {
        GirValuesKeep(residents);
        var rest, all := GirValues(residents[1..]), [residents[0]] + kept;
        var values := [GirValue(residents[0].gir).value] + rest;
        assert GirValues(residents) == values;
        assert Filter(residents, HasGir) == all;
        forall i | 1 <= i < |values|
          ensures values[i] == GirValue(all[i].gir).value
        {
          ConsIndex(GirValue(residents[0].gir).value, rest, i);
          ConsIndex(residents[0], kept, i);
        }
      } else {
        GirValuesSkip(residents);
        assert Filter(residents, HasGir) == kept;
      }
    }
  }

  /** A first resident without a valid code contributes nothing. */
  lemma GirValuesSkip(rs: seq<Resident>)
    requires rs != [] && !HasGir(rs[0])
    ensures GirValues(rs) == GirValues(rs[1..])
  {
  }

  /** A first resident with a valid code contributes its value ahead of the others'. */
  lemma GirValuesKeep(rs: seq<Resident>)
    requires rs != [] && HasGir(rs[0])
    ensures GirValues(rs) == [GirValue(rs[0].gir).value] + GirValues(rs[1..])
  {
  }

  function Sum(values: seq<nat>): nat
  {
    if values == [] then 0 else values[0] + Sum(values[1..])
  }

  /** "N/A", or the mean as a sum over a count. */
  datatype Mean = NotAvailable | Mean(sum: nat, count: nat)

  /** The average GIR card: the mean of the valid values, "N/A" without any. */
  function GirMean(residents: seq<Resident>): (m: Mean)
    ensures m.NotAvailable? <==> GirValues(residents) == []
    ensures m.Mean? ==> 1 <= m.count && m.count <= m.sum <= 6 * m.count
  {
    var values := GirValues(residents);
    if values == [] then NotAvailable
    else
      SumBounds(values);
      Mean(Sum(values), |values|)
  }

  /** The mean is the sum of the valid values over the number of residents having one. */
  lemma GirMeanOfKept(residents: seq<Resident>)
    ensures GirMean(residents).Mean? ==>
              GirMean(residents).count == |Filter(residents, HasGir)| && GirMean(residents).sum == Sum(GirValues(residents))
  {
    GirValuesOfKept(residents);
  }

  lemma {:induction false} SumBounds(values: seq<nat>)
    requires forall i :: 0 <= i < |values| ==> 1 <= values[i] <= 6
    ensures |values| <= Sum(values) <= 6 * |values|
  {
    if values != [] {
      SumBounds(values[1..]);
    }
  }

  function WithGir(r: Resident, gir: string): Resident { r.(gir := gir) }

  /** The codes of the example: "GIR 3" gives 3, "GIR 1" gives 1, "GIR 7", "" and "GIR x" nothing. */
  lemma GirCodes()
    ensures GirValue("GIR 3") == Some(3) && GirValue("GIR 1") == Some(1)
    ensures GirValue("GIR 7").None? && GirValue("").None? && GirValue("GIR x").None?
  {
    GirCodesKept();
    GirCodesDropped();
  }

  lemma GirCodesKept()
    ensures GirValue("GIR 3") == Some(3) && GirValue("GIR 1") == Some(1)
  {
    var p := "GIR ";
    assert "GIR 3" == p + ['3'] && "GIR 1" == p + ['1'];
    GirOfLastChar(p, '3');
    GirOfLastChar(p, '1');
  }

  lemma GirCodesDropped()
    ensures GirValue("GIR 7").None? && GirValue("").None? && GirValue("GIR x").None?
  {
    var p := "GIR ";
    assert "GIR 7" == p + ['7'] && "GIR x" == p + ['x'];
    GirOfLastChar(p, '7');
    GirOfLastChar(p, 'x');
    GirOfNoDigit("");
  }

  /** Codes "GIR 3", "GIR 7", "GIR 1", "" and "GIR x" average to 4 / 2, shown as 2.00. */
  lemma GirMeanExample(r: Resident)
    ensures GirMean([WithGir(r, "GIR 3"), WithGir(r, "GIR 7"), WithGir(r, "GIR 1"), WithGir(r, ""), WithGir(r, "GIR x")])
            == Mean(4, 2)
  {
    var rs := [WithGir(r, "GIR 3"), WithGir(r, "GIR 7"), WithGir(r, "GIR 1"), WithGir(r, ""), WithGir(r, "GIR x")];
    assert rs[0].gir == "GIR 3" && rs[1].gir == "GIR 7" && rs[2].gir == "GIR 1" && rs[3].gir == "" && rs[4].gir == "GIR x";
    GirCodes();
    GirMeanOfFive(rs);
  }

  /** Five residents whose codes read 3, nothing, 1, nothing, nothing. */
  lemma GirMeanOfFive(rs: seq<Resident>)
    requires |rs| == 5
    requires GirValue(rs[0].gir) == Some(3) && GirValue(rs[1].gir).None? && GirValue(rs[2].gir) == Some(1)
    requires GirValue(rs[3].gir).None? && GirValue(rs[4].gir).None?
    ensures GirMean(rs) == Mean(4, 2)
  {
    assert rs[4..][1..] == [] && rs[3..][1..] == rs[4..] && rs[2..][1..] == rs[3..] && rs[1..][1..] == rs[2..];
    GirValuesSkip(rs[4..]);
    assert GirValues(rs[4..]) == [];
    GirValuesSkip(rs[3..]);
    assert GirValues(rs[3..]) == [];
    GirValuesKeep(rs[2..]);
    assert GirValues(rs[2..]) == [1];
    GirValuesSkip(rs[1..]);
    assert GirValues(rs[1..]) == [1];
    GirValuesKeep(rs);
    assert GirValues(rs) == [3] + [1];
    SumOfThreeAndOne();
  }

  /** The two kept values of the example add up to 4. */
  lemma SumOfThreeAndOne()
    ensures |[3] + [1]| == 2 && Sum([3] + [1]) == 4
  {
    assert ([3] + [1])[1..] == [1];
    assert [1][1..] == [];
  }
}
