/**
 * The seed data: the date parser of the seed file, the stays of the
 * residents overlapping a month, their spreading into 24 fixed rooms
 * "Chambre 1" to "Chambre 24", and the 24 seed residents themselves.
 */
module Constants {
  import opened Wrappers
  import opened Strings
  import opened Seqs
  import opened Calendar
  import opened Types

  // ---------------------------------------------------------------------
  // parseDate
  // ---------------------------------------------------------------------

  /**
   * `parseDate`: split on '-', read each part with `Number`, then
   * `new Date(year, month - 1, day)`. Fewer than three parts, or a part
   * that is not a number, give an invalid date; parts after the third are
   * ignored.
   */
  function ParseDate(s: string): (d: Option<Day>)
    ensures d.Some? <==> var parts := Split(s, '-');
      |parts| >= 3 && NumberOf(parts[0]).Some? && NumberOf(parts[1]).Some? && NumberOf(parts[2]).Some?
    ensures d.Some? ==> var parts := Split(s, '-');
      var c := Civil(NumberOf(parts[0]).value, NumberOf(parts[1]).value, NumberOf(parts[2]).value);
      ValidCivil(c) && !(0 <= c.year <= 99) ==> CivilOf(d.value) == c
  {
    var parts := Split(s, '-');
    if |parts| < 3 then None else DateOfNumbers(NumberOf(parts[0]), NumberOf(parts[1]), NumberOf(parts[2]))
  }

  /** `new Date(year, month - 1, day)`, invalid when a number is `NaN`. */
  function DateOfNumbers(year: Option<int>, month: Option<int>, day: Option<int>): (d: Option<Day>)
    ensures d.Some? <==> year.Some? && month.Some? && day.Some?
    ensures d.Some? ==> var c := Civil(year.value, month.value, day.value);
      ValidCivil(c) && !(0 <= c.year <= 99) ==> CivilOf(d.value) == c
  {
    if year.Some? && month.Some? && day.Some? then
      var c := Civil(year.value, month.value, day.value);
      if ValidCivil(c) && !(0 <= c.year <= 99) then
        NewDateOfCivil(c);
        Some(NewDate(year.value, month.value - 1, day.value))
      else Some(NewDate(year.value, month.value - 1, day.value))
    else None
  }

  /**
   * On a `full-date` string of a year from 100 on, `parseDate` gives the
   * same day as the `YYYY-MM-DD` reading: year Y, month M (index M - 1),
   * day D.
   */
  lemma ParseDateOfFullDate(s: string)
    requires ParseFullDate(s).Some? && DecimalValue(s[..4]) >= 100
    ensures ParseDate(s) == ParseFullDate(s)
    ensures CivilOf(ParseDate(s).value) == Civil(DecimalValue(s[..4]), DecimalValue(s[5..7]), DecimalValue(s[8..]))
  {
    SplitFullDate(s);
    var c := Civil(DecimalValue(s[..4]), DecimalValue(s[5..7]), DecimalValue(s[8..]));
    var parts := Split(s, '-');
    assert parts[0] == s[..4] && parts[1] == s[5..7] && parts[2] == s[8..];
    assert ParseDate(s) == DateOfNumbers(Some(c.year), Some(c.month), Some(c.day));
    assert ParseFullDate(s) == Some(DayNumber(c));
    NewDateOfCivil(c);
  }

  /** A `full-date` splits on '-' into its three digit fields, each read by `Number` as its value. */
  lemma SplitFullDate(s: string)
    requires IsFullDateShape(s)
    ensures Split(s, '-') == [s[..4], s[5..7], s[8..]]
    ensures NumberOf(s[..4]) == Some(DecimalValue(s[..4]) as int)
    ensures NumberOf(s[5..7]) == Some(DecimalValue(s[5..7]) as int)
    ensures NumberOf(s[8..]) == Some(DecimalValue(s[8..]) as int)
  {
    var parts := [s[..4], s[5..7], s[8..]];
    JoinThree(parts, '-');
    assert s == s[..4] + "-" + s[5..7] + "-" + s[8..];
    forall i | 0 <= i < 3 ensures '-' !in parts[i] {
      assert IsDigits(parts[i]);
    }
    SplitJoin(parts, '-');
    NumberOfDigits(s[..4]);
    NumberOfDigits(s[5..7]);
    NumberOfDigits(s[8..]);
  }

  /** A string without two dashes is not a date. */
  lemma ParseDateNeedsThreeParts(s: string)
    requires |Split(s, '-')| < 3
    ensures ParseDate(s).None?
  {
  }

  // ---------------------------------------------------------------------
  // generateStaysForMonth
  // ---------------------------------------------------------------------

  /**
   * The stay overlaps the month, ends included: it starts on or before the
   * month's last day and ends on or after its first. An invalid date never
   * overlaps.
   */
  predicate OverlapsMonth(r: Resident, first: Day, last: Day)
  {
    NotAfter(ParseDate(r.arrival), Some(last)) && NotAfter(Some(first), ParseDate(r.departure))
  }

  /** The dates of a resident's stay when it overlaps the month, `None` otherwise. */
  function MonthStayOf(r: Resident, first: Day, last: Day): (d: Option<(Day, Day)>)
    ensures d.Some? <==> OverlapsMonth(r, first, last)
    ensures d.Some? ==> ParseDate(r.arrival) == Some(d.value.0) && ParseDate(r.departure) == Some(d.value.1)
    ensures d.Some? ==> d.value.0 <= last && first <= d.value.1
  {
    var start := ParseDate(r.arrival);
    var end := ParseDate(r.departure);
    if NotAfter(start, Some(last)) && NotAfter(Some(first), end) then Some((start.value, end.value)) else None
  }

  /**
   * One stay per resident that `stayOf` keeps, in resident order, numbered
   * from 1, with the dates `stayOf` gives.
   */
  function NumberedStays(residents: seq<Resident>, stayOf: Resident -> Option<(Day, Day)>): seq<PlanningStay>
  {
    if residents == [] then []
    else
      var earlier := NumberedStays(residents[..|residents| - 1], stayOf);
      earlier + StayOfLast(|earlier| + 1, residents[|residents| - 1], stayOf)
  }

  /** The stay numbered `id` that `stayOf` gives resident `r`, if any. */
  function StayOfLast(id: int, r: Resident, stayOf: Resident -> Option<(Day, Day)>): seq<PlanningStay>
  {
    if stayOf(r).Some? then [PlanningStay(id, r.id, At(stayOf(r).value.0), At(stayOf(r).value.1))] else []
  }

  /** The stays of the residents overlapping `first`..`last`. */
  function MonthStays(residents: seq<Resident>, first: Day, last: Day): seq<PlanningStay>
  {
    NumberedStays(residents, r => MonthStayOf(r, first, last))
  }

  /**
   * `generateStaysForMonth(year, month)` over `residents`: one stay per
   * resident overlapping the month, numbered by a counter from 1.
   */
  method GenerateStaysForMonth(residents: seq<Resident>, year: int, month: int) returns (stays: seq<PlanningStay>)
    ensures stays == MonthStays(residents, NewDate(year, month, 1), NewDate(year, month + 1, 0))
  {
    ghost var first, last := NewDate(year, month, 1), NewDate(year, month + 1, 0);
    stays := [];
    var stayIdCounter := 1;
    var i := 0;
    while i < |residents|
      invariant 0 <= i <= |residents|
      invariant stays == MonthStays(residents[..i], first, last)
      invariant stayIdCounter == |stays| + 1
    {
      var resident := residents[i];
      var start := ParseDate(resident.arrival);
      var end := ParseDate(resident.departure);
      var targetMonthStart := NewDate(year, month, 1);
      var targetMonthEnd := NewDate(year, month + 1, 0);
      TakeOneMore(residents, i);
      MonthStaysStep(residents[..i], resident, first, last);
      if NotAfter(start, Some(targetMonthEnd)) && NotAfter(Some(targetMonthStart), end) {
        stays := stays + [PlanningStay(stayIdCounter, resident.id, At(start.value), At(end.value))];
        stayIdCounter := stayIdCounter + 1;
      }
      i := i + 1;
    }
    assert residents[..|residents|] == residents;
  }

  /** One more resident adds its stay, numbered next, exactly when it overlaps the month. */
  lemma MonthStaysStep(earlier: seq<Resident>, r: Resident, first: Day, last: Day)
    ensures var stays := MonthStays(earlier, first, last);
      MonthStays(earlier + [r], first, last) ==
        if OverlapsMonth(r, first, last)
        then stays + [PlanningStay(|stays| + 1, r.id, At(ParseDate(r.arrival).value), At(ParseDate(r.departure).value))]
        else stays
  {
    assert (earlier + [r])[..|earlier + [r]| - 1] == earlier;
  }

  /** The resident ids of a list of stays, in order. */
  function StayResidentIds(stays: seq<PlanningStay>): (ids: seq<int>)
    ensures |ids| == |stays|
  {
    seq(|stays|, k requires 0 <= k < |stays| => stays[k].residentId)
  }

  /** The ids of a list of residents, in order. */
  function ResidentIds(residents: seq<Resident>): (ids: seq<int>)
    ensures |ids| == |residents|
  {
    seq(|residents|, k requires 0 <= k < |residents| => residents[k].id)
  }

  lemma StayResidentIdsAppend(a: seq<PlanningStay>, b: seq<PlanningStay>)
    ensures StayResidentIds(a + b) == StayResidentIds(a) + StayResidentIds(b)
  {
  }

  lemma ResidentIdsAppend(a: seq<Resident>, b: seq<Resident>)
    ensures ResidentIds(a + b) == ResidentIds(a) + ResidentIds(b)
  {
  }

  /** Numbered stays count 1, 2, 3, ... */
  lemma {:induction false} NumberedStaysNumbering(residents: seq<Resident>, stayOf: Resident -> Option<(Day, Day)>)
    ensures forall k :: 0 <= k < |NumberedStays(residents, stayOf)| ==> NumberedStays(residents, stayOf)[k].id == k + 1
    decreases |residents|
  {
    if residents != [] {
      var init := residents[..|residents| - 1];
      NumberedStaysNumbering(init, stayOf);
      var earlier := NumberedStays(init, stayOf);
      var stays := NumberedStays(residents, stayOf);
      assert stays == earlier + StayOfLast(|earlier| + 1, residents[|residents| - 1], stayOf);
      forall k | 0 <= k < |stays|
        ensures stays[k].id == k + 1
      {
        if k < |earlier| {
          assert stays[k] == earlier[k];
        }
      }
    }
  }

  /** Numbered stays belong, in order, to the residents `stayOf` keeps. */
  lemma {:induction false} NumberedStaysIds(residents: seq<Resident>, stayOf: Resident -> Option<(Day, Day)>)
    ensures StayResidentIds(NumberedStays(residents, stayOf)) == ResidentIds(Filter(residents, r => stayOf(r).Some?))
    decreases |residents|
  {
    if residents != [] {
      var init := residents[..|residents| - 1];
      var r := residents[|residents| - 1];
      NumberedStaysIds(init, stayOf);
      InitLast(residents);
      FilterAppend(init, [r], x => stayOf(x).Some?);
      var earlier := NumberedStays(init, stayOf);
      var added := StayOfLast(|earlier| + 1, r, stayOf);
      StayResidentIdsAppend(earlier, added);
      ResidentIdsAppend(Filter(init, x => stayOf(x).Some?), Filter([r], x => stayOf(x).Some?));
      StayOfLastIds(|earlier| + 1, r, stayOf);
    }
  }

  /** The stay of one resident belongs to it, when `stayOf` keeps it. */
  lemma StayOfLastIds(id: int, r: Resident, stayOf: Resident -> Option<(Day, Day)>)
    ensures StayResidentIds(StayOfLast(id, r, stayOf)) == ResidentIds(Filter([r], x => stayOf(x).Some?))
  {
    assert [r][1..] == [];
  }

  /** Stay k has both dates, and they are the dates `stayOf` gives `kept[k]`. */
  predicate DatesMatch(stays: seq<PlanningStay>, kept: seq<Resident>, stayOf: Resident -> Option<(Day, Day)>)
  {
    |stays| == |kept|
    && forall k :: 0 <= k < |stays| ==>
         stays[k].start.At? && stays[k].end.At? && stayOf(kept[k]) == Some((stays[k].start.day, stays[k].end.day))
  }

  lemma DatesMatchAppend(a: seq<PlanningStay>, ka: seq<Resident>, b: seq<PlanningStay>, kb: seq<Resident>,
                         stayOf: Resident -> Option<(Day, Day)>)
    requires DatesMatch(a, ka, stayOf) && DatesMatch(b, kb, stayOf)
    ensures DatesMatch(a + b, ka + kb, stayOf)
  {
    forall k | 0 <= k < |a + b|
      ensures (a + b)[k].start.At? && (a + b)[k].end.At?
              && stayOf((ka + kb)[k]) == Some(((a + b)[k].start.day, (a + b)[k].end.day))
    {
      if k >= |a| {
        assert (a + b)[k] == b[k - |a|] && (ka + kb)[k] == kb[k - |a|];
      }
    }
  }

  /** The stay of one resident has the dates `stayOf` gives it, when `stayOf` keeps it. */
  lemma StayOfLastDates(id: int, r: Resident, stayOf: Resident -> Option<(Day, Day)>)
    ensures DatesMatch(StayOfLast(id, r, stayOf), Filter([r], x => stayOf(x).Some?), stayOf)
  {
    assert [r][1..] == [];
  }

  /**
   * Stay k carries the dates `stayOf` gives the k-th resident it keeps: the
   * resident the stay belongs to.
   */
  lemma {:induction false} NumberedStaysDates(residents: seq<Resident>, stayOf: Resident -> Option<(Day, Day)>)
    ensures var stays, kept := NumberedStays(residents, stayOf), Filter(residents, r => stayOf(r).Some?);
      |stays| == |kept|
      && forall k :: 0 <= k < |stays| ==>
           stays[k].start.At? && stays[k].end.At? && stayOf(kept[k]) == Some((stays[k].start.day, stays[k].end.day))
    decreases |residents|
  {
    if residents != [] {
      var init := residents[..|residents| - 1];
      var r := residents[|residents| - 1];
      NumberedStaysDates(init, stayOf);
      InitLast(residents);
      FilterAppend(init, [r], x => stayOf(x).Some?);
      var earlier := NumberedStays(init, stayOf);
      StayOfLastDates(|earlier| + 1, r, stayOf);
      DatesMatchAppend(earlier, Filter(init, x => stayOf(x).Some?),
                       StayOfLast(|earlier| + 1, r, stayOf), Filter([r], x => stayOf(x).Some?), stayOf);
    }
  }

  /**
   * The generated stays are numbered 1, 2, 3, ..., belong, in order, to
   * exactly the residents whose stay overlaps the month, and each lies
   * across the month.
   */
  lemma MonthStaysSpec(residents: seq<Resident>, first: Day, last: Day)
    ensures var stays := MonthStays(residents, first, last);
      StayResidentIds(stays) == ResidentIds(Filter(residents, r => OverlapsMonth(r, first, last)))
      && (forall k :: 0 <= k < |stays| ==> stays[k].id == k + 1)
      && (forall k :: 0 <= k < |stays| ==>
            stays[k].start.At? && stays[k].end.At? && stays[k].start.day <= last && first <= stays[k].end.day)
  {
    MonthStaysResidents(residents, first, last);
    MonthStaysNumbered(residents, first, last);
    MonthStaysAcross(residents, first, last);
  }

  lemma MonthStaysResidents(residents: seq<Resident>, first: Day, last: Day)
    ensures StayResidentIds(MonthStays(residents, first, last))
            == ResidentIds(Filter(residents, r => OverlapsMonth(r, first, last)))
  {
    var stayOf := r => MonthStayOf(r, first, last);
    NumberedStaysIds(residents, stayOf);
    FilterSame(residents, r => stayOf(r).Some?, r => OverlapsMonth(r, first, last));
  }

  lemma MonthStaysNumbered(residents: seq<Resident>, first: Day, last: Day)
    ensures var stays := MonthStays(residents, first, last);
      forall k :: 0 <= k < |stays| ==> stays[k].id == k + 1
  {
    NumberedStaysNumbering(residents, r => MonthStayOf(r, first, last));
  }

  lemma MonthStaysAcross(residents: seq<Resident>, first: Day, last: Day)
    ensures var stays := MonthStays(residents, first, last);
      forall k :: 0 <= k < |stays| ==>
        stays[k].start.At? && stays[k].end.At? && stays[k].start.day <= last && first <= stays[k].end.day
  {
    var stayOf := r => MonthStayOf(r, first, last);
    NumberedStaysDates(residents, stayOf);
    var stays, kept := MonthStays(residents, first, last), Filter(residents, r => stayOf(r).Some?);
    forall k | 0 <= k < |stays|
      ensures stays[k].start.At? && stays[k].end.At? && stays[k].start.day <= last && first <= stays[k].end.day
    {
      assert MonthStayOf(kept[k], first, last) == Some((stays[k].start.day, stays[k].end.day));
    }
  }

  /**
   * Stay k belongs to the k-th resident overlapping the month and carries
   * that resident's parsed arrival and departure.
   */
  lemma MonthStaysDates(residents: seq<Resident>, first: Day, last: Day)
    ensures var stays, kept := MonthStays(residents, first, last), Filter(residents, r => OverlapsMonth(r, first, last));
      |stays| == |kept|
      && forall k :: 0 <= k < |stays| ==>
           stays[k].residentId == kept[k].id && stays[k].start.At? && stays[k].end.At?
           && ParseDate(kept[k].arrival) == Some(stays[k].start.day)
           && ParseDate(kept[k].departure) == Some(stays[k].end.day)
  {
    var stayOf := r => MonthStayOf(r, first, last);
    NumberedStaysDates(residents, stayOf);
    MonthStaysResidents(residents, first, last);
    FilterSame(residents, r => stayOf(r).Some?, r => OverlapsMonth(r, first, last));
    var stays, kept := MonthStays(residents, first, last), Filter(residents, r => OverlapsMonth(r, first, last));
    forall k | 0 <= k < |stays|
      ensures stays[k].residentId == kept[k].id && stays[k].start.At? && stays[k].end.At?
              && ParseDate(kept[k].arrival) == Some(stays[k].start.day)
              && ParseDate(kept[k].departure) == Some(stays[k].end.day)
    {
      assert StayResidentIds(stays)[k] == ResidentIds(kept)[k];
      assert MonthStayOf(kept[k], first, last) == Some((stays[k].start.day, stays[k].end.day));
    }
  }

  /** A stay arriving on the month's last day, or leaving on its first, is part of the month. */
  lemma MonthEndsIncluded(r: Resident, first: Day, last: Day)
    requires first <= last
    requires ParseDate(r.arrival) == Some(last) || ParseDate(r.departure) == Some(first)
    requires ParseDate(r.arrival).Some? && ParseDate(r.departure).Some?
    requires ParseDate(r.arrival).value <= ParseDate(r.departure).value
    ensures OverlapsMonth(r, first, last)
  {
  }

  // ---------------------------------------------------------------------
  // generatePlanningData
  // ---------------------------------------------------------------------

  /** `Chambre ${n}`. */
  function RoomName(n: nat): string
  {
    "Chambre " + NatToDecimal(n)
  }

  /**
   * The room a stay goes to: its resident's room read with `parseInt`,
   * when that resident exists and the number is 1 to 24.
   */
  function BucketOf(residents: seq<Resident>, stay: PlanningStay): (n: Option<int>)
    ensures n.Some? ==> 1 <= n.value <= TotalRooms
    ensures n.Some? <==> (FindById(residents, stay.residentId).Some?
                          && var p := ParseInt(FindById(residents, stay.residentId).value.room);
                          p.Some? && 0 < p.value <= TotalRooms)
    ensures n.Some? ==> n.value == ParseInt(FindById(residents, stay.residentId).value.room).value
  {
    var resident := FindById(residents, stay.residentId);
    if resident.None? then None
    else
      var roomNumber := ParseInt(resident.value.room);
      if roomNumber.Some? && 0 < roomNumber.value <= TotalRooms then Some(roomNumber.value) else None
  }

  /** The stays that `bucketOf` sends to room `n`, in order. */
  function Bucket(stays: seq<PlanningStay>, bucketOf: PlanningStay -> Option<int>, n: int): seq<PlanningStay>
  {
    if stays == [] then []
    else
      var s := stays[|stays| - 1];
      Bucket(stays[..|stays| - 1], bucketOf, n) + (if bucketOf(s) == Some(n) then [s] else [])
  }

  /** The stays of room `n`, in generation order. */
  function BucketStays(residents: seq<Resident>, stays: seq<PlanningStay>, n: int): seq<PlanningStay>
  {
    Bucket(stays, s => BucketOf(residents, s), n)
  }

  /** The 24 rooms "Chambre 1" to "Chambre 24", each holding its bucket of `stays`. */
  function PlannedRooms(residents: seq<Resident>, stays: seq<PlanningStay>): (rooms: seq<PlanningRoom>)
    ensures |rooms| == TotalRooms
    ensures forall k :: 0 <= k < TotalRooms ==> rooms[k] == PlanningRoom(RoomName(k + 1), BucketStays(residents, stays, k + 1))
  {
    RoomsOf(stays, s => BucketOf(residents, s))
  }

  /** The 24 rooms, room `n` holding the stays `bucketOf` sends to `n`. */
  function RoomsOf(stays: seq<PlanningStay>, bucketOf: PlanningStay -> Option<int>): (rooms: seq<PlanningRoom>)
    ensures |rooms| == TotalRooms
  {
    seq(TotalRooms, k requires 0 <= k < TotalRooms => PlanningRoom(RoomName(k + 1), Bucket(stays, bucketOf, k + 1)))
  }

  /**
   * `generatePlanningData`: 24 rooms "Chambre 1" to "Chambre 24", in order,
   * each with the stays whose resident's room is its number.
   */
  method GeneratePlanningData(residents: seq<Resident>, stays: seq<PlanningStay>) returns (rooms: seq<PlanningRoom>)
    ensures rooms == PlannedRooms(residents, stays)
  {
    var a := NewRooms(residents, stays);
    var j := 0;
    while j < |stays|
      invariant 0 <= j <= |stays|
      invariant a[..] == PlannedRooms(residents, stays[..j])
    {
      FileNextStay(a, residents, stays, j);
      j := j + 1;
    }
    assert stays[..|stays|] == stays;
    rooms := a[..];
  }

  /** The body of the `forEach`: looks up the resident of stay `j` and files the stay in that resident's room. */
  method FileNextStay(a: array<PlanningRoom>, residents: seq<Resident>, stays: seq<PlanningStay>, j: int)
    requires 0 <= j < |stays| && a[..] == PlannedRooms(residents, stays[..j])
    modifies a
    ensures a[..] == PlannedRooms(residents, stays[..j + 1])
  {
    var stay := stays[j];
    var room := BucketOf(residents, stay);
    FileStay(a, room, stay);
    PlannedRoomsGrow(residents, stays, j);
  }

  /** The 24 rooms, named and still empty: the rooms of no stay at all. */
  method NewRooms(residents: seq<Resident>, stays: seq<PlanningStay>) returns (a: array<PlanningRoom>)
    ensures fresh(a) && a[..] == PlannedRooms(residents, stays[..0])
  {
    a := new PlanningRoom[24](i => PlanningRoom(RoomName(i + 1), []));
  }

  /** Appends a stay to the room it is sent to, if any; the other rooms keep their stays. */
  method FileStay(a: array<PlanningRoom>, room: Option<int>, stay: PlanningStay)
    requires a.Length == TotalRooms && (room.Some? ==> 1 <= room.value <= TotalRooms)
    modifies a
    ensures a[..] == Filed(old(a[..]), room, stay)
  {
    if room.Some? {
      var k := room.value - 1;
      a[k] := a[k].(stays := a[k].stays + [stay]);
    }
  }

  /** `rooms` with `stay` appended to room number `room`, if any; the other rooms as they were. */
  function Filed(rooms: seq<PlanningRoom>, room: Option<int>, stay: PlanningStay): (r: seq<PlanningRoom>)
    requires |rooms| == TotalRooms && (room.Some? ==> 1 <= room.value <= TotalRooms)
    ensures |r| == TotalRooms
  {
    if room.Some? then rooms[room.value - 1 := rooms[room.value - 1].(stays := rooms[room.value - 1].stays + [stay])]
    else rooms
  }

  /** One more stay joins the room it is sent to and leaves the others as they were. */
  lemma PlannedRoomsGrow(residents: seq<Resident>, stays: seq<PlanningStay>, j: int)
    requires 0 <= j < |stays|
    ensures PlannedRooms(residents, stays[..j + 1])
            == Filed(PlannedRooms(residents, stays[..j]), BucketOf(residents, stays[j]), stays[j])
  {
    RoomsGrow(stays, s => BucketOf(residents, s), j);
  }

  /** One more stay is appended to the room `bucketOf` sends it to, if any; the other rooms stay as they were. */
  lemma RoomsGrow(stays: seq<PlanningStay>, bucketOf: PlanningStay -> Option<int>, j: int)
    requires 0 <= j < |stays|
    requires bucketOf(stays[j]).Some? ==> 1 <= bucketOf(stays[j]).value <= TotalRooms
    ensures RoomsOf(stays[..j + 1], bucketOf) == Filed(RoomsOf(stays[..j], bucketOf), bucketOf(stays[j]), stays[j])
  {
    BucketGrow(stays, bucketOf, j);
    var before := RoomsOf(stays[..j], bucketOf);
    var after := RoomsOf(stays[..j + 1], bucketOf);
    var room := bucketOf(stays[j]);
    var expected := Filed(before, room, stays[j]);
    forall k | 0 <= k < TotalRooms
      ensures after[k] == expected[k]
    {
      if room == Some(k + 1) {
      } else {
      }
    }
  }

  /** One more stay joins the bucket it is sent to and no other. */
  lemma BucketGrow(stays: seq<PlanningStay>, bucketOf: PlanningStay -> Option<int>, j: int)
    requires 0 <= j < |stays|
    ensures forall n :: Bucket(stays[..j + 1], bucketOf, n)
                        == Bucket(stays[..j], bucketOf, n) + (if bucketOf(stays[j]) == Some(n) then [stays[j]] else [])
  {
    assert stays[..j + 1][..j] == stays[..j];
  }

  /**
   * A bucket holds, in order, exactly the stays `bucketOf` sends to it.
   */
  lemma {:induction false} BucketSpec(stays: seq<PlanningStay>, bucketOf: PlanningStay -> Option<int>, n: int)
    ensures IsSubsequence(Bucket(stays, bucketOf, n), stays)
    ensures forall s :: s in Bucket(stays, bucketOf, n) ==> bucketOf(s) == Some(n)
    ensures forall j :: 0 <= j < |stays| && bucketOf(stays[j]) == Some(n) ==> stays[j] in Bucket(stays, bucketOf, n)
    decreases |stays|
  {
    if stays != [] {
      var init := stays[..|stays| - 1];
      var s := stays[|stays| - 1];
      BucketSpec(init, bucketOf, n);
      InitLast(stays);
      var b := Bucket(init, bucketOf, n);
      assert Bucket(stays, bucketOf, n) == b + (if bucketOf(s) == Some(n) then [s] else []);
      if bucketOf(s) == Some(n) {
        SubsequenceAppend(b, init, s);
        assert IsSubsequence(Bucket(stays, bucketOf, n), stays);
      } else {
        SubsequenceExtend(b, init, s);
        assert b + [] == b;
        assert IsSubsequence(Bucket(stays, bucketOf, n), stays);
      }
      forall x | x in Bucket(stays, bucketOf, n) ensures bucketOf(x) == Some(n) {
        assert x in b || (x == s && bucketOf(s) == Some(n));
      }
      forall j | 0 <= j < |stays| && bucketOf(stays[j]) == Some(n)
        ensures stays[j] in Bucket(stays, bucketOf, n)
      {
        if j < |init| {
          assert stays[j] == init[j];
        }
      }
    }
  }

  /**
   * A room holds, in generation order, exactly the stays sent to its
   * number: stays of unknown residents and of rooms out of 1..24 (or not a
   * number) are in no room.
   */
  lemma BucketStaysSpec(residents: seq<Resident>, stays: seq<PlanningStay>, n: int)
    ensures IsSubsequence(BucketStays(residents, stays, n), stays)
    ensures forall s :: s in BucketStays(residents, stays, n) ==> BucketOf(residents, s) == Some(n)
    ensures forall j :: 0 <= j < |stays| && BucketOf(residents, stays[j]) == Some(n) ==> stays[j] in BucketStays(residents, stays, n)
  {
    BucketSpec(stays, s => BucketOf(residents, s), n);
  }

  /** Appending the same element to both keeps a subsequence. */
  lemma {:induction false} SubsequenceAppend<T>(a: seq<T>, b: seq<T>, x: T)
    requires IsSubsequence(a, b)
    ensures IsSubsequence(a + [x], b + [x])
    decreases |b|
  {
    if a == [] {
      assert a + [x] == [x];
      SubsequenceOfSingleton(b, x);
    } else {
      assert (a + [x])[0] == a[0] && (a + [x])[1..] == a[1..] + [x];
      assert b != [];
      assert (b + [x])[0] == b[0] && (b + [x])[1..] == b[1..] + [x];
      if a[0] == b[0] && IsSubsequence(a[1..], b[1..]) {
        SubsequenceAppend(a[1..], b[1..], x);
      } else {
        SubsequenceAppend(a, b[1..], x);
      }
    }
  }

  /** `[x]` is a subsequence of anything ending in `x`. */
  lemma {:induction false} SubsequenceOfSingleton<T>(b: seq<T>, x: T)
    ensures IsSubsequence([x], b + [x])
    decreases |b|
  {
    if b != [] {
      assert (b + [x])[1..] == b[1..] + [x];
      SubsequenceOfSingleton(b[1..], x);
    } else {
      assert [x][1..] == [];
    }
  }

  /** A subsequence stays one when the sequence grows at its end. */
  lemma {:induction false} SubsequenceExtend<T>(a: seq<T>, b: seq<T>, x: T)
    requires IsSubsequence(a, b)
    ensures IsSubsequence(a, b + [x])
    decreases |b|
  {
    if a != [] {
      assert b != [];
      assert (b + [x])[0] == b[0] && (b + [x])[1..] == b[1..] + [x];
      if a[0] == b[0] && IsSubsequence(a[1..], b[1..]) {
        SubsequenceExtend(a[1..], b[1..], x);
      } else {
        SubsequenceExtend(a, b[1..], x);
      }
    }
  }

  /** The stays held by buckets 1 to `k`. */
  function TotalBucketed(stays: seq<PlanningStay>, bucketOf: PlanningStay -> Option<int>, k: nat): nat
  {
    if k == 0 then 0 else TotalBucketed(stays, bucketOf, k - 1) + |Bucket(stays, bucketOf, k)|
  }

  /**
   * The 24 rooms together hold each stay sent to a room once, so no more
   * stays than were generated.
   */
  lemma TotalBucketedCount(residents: seq<Resident>, stays: seq<PlanningStay>)
    ensures var bucketOf := s => BucketOf(residents, s);
      TotalBucketed(stays, bucketOf, TotalRooms) == |Filter(stays, s => BucketOf(residents, s).Some?)|
      && TotalBucketed(stays, bucketOf, TotalRooms) <= |stays|
  {
    var bucketOf := s => BucketOf(residents, s);
    TotalCount(stays, bucketOf, TotalRooms);
    FilterSame(stays, s => bucketOf(s).Some? && 1 <= bucketOf(s).value <= TotalRooms, s => BucketOf(residents, s).Some?);
  }

  /** Buckets 1 to `k` hold the stays sent to one of them, each once. */
  lemma {:induction false} TotalCount(stays: seq<PlanningStay>, bucketOf: PlanningStay -> Option<int>, k: nat)
    ensures TotalBucketed(stays, bucketOf, k) == |Filter(stays, s => bucketOf(s).Some? && 1 <= bucketOf(s).value <= k)|
    decreases |stays|
  {
    if stays == [] {
      TotalEmpty(bucketOf, k);
    } else {
      var init := stays[..|stays| - 1];
      var s := stays[|stays| - 1];
      TotalCount(init, bucketOf, k);
      TotalStep(init, bucketOf, s, k);
      InitLast(stays);
      FilterAppend(init, [s], x => bucketOf(x).Some? && 1 <= bucketOf(x).value <= k);
    }
  }

  lemma {:induction false} TotalEmpty(bucketOf: PlanningStay -> Option<int>, k: nat)
    ensures TotalBucketed([], bucketOf, k) == 0
  {
    if k > 0 {
      TotalEmpty(bucketOf, k - 1);
    }
  }

  /** One more stay adds one to buckets 1 to `k` when it goes to one of them. */
  lemma {:induction false} TotalStep(stays: seq<PlanningStay>, bucketOf: PlanningStay -> Option<int>, s: PlanningStay, k: nat)
    ensures TotalBucketed(stays + [s], bucketOf, k)
            == TotalBucketed(stays, bucketOf, k) + (if bucketOf(s).Some? && 1 <= bucketOf(s).value <= k then 1 else 0)
  {
    if k > 0 {
      TotalStep(stays, bucketOf, s, k - 1);
      assert (stays + [s])[..|stays|] == stays;
    }
  }

  // ---------------------------------------------------------------------
  // RESIDENTS
  // ---------------------------------------------------------------------

  /** A seed resident: active, phone "N/A", documents incomplete, quote sent, no document. */
  function SeedResident(id: int, name: string, room: string, gir: string, arrival: string, departure: string,
                        birthDate: string, imageRights: string): Resident
  {
    Resident(id, name, room, gir, Active, arrival, departure, "N/A", false, true, "",
             map["birthDate" := birthDate, "imageRights" := imageRights], [])
  }

  /** `RESIDENTS`: the 24 seed residents, written as four runs of six. */
  function Seed(): seq<Resident>
  {
    SeedPart1() + SeedPart2() + SeedPart3() + SeedPart4()
  }

  function SeedPart1(): seq<Resident>
  {
    [ SeedResident(1, "BONAVITA Joseph", "1", "GIR 4", "2025-07-07", "2025-08-07", "1948-04-03", "oui"),
      SeedResident(2, "SACHOT Huguette", "2", "GIR 6", "2025-07-03", "2025-07-25", "1943-08-28", "oui sauf réseaux sociaux"),
      SeedResident(3, "TRICHEREAU Marie Josèphe", "3", "GIR 5", "2025-06-13", "2025-09-13", "1946-08-26", "oui sauf réseaux sociaux"),
      SeedResident(4, "VINET Marie Madeleine", "4", "GIR 4", "2025-06-11", "2025-09-11", "1939-03-22", "oui sauf réseaux sociaux"),
      SeedResident(5, "GIRARD Marie Josèphe", "5", "GIR 4", "2025-06-13", "2025-09-13", "1936-12-01", "oui sauf réseaux sociaux"),
      SeedResident(6, "PBEAU Michelle", "6", "GIR 4", "2025-04-10", "2025-09-13", "1935-07-03", "non") ]
  }

  function SeedPart2(): seq<Resident>
  {
    [ SeedResident(7, "LAPORTE André", "7", "GIR 4", "2025-04-14", "2025-08-15", "1936-08-28", "oui"),
      SeedResident(8, "GOURAUD Georgette", "8", "GIR 5", "2025-07-11", "2025-07-23", "1938-01-18", "oui sauf réseaux sociaux"),
      SeedResident(9, "RAVELEAU Daniel", "9", "GIR 4", "2025-06-11", "2025-07-23", "1958-09-16", "oui sauf réseaux sociaux"),
      SeedResident(10, "LUCAS Chantal", "10", "GIR 6", "2025-05-14", "2025-08-15", "1943-03-23", "non"),
      SeedResident(11, "BERNARD Gilbert", "11", "GIR 4", "2025-03-12", "2025-09-12", "1927-10-20", "non"),
      SeedResident(12, "ALLEMAND Guy", "12", "GIR 3", "2025-05-20", "2025-07-31", "1940-12-09", "oui sauf réseaux sociaux") ]
  }

  function SeedPart3(): seq<Resident>
  {
    [ SeedResident(13, "VALTON Andrée", "13", "GIR 5", "2025-07-15", "2025-09-11", "1944-01-02", "oui"),
      SeedResident(14, "ZEELEN Bernadette", "14", "GIR 4", "2025-06-23", "2025-09-23", "1933-02-26", "oui sauf réseaux sociaux"),
      SeedResident(15, "BILLAUD Louis", "15", "GIR 4", "2025-01-15", "2025-08-17", "1952-02-23", "oui sauf réseaux sociaux"),
      SeedResident(16, "JEANNEAU Christiane", "16", "GIR 6", "2025-04-22", "2025-07-21", "1947-08-23", "oui sauf réseaux sociaux"),
      SeedResident(17, "COUTAND Gérard", "17", "GIR 4", "2025-07-07", "2025-08-07", "1942-12-06", "oui"),
      SeedResident(18, "GARAUD Ginette", "18", "GIR 4", "2025-04-03", "2025-09-06", "1938-09-21", "oui sauf réseaux sociaux") ]
  }

  function SeedPart4(): seq<Resident>
  {
    [ SeedResident(19, "JAMIN Bruno", "19", "GIR 2", "2025-03-03", "2025-09-04", "1955-03-19", "non"),
      SeedResident(20, "GARAUD Jean", "20", "GIR 3", "2025-03-06", "2025-09-06", "1936-10-26", "oui"),
      SeedResident(21, "GILBERT Marie-Cécile", "21", "GIR 6", "2025-07-04", "2025-09-04", "1940-11-19", "oui sauf réseaux sociaux"),
      SeedResident(22, "BORDRON Lucienne", "22", "GIR 5", "2025-06-16", "2025-07-31", "1934-04-21", "oui"),
      SeedResident(23, "RONDEAU Marie Thérèse", "23", "GIR 3", "2025-05-22", "2025-08-28", "1942-01-28", "oui"),
      SeedResident(24, "LEBRETON André", "24", "GIR 2", "2025-06-05", "2025-09-05", "1937-08-03", "oui") ]
  }

  // The seed's facts are shown six residents at a time and digit by digit,
  // so that no day number of a literal year has to be unfolded.

  /** `s` has the `full-date` shape: four digits, '-', two digits, '-', two digits. */
  predicate DateShaped(s: string)
  {
    |s| == 10 && s[4] == '-' && s[7] == '-'
    && IsDigit(s[0]) && IsDigit(s[1]) && IsDigit(s[2]) && IsDigit(s[3])
    && IsDigit(s[5]) && IsDigit(s[6]) && IsDigit(s[8]) && IsDigit(s[9])
  }

  /** The year, month and day written in a `full-date` shaped text. */
  function TextCivil(s: string): Civil
    requires DateShaped(s)
  {
    Civil(1000 * DigitValue(s[0]) + 100 * DigitValue(s[1]) + 10 * DigitValue(s[2]) + DigitValue(s[3]),
          10 * DigitValue(s[5]) + DigitValue(s[6]),
          10 * DigitValue(s[8]) + DigitValue(s[9]))
  }

  /** `a` comes before `b` in (year, month, day) order. */
  predicate CivilBefore(a: Civil, b: Civil)
  {
    a.year < b.year || (a.year == b.year && (a.month < b.month || (a.month == b.month && a.day < b.day)))
  }

  /** Both dates of `r` are valid `full-date` texts, the arrival first. */
  predicate TextStayOrdered(r: Resident)
  {
    DateShaped(r.arrival) && DateShaped(r.departure)
    && ValidCivil(TextCivil(r.arrival)) && ValidCivil(TextCivil(r.departure))
    && CivilBefore(TextCivil(r.arrival), TextCivil(r.departure))
  }

  /** Seed resident `r` has id `id` and the room of the same number. */
  predicate SeedIdRoom(r: Resident, id: nat)
  {
    r.id == id && r.room == NatToDecimal(id)
  }

  /** A run of residents numbered from `first`, each in the room of its number. */
  predicate IdRoomRun(run: seq<Resident>, first: nat)
  {
    forall i :: 0 <= i < |run| ==> SeedIdRoom(run[i], first + i)
  }

  /** A run of residents each arriving before leaving, in `full-date` text. */
  predicate OrderedRun(run: seq<Resident>)
  {
    forall i :: 0 <= i < |run| ==> TextStayOrdered(run[i])
  }

  lemma SeedPart1Ids()
    ensures |SeedPart1()| == 6 && IdRoomRun(SeedPart1(), 1)
  {
    var p := SeedPart1();
    assert SeedIdRoom(p[0], 1);
    assert SeedIdRoom(p[1], 2);
    assert SeedIdRoom(p[2], 3);
    assert SeedIdRoom(p[3], 4);
    assert SeedIdRoom(p[4], 5);
    assert SeedIdRoom(p[5], 6);
    IdsOfSix(p, 1);
  }

  lemma SeedPart2Ids()
    ensures |SeedPart2()| == 6 && IdRoomRun(SeedPart2(), 7)
  {
    var p := SeedPart2();
    assert SeedIdRoom(p[0], 7);
    assert SeedIdRoom(p[1], 8);
    assert SeedIdRoom(p[2], 9);
    assert SeedIdRoom(p[3], 10);
    assert SeedIdRoom(p[4], 11);
    assert SeedIdRoom(p[5], 12);
    IdsOfSix(p, 7);
  }

  lemma SeedPart3Ids()
    ensures |SeedPart3()| == 6 && IdRoomRun(SeedPart3(), 13)
  {
    var p := SeedPart3();
    assert SeedIdRoom(p[0], 13);
    assert SeedIdRoom(p[1], 14);
    assert SeedIdRoom(p[2], 15);
    assert SeedIdRoom(p[3], 16);
    assert SeedIdRoom(p[4], 17);
    assert SeedIdRoom(p[5], 18);
    IdsOfSix(p, 13);
  }

  lemma SeedPart4Ids()
    ensures |SeedPart4()| == 6 && IdRoomRun(SeedPart4(), 19)
  {
    var p := SeedPart4();
    assert SeedIdRoom(p[0], 19);
    assert SeedIdRoom(p[1], 20);
    assert SeedIdRoom(p[2], 21);
    assert SeedIdRoom(p[3], 22);
    assert SeedIdRoom(p[4], 23);
    assert SeedIdRoom(p[5], 24);
    IdsOfSix(p, 19);
  }

  lemma Seed1Ordered()
    ensures TextStayOrdered(SeedPart1()[0])
  {
  }

  lemma Seed2Ordered()
    ensures TextStayOrdered(SeedPart1()[1])
  {
  }

  lemma Seed3Ordered()
    ensures TextStayOrdered(SeedPart1()[2])
  {
  }

  lemma Seed4Ordered()
    ensures TextStayOrdered(SeedPart1()[3])
  {
  }

  lemma Seed5Ordered()
    ensures TextStayOrdered(SeedPart1()[4])
  {
  }

  lemma Seed6Ordered()
    ensures TextStayOrdered(SeedPart1()[5])
  {
  }

  lemma Seed7Ordered()
    ensures TextStayOrdered(SeedPart2()[0])
  {
  }

  lemma Seed8Ordered()
    ensures TextStayOrdered(SeedPart2()[1])
  {
  }

  lemma Seed9Ordered()
    ensures TextStayOrdered(SeedPart2()[2])
  {
  }

  lemma Seed10Ordered()
    ensures TextStayOrdered(SeedPart2()[3])
  {
  }

  lemma Seed11Ordered()
    ensures TextStayOrdered(SeedPart2()[4])
  {
  }

  lemma Seed12Ordered()
    ensures TextStayOrdered(SeedPart2()[5])
  {
  }

  lemma Seed13Ordered()
    ensures TextStayOrdered(SeedPart3()[0])
  {
  }

  lemma Seed14Ordered()
    ensures TextStayOrdered(SeedPart3()[1])
  {
  }

  lemma Seed15Ordered()
    ensures TextStayOrdered(SeedPart3()[2])
  {
  }

  lemma Seed16Ordered()
    ensures TextStayOrdered(SeedPart3()[3])
  {
  }

  lemma Seed17Ordered()
    ensures TextStayOrdered(SeedPart3()[4])
  {
  }

  lemma Seed18Ordered()
    ensures TextStayOrdered(SeedPart3()[5])
  {
  }

  lemma Seed19Ordered()
    ensures TextStayOrdered(SeedPart4()[0])
  {
  }

  lemma Seed20Ordered()
    ensures TextStayOrdered(SeedPart4()[1])
  {
  }

  lemma Seed21Ordered()
    ensures TextStayOrdered(SeedPart4()[2])
  {
  }

  lemma Seed22Ordered()
    ensures TextStayOrdered(SeedPart4()[3])
  {
  }

  lemma Seed23Ordered()
    ensures TextStayOrdered(SeedPart4()[4])
  {
  }

  lemma Seed24Ordered()
    ensures TextStayOrdered(SeedPart4()[5])
  {
  }

  lemma SeedPart1Ordered()
    ensures OrderedRun(SeedPart1())
  {
    Seed1Ordered();
    Seed2Ordered();
    Seed3Ordered();
    Seed4Ordered();
    Seed5Ordered();
    Seed6Ordered();
    OrderedOfSix(SeedPart1());
  }

  lemma SeedPart2Ordered()
    ensures OrderedRun(SeedPart2())
  {
    Seed7Ordered();
    Seed8Ordered();
    Seed9Ordered();
    Seed10Ordered();
    Seed11Ordered();
    Seed12Ordered();
    OrderedOfSix(SeedPart2());
  }

  lemma SeedPart3Ordered()
    ensures OrderedRun(SeedPart3())
  {
    Seed13Ordered();
    Seed14Ordered();
    Seed15Ordered();
    Seed16Ordered();
    Seed17Ordered();
    Seed18Ordered();
    OrderedOfSix(SeedPart3());
  }

  lemma SeedPart4Ordered()
    ensures OrderedRun(SeedPart4())
  {
    Seed19Ordered();
    Seed20Ordered();
    Seed21Ordered();
    Seed22Ordered();
    Seed23Ordered();
    Seed24Ordered();
    OrderedOfSix(SeedPart4());
  }

  /** Six residents numbered one after the other make a numbered run. */
  lemma IdsOfSix(p: seq<Resident>, first: nat)
    requires |p| == 6
    requires SeedIdRoom(p[0], first) && SeedIdRoom(p[1], first + 1) && SeedIdRoom(p[2], first + 2)
    requires SeedIdRoom(p[3], first + 3) && SeedIdRoom(p[4], first + 4) && SeedIdRoom(p[5], first + 5)
    ensures IdRoomRun(p, first)
  {
    forall i | 0 <= i < 6
      ensures SeedIdRoom(p[i], first + i)
    {
      if i == 0 {
        assert first + i == first;
      } else if i == 1 {
        assert first + i == first + 1;
      } else if i == 2 {
        assert first + i == first + 2;
      } else if i == 3 {
        assert first + i == first + 3;
      } else if i == 4 {
        assert first + i == first + 4;
      } else {
        assert first + i == first + 5;
      }
    }
  }

  /** Six residents each arriving before leaving make an ordered run. */
  lemma OrderedOfSix(p: seq<Resident>)
    requires |p| == 6
    requires TextStayOrdered(p[0]) && TextStayOrdered(p[1]) && TextStayOrdered(p[2])
    requires TextStayOrdered(p[3]) && TextStayOrdered(p[4]) && TextStayOrdered(p[5])
    ensures OrderedRun(p)
  {
    forall i | 0 <= i < 6
      ensures TextStayOrdered(p[i])
    {
      if i == 0 {
      } else if i == 1 {
      } else if i == 2 {
      } else if i == 3 {
      } else if i == 4 {
      } else {
      }
    }
  }

  /** Two runs numbered one after the other make one run. */
  lemma IdRoomRunAppend(a: seq<Resident>, b: seq<Resident>, first: nat)
    requires IdRoomRun(a, first) && IdRoomRun(b, first + |a|)
    ensures IdRoomRun(a + b, first)
  {
    forall i | 0 <= i < |a + b|
      ensures SeedIdRoom((a + b)[i], first + i)
    {
      if i >= |a| {
        assert (a + b)[i] == b[i - |a|];
      }
    }
  }

  /** Two ordered runs make one. */
  lemma OrderedRunAppend(a: seq<Resident>, b: seq<Resident>)
    requires OrderedRun(a) && OrderedRun(b)
    ensures OrderedRun(a + b)
  {
    forall i | 0 <= i < |a + b|
      ensures TextStayOrdered((a + b)[i])
    {
      if i >= |a| {
        assert (a + b)[i] == b[i - |a|];
      }
    }
  }

  /** A full-date shaped text of a valid date parses to that date. */
  lemma ParseDateText(s: string)
    requires DateShaped(s) && ValidCivil(TextCivil(s))
    ensures ParseFullDate(s) == Some(DayNumber(TextCivil(s)))
  {
    TwoDigits(s[5..7]);
    TwoDigits(s[8..]);
    var t := s[..4];
    assert IsDigits(t) by {
      assert t[0] == s[0] && t[1] == s[1] && t[2] == s[2] && t[3] == s[3];
    }
    TwoDigits(t[..2]);
    assert t[..3][..2] == t[..2];
    assert DecimalValue(t[..3]) == DecimalValue(t[..2]) * 10 + DigitValue(s[2]);
    assert DecimalValue(t) == DecimalValue(t[..3]) * 10 + DigitValue(s[3]);
    assert IsFullDateShape(s);
  }

  lemma TwoDigits(u: string)
    requires |u| == 2 && IsDigit(u[0]) && IsDigit(u[1])
    ensures IsDigits(u) && DecimalValue(u) == 10 * DigitValue(u[0]) + DigitValue(u[1])
  {
    assert u[..1][..0] == [] && u[..1][0] == u[0];
    assert DecimalValue(u[..1]) == DigitValue(u[0]);
  }

  /** Arrival strictly before departure, as parsed dates. */
  predicate StayOrdered(r: Resident)
  {
    Before(ParseFullDate(r.arrival), ParseFullDate(r.departure))
  }

  /** Dates ordered as text are ordered as parsed dates. */
  lemma TextStayOrderedParses(r: Resident)
    requires TextStayOrdered(r)
    ensures StayOrdered(r)
  {
    ParseDateText(r.arrival);
    ParseDateText(r.departure);
    DayNumberOrder(TextCivil(r.arrival), TextCivil(r.departure));
  }

  /**
   * The seed has 24 residents with ids 1 to 24, each in the room numbered
   * like its id, so no two share an id.
   */
  lemma SeedIds()
    ensures |Seed()| == TotalRooms
    ensures forall i :: 0 <= i < TotalRooms ==> Seed()[i].id == i + 1 && Seed()[i].room == RoomIds()[i]
    ensures forall i, j :: 0 <= i < j < |Seed()| ==> Seed()[i].id != Seed()[j].id
  {
    SeedIdRoomRun();
    NumberedRunIds(Seed());
  }

  /** The four parts of the seed make one run numbered from 1. */
  lemma SeedIdRoomRun()
    ensures |Seed()| == TotalRooms && IdRoomRun(Seed(), 1)
  {
    SeedPart1Ids();
    SeedPart2Ids();
    SeedPart3Ids();
    SeedPart4Ids();
    IdRoomRunAppend(SeedPart1(), SeedPart2(), 1);
    IdRoomRunAppend(SeedPart1() + SeedPart2(), SeedPart3(), 1);
    IdRoomRunAppend(SeedPart1() + SeedPart2() + SeedPart3(), SeedPart4(), 1);
  }

  /** In a run of 24 residents numbered from 1, resident `i` has id `i + 1`, lives in room `i + 1`, and no two share an id. */
  lemma NumberedRunIds(run: seq<Resident>)
    requires |run| == TotalRooms && IdRoomRun(run, 1)
    ensures forall i :: 0 <= i < TotalRooms ==> run[i].id == i + 1 && run[i].room == RoomIds()[i]
    ensures forall i, j :: 0 <= i < j < |run| ==> run[i].id != run[j].id
  {
    forall i | 0 <= i < TotalRooms
      ensures run[i].id == i + 1 && run[i].room == RoomIds()[i]
    {
      assert SeedIdRoom(run[i], 1 + i);
    }
  }

  /** Every seed resident arrives strictly before leaving. */
  lemma SeedOrdered()
    ensures forall i :: 0 <= i < |Seed()| ==> StayOrdered(Seed()[i])
  {
    SeedPart1Ordered();
    SeedPart2Ordered();
    SeedPart3Ordered();
    SeedPart4Ordered();
    OrderedRunAppend(SeedPart1(), SeedPart2());
    OrderedRunAppend(SeedPart1() + SeedPart2(), SeedPart3());
    OrderedRunAppend(SeedPart1() + SeedPart2() + SeedPart3(), SeedPart4());
    var seed := Seed();
    assert OrderedRun(seed);
    forall i | 0 <= i < |seed| ensures StayOrdered(seed[i]) {
      TextStayOrderedParses(seed[i]);
    }
  }
}
