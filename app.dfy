/**
 * The application shell: selecting a resident by id, saving a new
 * reservation as a resident with a fresh id, and grouping the residents
 * into planning rows per room in order of first appearance.
 */
module App {
  import opened Wrappers
  import opened Seqs
  import opened Types

  // ---------------------------------------------------------------------
  // handleSelectResidentById
  // ---------------------------------------------------------------------

  /**
   * The selection after `handleSelectResidentById(residentId)`: cleared for
   * `null`, otherwise the first resident with that id, or cleared when
   * there is none.
   */
  function SelectResidentById(residents: seq<Resident>, residentId: Option<int>): (selected: Option<Resident>)
    ensures residentId.None? ==> selected.None?
    ensures residentId.Some? && selected.None? ==> forall i :: 0 <= i < |residents| ==> residents[i].id != residentId.value
    ensures selected.Some? ==> residentId.Some? && selected.value.id == residentId.value
                               && exists i :: 0 <= i < |residents| && residents[i] == selected.value
                                              && forall j :: 0 <= j < i ==> residents[j].id != residentId.value
  {
    if residentId.None? then None else FindById(residents, residentId.value)
  }

  // ---------------------------------------------------------------------
  // handleSaveReservation: the id of a new resident
  // ---------------------------------------------------------------------

  /** A JavaScript number as `Math.max` sees resident ids: an integer, or -Infinity. */
  datatype Number = NegInfinity | Finite(value: int)

  /** `a <= b` on numbers. */
  predicate AtMost(a: Number, b: Number)
  {
    a.NegInfinity? || (b.Finite? && a.value <= b.value)
  }

  /** `Math.max(a, b)`. */
  function Max2(a: Number, b: Number): Number
  {
    if AtMost(a, b) then b else a
  }

  /** `Math.max(...xs)`: -Infinity for no arguments. */
  function MathMax(xs: seq<Number>): (m: Number)
    ensures xs == [] ==> m == NegInfinity
    ensures forall k :: 0 <= k < |xs| ==> AtMost(xs[k], m)
    ensures m == NegInfinity || exists k :: 0 <= k < |xs| && xs[k] == m
  {
    if xs == [] then NegInfinity
    else
      var rest := MathMax(xs[1..]);
      assert forall k :: 1 <= k < |xs| ==> xs[k] == xs[1..][k - 1];
      Max2(xs[0], rest)
  }

  /** `residents.map(r => r.id)` as numbers. */
  function IdsOf(residents: seq<Resident>): (ids: seq<Number>)
    ensures |ids| == |residents|
    ensures forall k :: 0 <= k < |residents| ==> ids[k] == Finite(residents[k].id)
  {
    seq(|residents|, k requires 0 <= k < |residents| => Finite(residents[k].id))
  }

  /** JavaScript truthiness of a number: everything but 0 (-Infinity included). */
  predicate Truthy(n: Number)
  {
    n != Finite(0)
  }

  /**
   * `(Math.max(...ids) || 0) + 1` as written. `-Infinity` is truthy, so the
   * fallback to 0 never fires for an empty list, and `-Infinity + 1` is
   * `-Infinity`.
   */
  function NextIdAsWritten(ids: seq<Number>): Number
  {
    var m := MathMax(ids);
    var kept := if Truthy(m) then m else Finite(0);
    match kept
    case NegInfinity => NegInfinity
    case Finite(v) => Finite(v + 1)
  }

  /**
   * From an empty list the written id is -Infinity, and it stays -Infinity
   * for the next save too: two residents saved in a row share an id.
   */
  lemma NextIdAsWrittenDuplicates()
    ensures NextIdAsWritten([]) == NegInfinity
    ensures NextIdAsWritten([NextIdAsWritten([])]) == NextIdAsWritten([])
  {
    assert MathMax([NegInfinity]) == NegInfinity by {
      assert [NegInfinity][1..] == [];
    }
  }

  /** The largest id of a non-empty list. */
  function MaxId(residents: seq<Resident>): (m: int)
    requires residents != []
    ensures forall k :: 0 <= k < |residents| ==> residents[k].id <= m
    ensures exists k :: 0 <= k < |residents| && residents[k].id == m
  {
    if |residents| == 1 then residents[0].id
    else
      var rest := MaxId(residents[1..]);
      assert forall k :: 1 <= k < |residents| ==> residents[k] == residents[1..][k - 1];
      if residents[0].id < rest then rest else residents[0].id
  }

  /** The id a new resident gets: one above the largest, or 1 for an empty list. */
  function NextId(residents: seq<Resident>): (id: int)
    ensures residents == [] ==> id == 1
    ensures forall k :: 0 <= k < |residents| ==> residents[k].id < id
    ensures residents != [] ==> exists k :: 0 <= k < |residents| && residents[k].id == id - 1
  {
    if residents == [] then 1 else MaxId(residents) + 1
  }

  /** On a non-empty list the written formula gives the corrected id. */
  lemma {:induction false} NextIdAgrees(residents: seq<Resident>)
    requires residents != []
    ensures NextIdAsWritten(IdsOf(residents)) == Finite(NextId(residents))
  {
    var ids := IdsOf(residents);
    var m := MathMax(ids);
    var k :| 0 <= k < |residents| && residents[k].id == MaxId(residents);
    assert AtMost(ids[k], m);
    assert m.Finite?;
    var j :| 0 <= j < |ids| && ids[j] == m;
    assert m.value <= MaxId(residents) by {
      assert residents[j].id <= MaxId(residents);
    }
  }

  /** The resident saved from the form data, with its id and the status 'À venir'. */
  function NewResident(data: ReservationData, id: int): (r: Resident)
    ensures DataOf(r) == data && r.id == id && r.status == Upcoming
  {
    Resident(id, data.name, data.room, data.gir, Upcoming, data.arrival, data.departure, data.phone,
             data.docsComplete, data.devisEnvoye, data.familyContactName, data.details, data.documents)
  }

  /**
   * `handleSaveReservation(data)`: the list with one resident appended,
   * carrying the form data, a fresh id and the status 'À venir'.
   */
  function SaveReservation(residents: seq<Resident>, data: ReservationData): (after: seq<Resident>)
    ensures |after| == |residents| + 1 && after[..|residents|] == residents
    ensures DataOf(after[|residents|]) == data && after[|residents|].status == Upcoming
    ensures forall k :: 0 <= k < |residents| ==> residents[k].id != after[|residents|].id
  {
    residents + [NewResident(data, NextId(residents))]
  }

  /** Residents whose ids are pairwise distinct. */
  predicate DistinctIds(residents: seq<Resident>)
  {
    forall i, j :: 0 <= i < j < |residents| ==> residents[i].id != residents[j].id
  }

  /** Saving keeps the ids pairwise distinct, from any list, the empty one included. */
  lemma SaveKeepsIdsDistinct(residents: seq<Resident>, data: ReservationData)
    requires DistinctIds(residents)
    ensures DistinctIds(SaveReservation(residents, data))
  {
    var after := SaveReservation(residents, data);
    forall i, j | 0 <= i < j < |after| ensures after[i].id != after[j].id {
      if j < |residents| {
        assert after[i] == residents[i] && after[j] == residents[j];
      } else {
        assert after[i] == residents[i];
      }
    }
  }

  // ---------------------------------------------------------------------
  // planningData
  // ---------------------------------------------------------------------

  /** The stay App draws for a resident: numbered by the resident, with the raw date strings. */
  function StayOfResident(r: Resident): PlanningStay
  {
    PlanningStay(r.id, r.id, Text(r.arrival), Text(r.departure))
  }

  /** Some resident has room `room`. */
  predicate HasRoom(residents: seq<Resident>, room: string)
  {
    exists k :: 0 <= k < |residents| && residents[k].room == room
  }

  /** The non-empty rooms of `residents`, each once, in order of first appearance. */
  function RoomOrder(residents: seq<Resident>): seq<string>
  {
    if residents == [] then []
    else
      var order := RoomOrder(residents[..|residents| - 1]);
      var room := residents[|residents| - 1].room;
      if room != "" && room !in order then order + [room] else order
  }

  /** The stays of the residents in room `room`, in resident order. */
  function StaysOf(residents: seq<Resident>, room: string): seq<PlanningStay>
  {
    if residents == [] then []
    else
      var r := residents[|residents| - 1];
      StaysOf(residents[..|residents| - 1], room) + (if r.room == room then [StayOfResident(r)] else [])
  }

  /** One planning row per room in `RoomOrder`, holding that room's stays. */
  function Grouped(residents: seq<Resident>): seq<PlanningRoom>
  {
    var order := RoomOrder(residents);
    seq(|order|, i requires 0 <= i < |order| => PlanningRoom(order[i], StaysOf(residents, order[i])))
  }

  /**
   * `planningData`: a `Map` from room to row, filled resident by resident
   * (residents without a room skipped, a row created on a room's first
   * resident, each stay pushed onto its row), read back in insertion order.
   * The map's insertion order is kept in `order`.
   */
  method PlanningData(residents: seq<Resident>) returns (rows: seq<PlanningRoom>)
    ensures rows == Grouped(residents)
  {
    var order: seq<string> := [];
    var rooms: map<string, seq<PlanningStay>> := map[];
    var i := 0;
    while i < |residents|
      invariant 0 <= i <= |residents|
      invariant order == RoomOrder(residents[..i])
      invariant forall room :: room in rooms <==> room in order
      invariant "" !in rooms
      invariant forall room :: room in rooms ==> rooms[room] == StaysOf(residents[..i], room)
    {
      var resident := residents[i];
      assert residents[..i + 1][..i] == residents[..i];
      forall room | room != resident.room
        ensures StaysOf(residents[..i + 1], room) == StaysOf(residents[..i], room)
      {
        assert StaysOf(residents[..i + 1], room) == StaysOf(residents[..i], room) + [];
      }
      assert StaysOf(residents[..i + 1], resident.room) == StaysOf(residents[..i], resident.room) + [StayOfResident(resident)];
      ghost var previous := rooms;
      if resident.room != "" {
        if resident.room !in rooms {
          RoomOrderMembers(residents[..i]);
          StaysOfAbsent(residents[..i], resident.room);
          rooms := rooms[resident.room := []];
          order := order + [resident.room];
        }
        assert rooms[resident.room] == StaysOf(residents[..i], resident.room);
        rooms := rooms[resident.room := rooms[resident.room] + [StayOfResident(resident)]];
      }
      forall room | room in rooms
        ensures rooms[room] == StaysOf(residents[..i + 1], room)
      {
        if room != resident.room {
          assert rooms[room] == previous[room];
        }
      }
      i := i + 1;
    }
    assert residents[..|residents|] == residents;
    rows := seq(|order|, k requires 0 <= k < |order| => PlanningRoom(order[k], rooms[order[k]]));
  }

  /** The rooms in `RoomOrder` are exactly the non-empty rooms of some resident, each once. */
  lemma {:induction false} RoomOrderMembers(residents: seq<Resident>)
    ensures forall room :: room in RoomOrder(residents) <==> room != "" && HasRoom(residents, room)
    ensures forall i, j :: 0 <= i < j < |RoomOrder(residents)| ==> RoomOrder(residents)[i] != RoomOrder(residents)[j]
    decreases |residents|
  {
    if residents != [] {
      var init := residents[..|residents| - 1];
      RoomOrderMembers(init);
      forall room | room != "" && HasRoom(residents, room) ensures room in RoomOrder(residents) {
        var k :| 0 <= k < |residents| && residents[k].room == room;
        if k < |init| {
          assert init[k].room == room;
        }
      }
      forall room | room in RoomOrder(residents) ensures room != "" && HasRoom(residents, room) {
        if room in RoomOrder(init) {
          var k :| 0 <= k < |init| && init[k].room == room;
          assert residents[k].room == room;
        }
      }
    }
  }

  /** A room no resident has holds no stay. */
  lemma {:induction false} StaysOfAbsent(residents: seq<Resident>, room: string)
    requires !HasRoom(residents, room)
    ensures StaysOf(residents, room) == []
    decreases |residents|
  {
    if residents != [] {
      var init := residents[..|residents| - 1];
      assert forall k :: 0 <= k < |init| ==> init[k] == residents[k];
      StaysOfAbsent(init, room);
    }
  }

  /** A room's stays are those of its residents, in resident order, one each. */
  lemma {:induction false} StaysOfFilter(residents: seq<Resident>, room: string)
    ensures |StaysOf(residents, room)| == |Filter(residents, (r: Resident) => r.room == room)|
    ensures forall k :: 0 <= k < |StaysOf(residents, room)| ==>
      StaysOf(residents, room)[k] == StayOfResident(Filter(residents, (r: Resident) => r.room == room)[k])
    decreases |residents|
  {
    if residents != [] {
      var init := residents[..|residents| - 1];
      var r := residents[|residents| - 1];
      StaysOfFilter(init, room);
      var earlier, kept := StaysOf(init, room), Filter(init, (x: Resident) => x.room == room);
      FilterSnoc(residents, (x: Resident) => x.room == room);
      var stays, all := StaysOf(residents, room), Filter(residents, (x: Resident) => x.room == room);
      assert stays == earlier + (if r.room == room then [StayOfResident(r)] else []);
      assert all == kept + (if r.room == room then [r] else []);
      forall k | 0 <= k < |stays| ensures stays[k] == StayOfResident(all[k]) {
        if k < |earlier| {
          assert stays[k] == earlier[k] && all[k] == kept[k];
        }
      }
    }
  }

  /**
   * The index of the first resident in room `room`, or the list's length
   * when there is none.
   */
  function FirstWithRoom(residents: seq<Resident>, room: string): (f: nat)
    ensures f <= |residents|
    ensures f < |residents| <==> HasRoom(residents, room)
    ensures f < |residents| ==> residents[f].room == room
    ensures forall k :: 0 <= k < f && k < |residents| ==> residents[k].room != room
  {
    if residents == [] then 0
    else
      var init := residents[..|residents| - 1];
      var f := FirstWithRoom(init, room);
      assert forall k :: 0 <= k < |init| ==> residents[k] == init[k];
      if f < |init| then f
      else if residents[|residents| - 1].room == room then |init|
      else |residents|
  }

  /** Rows come in the order their rooms first appear among the residents. */
  lemma {:induction false} RoomOrderFirstAppearance(residents: seq<Resident>)
    ensures forall i, j :: 0 <= i < j < |RoomOrder(residents)| ==>
      FirstWithRoom(residents, RoomOrder(residents)[i]) < FirstWithRoom(residents, RoomOrder(residents)[j])
    decreases |residents|
  {
    if residents != [] {
      var init := residents[..|residents| - 1];
      var r := residents[|residents| - 1];
      RoomOrderFirstAppearance(init);
      RoomOrderMembers(init);
      var before := RoomOrder(init);
      var order := RoomOrder(residents);
      forall y | y in before ensures FirstWithRoom(residents, y) == FirstWithRoom(init, y) < |init| {
      }
      forall i, j | 0 <= i < j < |order|
        ensures FirstWithRoom(residents, order[i]) < FirstWithRoom(residents, order[j])
      {
        assert order[i] == before[i];
        if j < |before| {
          assert order[j] == before[j];
        } else {
          assert order[j] == r.room && !HasRoom(init, r.room);
        }
      }
    }
  }

  /**
   * The planning rows: one per distinct non-empty room, ordered by first
   * appearance, none empty, each holding, in resident order, the stays of
   * exactly the residents in that room; residents without a room are in no
   * row.
   */
  lemma GroupedSpec(residents: seq<Resident>)
    ensures forall i :: 0 <= i < |Grouped(residents)| ==> Grouped(residents)[i].roomName != ""
    ensures forall i, j :: 0 <= i < j < |Grouped(residents)| ==> Grouped(residents)[i].roomName != Grouped(residents)[j].roomName
    ensures forall room :: (exists i :: 0 <= i < |Grouped(residents)| && Grouped(residents)[i].roomName == room)
                           <==> room != "" && HasRoom(residents, room)
    ensures forall i :: 0 <= i < |Grouped(residents)| ==> Grouped(residents)[i].stays != []
    ensures forall i :: 0 <= i < |Grouped(residents)| ==>
      var row := Grouped(residents)[i];
      |row.stays| == |Filter(residents, (r: Resident) => r.room == row.roomName)|
      && forall k :: 0 <= k < |row.stays| ==> row.stays[k] == StayOfResident(Filter(residents, (r: Resident) => r.room == row.roomName)[k])
    ensures forall i, j :: 0 <= i < j < |Grouped(residents)| ==>
      FirstWithRoom(residents, Grouped(residents)[i].roomName) < FirstWithRoom(residents, Grouped(residents)[j].roomName)
  {
    GroupedNames(residents);
    GroupedStays(residents);
    GroupedOrder(residents);
  }

  /** The rows are named after the distinct non-empty rooms of the residents. */
  lemma GroupedNames(residents: seq<Resident>)
    ensures forall i :: 0 <= i < |Grouped(residents)| ==> Grouped(residents)[i].roomName != ""
    ensures forall i, j :: 0 <= i < j < |Grouped(residents)| ==> Grouped(residents)[i].roomName != Grouped(residents)[j].roomName
    ensures forall room :: (exists i :: 0 <= i < |Grouped(residents)| && Grouped(residents)[i].roomName == room)
                           <==> room != "" && HasRoom(residents, room)
  {
    var rows := Grouped(residents);
    var order := RoomOrder(residents);
    RoomOrderMembers(residents);
    assert forall i :: 0 <= i < |rows| ==> rows[i].roomName == order[i] && order[i] in order;
    forall room ensures (exists i :: 0 <= i < |rows| && rows[i].roomName == room) <==> room in order {
      if room in order {
        var i :| 0 <= i < |order| && order[i] == room;
        assert rows[i].roomName == room;
      }
      if exists i :: 0 <= i < |rows| && rows[i].roomName == room {
        var i :| 0 <= i < |rows| && rows[i].roomName == room;
        assert order[i] == room;
      }
    }
  }

  /** Each row holds, in resident order, the stays of exactly the residents of its room. */
  lemma GroupedStays(residents: seq<Resident>)
    ensures forall i :: 0 <= i < |Grouped(residents)| ==> Grouped(residents)[i].stays != []
    ensures forall i :: 0 <= i < |Grouped(residents)| ==>
      var row := Grouped(residents)[i];
      |row.stays| == |Filter(residents, (r: Resident) => r.room == row.roomName)|
      && forall k :: 0 <= k < |row.stays| ==> row.stays[k] == StayOfResident(Filter(residents, (r: Resident) => r.room == row.roomName)[k])
  {
    var rows := Grouped(residents);
    var order := RoomOrder(residents);
    RoomOrderMembers(residents);
    forall i | 0 <= i < |rows|
      ensures var row := rows[i];
        |row.stays| == |Filter(residents, (r: Resident) => r.room == row.roomName)|
        && (forall k :: 0 <= k < |row.stays| ==> row.stays[k] == StayOfResident(Filter(residents, (r: Resident) => r.room == row.roomName)[k]))
        && row.stays != []
    {
      GroupedRow(residents, order, i);
    }
  }

  /** Rows come in the order their rooms first appear among the residents. */
  lemma GroupedOrder(residents: seq<Resident>)
    ensures forall i, j :: 0 <= i < j < |Grouped(residents)| ==>
      FirstWithRoom(residents, Grouped(residents)[i].roomName) < FirstWithRoom(residents, Grouped(residents)[j].roomName)
  {
    var rows := Grouped(residents);
    var order := RoomOrder(residents);
    RoomOrderFirstAppearance(residents);
    assert forall i :: 0 <= i < |rows| ==> rows[i].roomName == order[i];
  }

  /** Row `i` holds the stays of the residents of its room, at least one. */
  lemma GroupedRow(residents: seq<Resident>, order: seq<string>, i: int)
    requires order == RoomOrder(residents) && 0 <= i < |order|
    requires forall room :: room in order <==> room != "" && HasRoom(residents, room)
    ensures var stays := StaysOf(residents, order[i]);
      var kept := Filter(residents, (r: Resident) => r.room == order[i]);
      |stays| == |kept| && stays != []
      && forall k :: 0 <= k < |stays| ==> stays[k] == StayOfResident(kept[k])
  {
    StaysOfFilter(residents, order[i]);
    assert order[i] in order;
    var k :| 0 <= k < |residents| && residents[k].room == order[i];
    assert residents[k] in Filter(residents, (r: Resident) => r.room == order[i]);
  }

  /** Every resident with a room has its stay in the row named after that room. */
  lemma ResidentInItsRow(residents: seq<Resident>, k: int)
    requires 0 <= k < |residents| && residents[k].room != ""
    ensures exists i :: 0 <= i < |Grouped(residents)| && Grouped(residents)[i].roomName == residents[k].room
                        && StayOfResident(residents[k]) in Grouped(residents)[i].stays
  {
    var rows := Grouped(residents);
    var room := residents[k].room;
    GroupedSpec(residents);
    assert HasRoom(residents, room);
    var i :| 0 <= i < |rows| && rows[i].roomName == room;
    var kept := Filter(residents, (r: Resident) => r.room == room);
    assert residents[k] in kept;
    var m :| 0 <= m < |kept| && kept[m] == residents[k];
    assert rows[i].stays[m] == StayOfResident(residents[k]);
  }
}
