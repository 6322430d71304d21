/**
 * The records of the facility: residents, their documents, reservation form
 * data and the planning projection (stays bucketed per room), plus the fixed
 * set of 24 rooms every component offers.
 */
module Types {
  import opened Wrappers
  import opened Strings
  import opened Calendar

  /** 'Actif' | 'À venir' | 'Terminé'. */
  datatype Status = Active | Upcoming | Ended

  /** 'pdf' | 'image' | 'word'. */
  datatype DocKind = Pdf | Image | Word

  /** An attached document; `size` is its display label ("2.3 MB") and `addedAt` a full-date. */
  datatype Document = Document(id: int, name: string, kind: DocKind, size: string, addedAt: string)

  /**
   * A resident. `arrival` and `departure` are `YYYY-MM-DD` strings, possibly
   * empty; `room` is a room number as text, possibly empty; an absent
   * optional text field is the empty string. The free-text fields no
   * computation reads (gender, birth date, e-mail, address, family contact
   * relation, allergies, medical history, doctor, mobility, dietary needs,
   * social habits, notes, image rights) are kept by name in `details`.
   */
  datatype Resident = Resident(
    id: int,
    name: string,
    room: string,
    gir: string,
    status: Status,
    arrival: string,
    departure: string,
    phone: string,
    docsComplete: bool,
    devisEnvoye: bool,
    familyContactName: string,
    details: map<string, string>,
    documents: seq<Document>)

  /** A resident without `id` and `status`: what the reservation form produces. */
  datatype ReservationData = ReservationData(
    name: string,
    room: string,
    gir: string,
    arrival: string,
    departure: string,
    phone: string,
    docsComplete: bool,
    devisEnvoye: bool,
    familyContactName: string,
    details: map<string, string>,
    documents: seq<Document>)

  /** The form fields of a resident, without `id` and `status`. */
  function DataOf(r: Resident): ReservationData
  {
    ReservationData(r.name, r.room, r.gir, r.arrival, r.departure, r.phone,
                    r.docsComplete, r.devisEnvoye, r.familyContactName, r.details, r.documents)
  }

  /** A stay bound: a raw date string (as App builds stays) or an already built `Date`. */
  datatype StayDate = Text(text: string) | At(day: Day)

  /** `new Date(bound)`: parse a string, copy a date. */
  function DateOf(b: StayDate): Option<Day>
  {
    match b
    case Text(s) => ParseFullDate(s)
    case At(d) => Some(d)
  }

  /** A resident's stay projected on the planning grid. */
  datatype PlanningStay = PlanningStay(id: int, residentId: int, start: StayDate, end: StayDate)

  /** One row of the planning grid. */
  datatype PlanningRoom = PlanningRoom(roomName: string, stays: seq<PlanningStay>)

  /** 'week' | 'month' | 'year'. */
  datatype CalendarView = Week | Month | Year

  /** The facility's room count. */
  const TotalRooms: nat := 24

  /** `Array.from({ length: 24 }, (_, i) => String(i + 1))`: the room numbers "1".."24". */
  function RoomIds(): (rooms: seq<string>)
    ensures |rooms| == TotalRooms
    ensures forall i :: 0 <= i < TotalRooms ==> rooms[i] == NatToDecimal(i + 1)
  {
    seq(TotalRooms, i requires 0 <= i => NatToDecimal(i + 1))
  }

  /**
   * The room numbers read back as 1..24 in ascending order, so they are
   * pairwise distinct.
   */
  lemma RoomIdsAscending()
    ensures forall i :: 0 <= i < TotalRooms ==> ParseInt(RoomIds()[i]) == Some(i + 1)
    ensures forall i, j :: 0 <= i < j < TotalRooms ==> RoomIds()[i] != RoomIds()[j]
  {
    forall i | 0 <= i < TotalRooms ensures ParseInt(RoomIds()[i]) == Some(i + 1) {
      ParseIntOfDecimal(i + 1);
    }
  }

  /**
   * `residents.find(r => r.id === id)`: the first resident with that id, or
   * `None` when no resident has it.
   */
  function FindById(residents: seq<Resident>, id: int): (found: Option<Resident>)
    ensures found.None? <==> forall i :: 0 <= i < |residents| ==> residents[i].id != id
    ensures found.Some? ==> exists i :: 0 <= i < |residents| && residents[i] == found.value
                              && found.value.id == id
                              && forall j :: 0 <= j < i ==> residents[j].id != id
  {
    if residents == [] then None
    else if residents[0].id == id then Some(residents[0])
    else
      var found := FindById(residents[1..], id);
      assert found.Some? ==> exists i :: 0 <= i < |residents[1..]| && residents[1..][i] == found.value
                                && found.value.id == id
                                && forall j :: 0 <= j < i ==> residents[1..][j].id != id;
      found
  }
}
