/**
 * The new-reservation form: which of the rooms "1".."24" are free for the
 * dates typed in (a half-open overlap test against every resident's stay),
 * the form state a field change updates, and the required-field check
 * that decides whether the reservation is handed on.
 */
module NewReservation {
  import opened Wrappers
  import opened Strings
  import opened Seqs
  import opened Calendar
  import opened Types

  // ---------------------------------------------------------------------
  // Available rooms
  // ---------------------------------------------------------------------

  /**
   * A resident holds a room against a new stay when its room and both its
   * dates are filled in and the two stays overlap: it arrives before the
   * new departure and leaves after the new arrival (comparisons with an
   * invalid date are false).
   */
  predicate Blocks(r: Resident, newArrival: Option<Day>, newDeparture: Option<Day>)
  {
    r.room != "" && r.arrival != "" && r.departure != ""
    && Before(ParseFullDate(r.arrival), newDeparture)
    && Before(newArrival, ParseFullDate(r.departure))
  }

  /** The rooms of the residents that block the new stay. */
  function Occupied(residents: seq<Resident>, newArrival: Option<Day>, newDeparture: Option<Day>): set<string>
  {
    set i | 0 <= i < |residents| && Blocks(residents[i], newArrival, newDeparture) :: residents[i].room
  }

  /** `totalRooms.filter(room => !occupiedRooms.has(room))`. */
  function FreeRooms(occupied: set<string>): (rooms: seq<string>)
    ensures IsSubsequence(rooms, RoomIds())
    ensures forall i :: 0 <= i < |rooms| ==> rooms[i] !in occupied
  {
    Filter(RoomIds(), room => room !in occupied)
  }

  /**
   * The rooms offered for a new stay: all of them while either date is
   * empty, none when the arrival is not before the departure, and
   * otherwise those no resident blocks.
   */
  function Available(arrival: string, departure: string, residents: seq<Resident>): seq<string>
  {
    if arrival == "" || departure == "" then RoomIds()
    else
      var newArrival, newDeparture := ParseFullDate(arrival), ParseFullDate(departure);
      if NotAfter(newDeparture, newArrival) then []
      else FreeRooms(Occupied(residents, newArrival, newDeparture))
  }

  /**
   * `availableRooms`: the occupied rooms are gathered into a set, resident
   * by resident, and the room list is filtered against it.
   */
  method AvailableRooms(arrival: string, departure: string, residents: seq<Resident>) returns (rooms: seq<string>)
    ensures rooms == Available(arrival, departure, residents)
  {
    var totalRooms := RoomIds();
    if arrival == "" || departure == "" {
      return totalRooms;
    }
    var newArrival := ParseFullDate(arrival);
    var newDeparture := ParseFullDate(departure);
    if NotAfter(newDeparture, newArrival) {
      return [];
    }
    var occupiedRooms: set<string> := {};
    var i := 0;
    while i < |residents|
      invariant 0 <= i <= |residents|
      invariant occupiedRooms == Occupied(residents[..i], newArrival, newDeparture)
    {
      var resident := residents[i];
      if resident.room != "" && resident.arrival != "" && resident.departure != "" {
        var residentArrival := ParseFullDate(resident.arrival);
        var residentDeparture := ParseFullDate(resident.departure);
        if Before(residentArrival, newDeparture) && Before(newArrival, residentDeparture) {
          occupiedRooms := occupiedRooms + {resident.room};
        }
      }
      OccupiedStep(residents, i, newArrival, newDeparture);
      i := i + 1;
    }
    assert residents[..i] == residents;
    rooms := FreeRooms(occupiedRooms);
  }

  /** One more resident adds its room to the occupied ones exactly when it blocks the new stay. */
  lemma OccupiedStep(residents: seq<Resident>, i: int, newArrival: Option<Day>, newDeparture: Option<Day>)
    requires 0 <= i < |residents|
    ensures Occupied(residents[..i + 1], newArrival, newDeparture)
      == Occupied(residents[..i], newArrival, newDeparture)
         + (if Blocks(residents[i], newArrival, newDeparture) then {residents[i].room} else {})
  {
    var before, after := residents[..i], residents[..i + 1];
    assert forall k :: 0 <= k < i ==> after[k] == before[k];
    assert after[i] == residents[i];
  }

  /** Rooms listed by increasing number. */
  predicate RoomsAscending(rooms: seq<string>)
  {
    forall i, j :: 0 <= i < j < |rooms| ==> RoomBefore(rooms[i], rooms[j])
  }

  predicate RoomBefore(a: string, b: string)
  {
    ParseInt(a).Some? && ParseInt(b).Some? && ParseInt(a).value < ParseInt(b).value
  }

  /** While either date is empty, every room is offered, in order. */
  lemma AllRoomsWithoutDates(arrival: string, departure: string, residents: seq<Resident>)
    requires arrival == "" || departure == ""
    ensures Available(arrival, departure, residents) == RoomIds()
    ensures |Available(arrival, departure, residents)| == TotalRooms
  {
  }

  /** No room is offered when the arrival is on or after the departure. */
  lemma NoRoomsForReversedDates(arrival: string, departure: string, residents: seq<Resident>)
    requires arrival != "" && departure != ""
    requires NotAfter(ParseFullDate(departure), ParseFullDate(arrival))
    ensures Available(arrival, departure, residents) == []
  {
  }

  /** The offered rooms are some of "1".."24", kept in ascending order. */
  lemma AvailableAscending(arrival: string, departure: string, residents: seq<Resident>)
    ensures IsSubsequence(Available(arrival, departure, residents), RoomIds())
    ensures RoomsAscending(Available(arrival, departure, residents))
  {
    var rooms := Available(arrival, departure, residents);
    RoomIdsAscending();
    assert RoomsAscending(RoomIds());
    if arrival == "" || departure == "" {
      SubsequenceReflexive(RoomIds());
    } else if rooms == [] {
    } else {
      SubsequenceOrdered(rooms, RoomIds(), RoomBefore);
    }
  }

  lemma {:induction false} SubsequenceReflexive<T>(s: seq<T>)
    ensures IsSubsequence(s, s)
  {
    if s != [] {
      SubsequenceReflexive(s[1..]);
    }
  }

  /**
   * Once both dates are filled in and in order, a room is left out exactly
   * when some resident holding that very room string blocks the new stay.
   */
  lemma RoomExcludedIff(arrival: string, departure: string, residents: seq<Resident>, room: string)
    requires arrival != "" && departure != ""
    requires !NotAfter(ParseFullDate(departure), ParseFullDate(arrival))
    requires room in RoomIds()
    ensures room !in Available(arrival, departure, residents)
            <==> exists i :: 0 <= i < |residents| && residents[i].room == room
                             && Blocks(residents[i], ParseFullDate(arrival), ParseFullDate(departure))
  {
    var newArrival, newDeparture := ParseFullDate(arrival), ParseFullDate(departure);
    var occupied := Occupied(residents, newArrival, newDeparture);
    if room in occupied {
      var i :| 0 <= i < |residents| && Blocks(residents[i], newArrival, newDeparture) && residents[i].room == room;
    } else {
      var k :| 0 <= k < |RoomIds()| && RoomIds()[k] == room;
      assert room in FreeRooms(occupied);
    }
  }

  /**
   * Same-day handoff: a resident leaving on the new arrival day, or
   * arriving on the new departure day, does not block the room.
   */
  lemma SameDayHandoff(r: Resident, arrival: string, departure: string)
    requires ParseFullDate(r.departure) == ParseFullDate(arrival)
             || ParseFullDate(r.arrival) == ParseFullDate(departure)
    ensures !Blocks(r, ParseFullDate(arrival), ParseFullDate(departure))
  {
  }

  /** A resident without a room, an arrival or a departure never blocks a room. */
  lemma IncompleteResidentNeverBlocks(r: Resident, newArrival: Option<Day>, newDeparture: Option<Day>)
    requires r.room == "" || r.arrival == "" || r.departure == ""
    ensures !Blocks(r, newArrival, newDeparture)
  {
  }

  /** One more resident can only take rooms away from the offer, never add one. */
  lemma MoreResidentsFewerRooms(arrival: string, departure: string, residents: seq<Resident>, r: Resident)
    ensures IsSubsequence(Available(arrival, departure, residents + [r]), Available(arrival, departure, residents))
  {
    if arrival == "" || departure == "" {
      SubsequenceReflexive(RoomIds());
    } else {
      var newArrival, newDeparture := ParseFullDate(arrival), ParseFullDate(departure);
      if !NotAfter(newDeparture, newArrival) {
        var before := Occupied(residents, newArrival, newDeparture);
        var after := Occupied(residents + [r], newArrival, newDeparture);
        assert before <= after by {
          forall room | room in before ensures room in after {
            var i :| 0 <= i < |residents| && Blocks(residents[i], newArrival, newDeparture) && residents[i].room == room;
            assert (residents + [r])[i] == residents[i];
          }
        }
        FilterStronger(RoomIds(), room => room !in after, room => room !in before);
      }
    }
  }

  // ---------------------------------------------------------------------
  // The form
  // ---------------------------------------------------------------------

  /** The text inputs of the form; `Detail` names one kept in `details`. */
  datatype TextField = Name | Room | Gir | Arrival | Departure | Phone | FamilyContactName | Detail(key: string)

  /** The two checkboxes of the form. */
  datatype BoolField = DocsComplete | DevisEnvoye

  /** A change event: a text input's new value, or a checkbox's new state. */
  datatype FieldChange = TextChange(field: TextField, value: string) | CheckChange(flag: BoolField, checked: bool)

  /** The `name` attribute of an input, which keys the errors. */
  function KeyOf(change: FieldChange): string
  {
    match change
    case TextChange(f, _) => TextKey(f)
    case CheckChange(DocsComplete, _) => "docsComplete"
    case CheckChange(DevisEnvoye, _) => "devisEnvoye"
  }

  function TextKey(f: TextField): string
  {
    match f
    case Name => "name"
    case Room => "room"
    case Gir => "gir"
    case Arrival => "arrival"
    case Departure => "departure"
    case Phone => "phone"
    case FamilyContactName => "familyContactName"
    case Detail(k) => k
  }

  /**
   * Where the form data keeps the input named `key`: fields 0 to 6 for the
   * named inputs, 7 for any other name, which is kept among the details.
   */
  function Slot(key: string): (n: nat)
    ensures n <= 7
    ensures n == 0 <==> key == "name"
    ensures n == 1 <==> key == "room"
    ensures n == 2 <==> key == "gir"
    ensures n == 3 <==> key == "arrival"
    ensures n == 4 <==> key == "departure"
    ensures n == 5 <==> key == "phone"
    ensures n == 6 <==> key == "familyContactName"
  {
    if key == "name" then 0
    else if key == "room" then 1
    else if key == "gir" then 2
    else if key == "arrival" then 3
    else if key == "departure" then 4
    else if key == "phone" then 5
    else if key == "familyContactName" then 6
    else 7
  }

  /**
   * The text stored under the input name `key`: the form field of that name,
   * or else the detail of that name, an absent detail reading as empty.
   */
  function TextOf(d: ReservationData, key: string): string
  {
    match Slot(key)
    case 0 => d.name
    case 1 => d.room
    case 2 => d.gir
    case 3 => d.arrival
    case 4 => d.departure
    case 5 => d.phone
    case 6 => d.familyContactName
    case _ => if key in d.details then d.details[key] else ""
  }

  /** `{ ...prev, [key]: value }` for a text input. */
  function SetText(d: ReservationData, key: string, v: string): ReservationData
  {
    match Slot(key)
    case 0 => d.(name := v)
    case 1 => d.(room := v)
    case 2 => d.(gir := v)
    case 3 => d.(arrival := v)
    case 4 => d.(departure := v)
    case 5 => d.(phone := v)
    case 6 => d.(familyContactName := v)
    case _ => d.(details := d.details[key := v])
  }

  /** Writing under one input name changes the text under that name only. */
  lemma TextOfSetText(d: ReservationData, key: string, v: string, other: string)
    ensures TextOf(SetText(d, key, v), other) == if other == key then v else TextOf(d, other)
    ensures SetText(d, key, v).docsComplete == d.docsComplete && SetText(d, key, v).devisEnvoye == d.devisEnvoye
    ensures SetText(d, key, v).documents == d.documents
  {
    var k, o := Slot(key), Slot(other);
    if k == 7 {
      assert SetText(d, key, v) == d.(details := d.details[key := v]);
      if o != 7 {
        assert other != key;
      }
    } else if o == k {
      assert other == key;
    } else {
      assert other != key;
    }
  }

  /** The value of a text input in the form data. */
  function FieldText(d: ReservationData, f: TextField): string
  {
    TextOf(d, TextKey(f))
  }

  function FieldFlag(d: ReservationData, f: BoolField): bool
  {
    match f
    case DocsComplete => d.docsComplete
    case DevisEnvoye => d.devisEnvoye
  }

  /** `{ ...prev, [name]: value }` (or `checked` for a checkbox). */
  function WithField(d: ReservationData, change: FieldChange): (r: ReservationData)
    ensures r.documents == d.documents
    ensures change.TextChange? ==> FieldText(r, change.field) == change.value
    ensures change.CheckChange? ==> FieldFlag(r, change.flag) == change.checked
  {
    match change
    case TextChange(f, v) => SetText(d, TextKey(f), v)
    case CheckChange(DocsComplete, b) => d.(docsComplete := b)
    case CheckChange(DevisEnvoye, b) => d.(devisEnvoye := b)
  }

  /**
   * A text change sets the input of that name, whichever way the input is
   * described, and leaves every input of another name as it was.
   */
  lemma WithTextField(d: ReservationData, f: TextField, v: string, g: TextField)
    ensures FieldText(WithField(d, TextChange(f, v)), g) == (if TextKey(g) == TextKey(f) then v else FieldText(d, g))
    ensures forall b :: FieldFlag(WithField(d, TextChange(f, v)), b) == FieldFlag(d, b)
    ensures WithField(d, TextChange(f, v)).documents == d.documents
  {
    TextOfSetText(d, TextKey(f), v, TextKey(g));
  }

  /** A checkbox change sets that checkbox and no text input. */
  lemma WithCheckField(d: ReservationData, f: BoolField, b: bool, g: TextField)
    ensures FieldFlag(WithField(d, CheckChange(f, b)), f) == b
    ensures FieldText(WithField(d, CheckChange(f, b)), g) == FieldText(d, g)
    ensures WithField(d, CheckChange(f, b)).documents == d.documents
  {
  }

  /** The five required inputs, with the message shown when one is empty. */
  const NameRequired := "Le nom complet est requis."
  const ArrivalRequired := "La date d'arrivée est requise."
  const DepartureRequired := "La date de départ est requise."
  const RoomRequired := "Le numéro de chambre est requis."
  const GirRequired := "Le GIR est requis."

  /** One error per empty required input, keyed by the input's name. */
  function RequiredErrors(d: ReservationData): (errors: map<string, string>)
    ensures "name" in errors <==> d.name == ""
    ensures "arrival" in errors <==> d.arrival == ""
    ensures "departure" in errors <==> d.departure == ""
    ensures "room" in errors <==> d.room == ""
    ensures "gir" in errors <==> d.gir == ""
    ensures forall k :: k in errors ==> k in {"name", "arrival", "departure", "room", "gir"}
    ensures "name" in errors ==> errors["name"] == NameRequired
    ensures "arrival" in errors ==> errors["arrival"] == ArrivalRequired
    ensures "departure" in errors ==> errors["departure"] == DepartureRequired
    ensures "room" in errors ==> errors["room"] == RoomRequired
    ensures "gir" in errors ==> errors["gir"] == GirRequired
  {
    var e0: map<string, string> := map[];
    var e1 := if d.name == "" then e0["name" := NameRequired] else e0;
    var e2 := if d.arrival == "" then e1["arrival" := ArrivalRequired] else e1;
    var e3 := if d.departure == "" then e2["departure" := DepartureRequired] else e2;
    var e4 := if d.room == "" then e3["room" := RoomRequired] else e3;
    if d.gir == "" then e4["gir" := GirRequired] else e4
  }

  /** The form is accepted exactly when the five required inputs are all filled in. */
  lemma SubmitAcceptedIff(d: ReservationData)
    ensures |RequiredErrors(d)| == 0 <==> d.name != "" && d.arrival != "" && d.departure != "" && d.room != "" && d.gir != ""
  {
    var errors := RequiredErrors(d);
    if d.name == "" { assert "name" in errors; }
    if d.arrival == "" { assert "arrival" in errors; }
    if d.departure == "" { assert "departure" in errors; }
    if d.room == "" { assert "room" in errors; }
    if d.gir == "" { assert "gir" in errors; }
    if d.name != "" && d.arrival != "" && d.departure != "" && d.room != "" && d.gir != "" {
      assert errors.Keys == {};
    }
  }

  /** The form data of a fresh form: every text empty, mobility "Autonome", no document. */
  function EmptyForm(): ReservationData
  {
    ReservationData("", "", "", "", "", "", false, false, "",
      map["email" := "", "allergies" := "", "medicalHistory" := "", "treatingDoctor" := "",
          "mobility" := "Autonome", "dietaryNeeds" := "", "socialHabits" := "", "gender" := "",
          "birthDate" := "", "address" := "", "familyContactRelation" := "", "notes" := ""],
      [])
  }

  /** A fresh form cannot be submitted: all five required inputs are empty. */
  lemma EmptyFormRejected()
    ensures |RequiredErrors(EmptyForm())| == 5
  {
    var errors := RequiredErrors(EmptyForm());
    assert errors.Keys == {"name", "arrival", "departure", "room", "gir"};
  }

  /** The state of the new-reservation form: its data and the errors on display. */
  class ReservationForm {
    var formData: ReservationData
    var errors: map<string, string>

    constructor()
      ensures formData == EmptyForm() && errors == map[]
    {
      formData := EmptyForm();
      errors := map[];
    }

    /**
     * `handleChange`: clears the error shown on the changed input, if any,
     * then stores the new value.
     */
    method HandleChange(change: FieldChange)
      modifies this
      ensures formData == WithField(old(formData), change)
      ensures KeyOf(change) !in errors || errors[KeyOf(change)] == ""
      ensures forall k :: k != KeyOf(change) ==> (k in errors <==> k in old(errors))
      ensures forall k :: k in errors ==> k in old(errors) && errors[k] == old(errors)[k]
    {
      var name := KeyOf(change);
      if name in errors && errors[name] != "" {
        errors := errors - {name};
      }
      formData := WithField(formData, change);
    }

    /**
     * `handleSubmit`: gathers one error per empty required input; with any
     * error, shows them and hands nothing on; otherwise hands the form data
     * on (to `onSave`) and leaves the errors as they were.
     */
    method HandleSubmit() returns (saved: Option<ReservationData>)
      modifies this
      ensures formData == old(formData)
      ensures saved.Some? <==> formData.name != "" && formData.arrival != "" && formData.departure != ""
                               && formData.room != "" && formData.gir != ""
      ensures saved.Some? ==> saved.value == formData && errors == old(errors)
      ensures saved.None? ==> errors == RequiredErrors(formData)
    {
      var newErrors: map<string, string> := map[];
      if formData.name == "" { newErrors := newErrors["name" := NameRequired]; }
      if formData.arrival == "" { newErrors := newErrors["arrival" := ArrivalRequired]; }
      if formData.departure == "" { newErrors := newErrors["departure" := DepartureRequired]; }
      if formData.room == "" { newErrors := newErrors["room" := RoomRequired]; }
      if formData.gir == "" { newErrors := newErrors["gir" := GirRequired]; }
      assert newErrors == RequiredErrors(formData);
      SubmitAcceptedIff(formData);
      if |newErrors| > 0 {
        errors := newErrors;
        return None;
      }
      saved := Some(formData);
    }
  }
}
