/**
 * The resident detail modal: how it shows a stay date, and the two edits it
 * reports through `onUpdateResident` — moving the resident to another room
 * and attaching a document. The clock and the picked file are parameters.
 */
module ResidentModal {
  import opened Wrappers
  import opened Strings
  import opened Calendar
  import opened Types

  // ---------------------------------------------------------------------
  // formatDate
  // ---------------------------------------------------------------------

  /** Element `i` of a destructured array, or the text of `undefined` past its end. */
  function PartOr(parts: seq<string>, i: nat): string
  {
    if i < |parts| then parts[i] else "undefined"
  }

  /**
   * `formatDate`: "N/A" for a missing date (the empty string), otherwise the
   * first three dash-separated parts, shown day/month/year. "N/A" is never
   * the display of a date that is present.
   */
  function FormatDate(s: string): (r: string)
    ensures r == "N/A" <==> s == ""
  {
    if s == "" then "N/A"
    else
      var parts := Split(s, '-');
      var day, month, year := PartOr(parts, 2), PartOr(parts, 1), PartOr(parts, 0);
      var r := day + "/" + month + "/" + year;
      assert r[|day|] == '/' && r[|day| + 1 + |month|] == '/';
      r
  }

  /** A date written year-month-day is shown day/month/year, each part unchanged. */
  lemma FormatDateOfParts(year: string, month: string, day: string)
    requires '-' !in year && '-' !in month && '-' !in day
    ensures FormatDate(year + "-" + month + "-" + day) == day + "/" + month + "/" + year
  {
    var parts := [year, month, day];
    JoinThree(parts, '-');
    SplitJoin(parts, '-');
  }

  /** The display splits back on '/' into day, month and year when no part holds a '/'. */
  lemma FormatDateRoundTrip(year: string, month: string, day: string)
    requires '-' !in year && '-' !in month && '-' !in day
    requires '/' !in year && '/' !in month && '/' !in day
    ensures Split(FormatDate(year + "-" + month + "-" + day), '/') == [day, month, year]
  {
    FormatDateOfParts(year, month, day);
    var parts := [day, month, year];
    JoinThree(parts, '/');
    SplitJoin(parts, '/');
  }

  /** A full-date `YYYY-MM-DD` is shown `DD/MM/YYYY`. */
  lemma FormatFullDateText(s: string)
    requires IsFullDateShape(s)
    ensures FormatDate(s) == s[8..] + "/" + s[5..7] + "/" + s[..4]
  {
    assert s == s[..4] + "-" + s[5..7] + "-" + s[8..];
    assert IsDigits(s[..4]) && IsDigits(s[5..7]) && IsDigits(s[8..]);
    FormatDateOfParts(s[..4], s[5..7], s[8..]);
  }

  /** A present date without any dash is shown as the year, day and month being `undefined`. */
  lemma FormatDateWithoutDash(s: string)
    requires s != "" && '-' !in s
    ensures FormatDate(s) == "undefined/undefined/" + s
  {
    SplitJoin([s], '-');
  }

  // ---------------------------------------------------------------------
  // The document attached by handleAddDocument
  // ---------------------------------------------------------------------

  /** A picked file: its name, its MIME type and its size in bytes. */
  datatype FileInfo = FileInfo(name: string, mimeType: string, size: nat)

  /**
   * The kind of a document from its MIME type: PDF when the type mentions
   * "pdf", Word when it mentions "word" and not "pdf", an image otherwise.
   */
  function DocKindOf(mimeType: string): (kind: DocKind)
    ensures kind == Pdf <==> exists i :: OccursAt(mimeType, "pdf", i)
    ensures kind == Word <==>
      (forall i :: !OccursAt(mimeType, "pdf", i)) && exists i :: OccursAt(mimeType, "word", i)
    ensures kind == Image <==>
      (forall i :: !OccursAt(mimeType, "pdf", i)) && forall i :: !OccursAt(mimeType, "word", i)
  {
    if Includes(mimeType, "pdf") then Pdf else if Includes(mimeType, "word") then Word else Image
  }

  /** Bytes in a megabyte as the modal counts them (`/ 1024 / 1024`). */
  const Megabyte: nat := 1048576

  /**
   * `toFixed(2)` of `size / 1024 / 1024`, in hundredths: the nearest whole
   * number of hundredths of a megabyte, a tie going to the larger one.
   */
  function Hundredths(size: nat): (h: nat)
    ensures size * 100 - Megabyte / 2 < h * Megabyte <= size * 100 + Megabyte / 2
  {
    (size * 100 + Megabyte / 2) / Megabyte
  }

  /** A number of hundredths written with two decimals: whole part, '.', two digits. */
  function FixedTwo(h: nat): (r: string)
    ensures |r| >= 4 && r[|r| - 3] == '.'
    ensures IsDigits(r[..|r| - 3]) && IsDigits(r[|r| - 2..])
    ensures DecimalValue(r[..|r| - 3]) * 100 + DecimalValue(r[|r| - 2..]) == h
  {
    var whole := NatToDecimal(h / 100);
    var cents := Cents(h);
    var r := whole + "." + cents;
    assert r[..|r| - 3] == whole && r[|r| - 2..] == cents;
    r
  }

  /** The two digits of the hundredths of `h`. */
  function Cents(h: nat): (cents: string)
    ensures |cents| == 2 && IsDigits(cents) && DecimalValue(cents) == h % 100
  {
    var tens, units := h / 10 % 10, h % 10;
    TwoDigitsValue(tens, units);
    TensAndUnits(h);
    [DigitChar(tens), DigitChar(units)]
  }

  /** Two digits read as a number. */
  lemma TwoDigitsValue(tens: nat, units: nat)
    requires tens < 10 && units < 10
    ensures DecimalValue([DigitChar(tens), DigitChar(units)]) == tens * 10 + units
  {
    var cents := [DigitChar(tens), DigitChar(units)];
    assert cents[..1] == [cents[0]] && [cents[0]][..0] == [];
    assert DecimalValue(cents[..1]) == tens;
  }

  /** The tens and units digits of a number make up its remainder by 100. */
  lemma TensAndUnits(h: nat)
    ensures h / 10 % 10 * 10 + h % 10 == h % 100
  {
  }

  /**
   * The size label of a file: a number of megabytes with two decimals, the
   * one nearest the size (a tie going up), followed by " MB".
   */
  function SizeLabel(size: nat): (text: string)
    ensures |text| >= 7 && text[|text| - 6] == '.' && text[|text| - 3..] == " MB"
    ensures IsDigits(text[..|text| - 6]) && IsDigits(text[|text| - 5..|text| - 3])
    ensures var h := DecimalValue(text[..|text| - 6]) * 100 + DecimalValue(text[|text| - 5..|text| - 3]);
      size * 100 - Megabyte / 2 < h * Megabyte <= size * 100 + Megabyte / 2
  {
    var fixed := FixedTwo(Hundredths(size));
    var text := fixed + " MB";
    assert text[..|text| - 6] == fixed[..|fixed| - 3];
    assert text[|text| - 5..|text| - 3] == fixed[|fixed| - 2..];
    text
  }

  /** Milliseconds in a day of the clock's UTC time line. */
  const MsPerDay: nat := 86400000

  /** The UTC day of an instant in milliseconds since 1970-01-01T00:00Z (rounded down). */
  function UtcDay(now: int): Day
  {
    now / MsPerDay
  }

  /**
   * `new Date().toISOString().slice(0, 10)`: the full-date of the UTC day
   * of the instant, which parses back to that day.
   */
  function AddedAt(now: int): (s: string)
    requires 0 <= CivilOf(UtcDay(now)).year <= 9999
    ensures |s| == 10 && ParseFullDate(s) == Some(UtcDay(now))
  {
    var c := CivilOf(UtcDay(now));
    CivilOfSpec(UtcDay(now));
    ParseFormatFullDate(c);
    FormatFullDate(c)
  }

  /** The document made of a picked file at instant `now` (which is also its id). */
  function NewDocument(file: FileInfo, now: int): (doc: Document)
    requires 0 <= CivilOf(UtcDay(now)).year <= 9999
    ensures doc.id == now && doc.name == file.name && doc.kind == DocKindOf(file.mimeType)
    ensures doc.size == SizeLabel(file.size) && ParseFullDate(doc.addedAt) == Some(UtcDay(now))
  {
    Document(now, file.name, DocKindOf(file.mimeType), SizeLabel(file.size), AddedAt(now))
  }

  // ---------------------------------------------------------------------
  // The modal's state and its two handlers
  // ---------------------------------------------------------------------

  /**
   * The modal's state: the `resident` it was opened with, the room shown in
   * the selector and the list of documents. Each handler reports the
   * resident as opened, with only the edited field replaced.
   */
  class ResidentEditor {
    const resident: Resident
    var editRoom: string
    var documents: seq<Document>

    /** Opening the modal: the selector shows the resident's room, the list its documents. */
    constructor (r: Resident)
      ensures resident == r && editRoom == r.room && documents == r.documents
    {
      resident := r;
      editRoom := r.room;
      documents := r.documents;
    }

    /**
     * `handleRoomChange`: the selector shows the new room, and the reported
     * resident is the opened one with only its room changed.
     */
    method HandleRoomChange(value: string) returns (update: Resident)
      modifies this
      ensures editRoom == value && documents == old(documents)
      ensures update.room == value && update.(room := resident.room) == resident
    {
      editRoom := value;
      update := resident.(room := value);
    }

    /**
     * `handleAddDocument`: with no file picked nothing happens; otherwise the
     * new document is appended to the list and the reported resident is the
     * opened one with only its documents replaced by the new list.
     */
    method HandleAddDocument(file: Option<FileInfo>, now: int) returns (update: Option<Resident>)
      requires file.Some? ==> 0 <= CivilOf(UtcDay(now)).year <= 9999
      modifies this
      ensures editRoom == old(editRoom)
      ensures file.None? ==> update == None && documents == old(documents)
      ensures file.Some? ==>
        documents == old(documents) + [NewDocument(file.value, now)]
        && update.Some? && update.value.documents == documents
        && update.value.(documents := resident.documents) == resident
    {
      if file.None? {
        return None;
      }
      var doc := NewDocument(file.value, now);
      var newDocs := documents + [doc];
      documents := newDocs;
      update := Some(resident.(documents := newDocs));
    }
  }
}
