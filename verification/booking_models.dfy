/**
 * The booking ledger's records (bookings/models.py): time slots with a
 * capacity, bookings against them, the remaining-capacity count, slot
 * validation, slot labels, and confirmation-code minting on save.
 */
module BookingModels {
  import opened Wrappers
  import opened Text
  import opened Calendar
  import Seqs

  // ---------------------------------------------------------------------------
  // Time slots
  // ---------------------------------------------------------------------------

  /** The `date_type` choices; a new slot defaults to `Specific`. */
  datatype DateType = Weekday | Weekend | Specific

  /** The value stored in the `date_type` column. */
  function DateTypeCode(t: DateType): string {
    match t
    case Weekday => "weekday"
    case Weekend => "weekend"
    case Specific => "specific"
  }

  /**
   * A `TimeSlot` row. The two times are optional because validation runs on
   * form input, where either may be missing; `maxBookings` is a
   * `PositiveIntegerField`, which admits 0.
   */
  datatype TimeSlot = TimeSlot(
    id: nat,
    dateType: DateType,
    specificDate: Option<Date>,
    startTime: Option<Time>,
    endTime: Option<Time>,
    isAvailable: bool,
    maxBookings: nat)

  // ---------------------------------------------------------------------------
  // Bookings
  // ---------------------------------------------------------------------------

  datatype ShootingKind = Portrait | LoveStory | Family | OtherKind

  /** A `Booking` row; `slotId` is the `time_slot` foreign key. */
  datatype Booking = Booking(
    id: nat,
    slotId: nat,
    clientName: string,
    clientEmail: string,
    clientPhone: string,
    shootingKind: ShootingKind,
    message: string,
    isConfirmed: bool,
    createdAt: nat,
    code: string)

  /** The fields a client fills in on the booking form. */
  datatype BookingDetails = BookingDetails(
    clientName: string,
    clientEmail: string,
    clientPhone: string,
    shootingKind: ShootingKind,
    message: string)

  /**
   * A booking built from the form before it is saved: `is_confirmed` and
   * `confirmation_code` take their field defaults.
   */
  function NewBooking(id: nat, slotId: nat, details: BookingDetails, createdAt: nat): (b: Booking)
    ensures !b.isConfirmed && b.code == ""
    ensures b.slotId == slotId && b.id == id && b.createdAt == createdAt
    ensures b.clientName == details.clientName && b.clientEmail == details.clientEmail
    ensures b.clientPhone == details.clientPhone && b.shootingKind == details.shootingKind
    ensures b.message == details.message
  {
    Booking(id, slotId, details.clientName, details.clientEmail, details.clientPhone,
            details.shootingKind, details.message, false, createdAt, "")
  }

  // ---------------------------------------------------------------------------
  // Remaining capacity
  // ---------------------------------------------------------------------------

  /** A booking takes a place on slot `slotId` when it is attached to it and confirmed. */
  predicate TakesPlace(b: Booking, slotId: nat) {
    b.slotId == slotId && b.isConfirmed
  }

  /** `slot.bookings.filter(is_confirmed=True).count()`. */
  function ConfirmedCount(bookings: seq<Booking>, slotId: nat): nat {
    Seqs.Count(bookings, b => TakesPlace(b, slotId))
  }

  /**
   * `get_available_slots`: the maximum minus the confirmed bookings. It is
   * not clamped at zero.
   */
  function RemainingCapacity(slot: TimeSlot, bookings: seq<Booking>): (r: int)
    ensures r <= slot.maxBookings
    ensures r >= slot.maxBookings - |bookings|
  {
    slot.maxBookings - ConfirmedCount(bookings, slot.id)
  }

  /** `is_fully_booked`: no place is left. */
  function IsFullyBooked(slot: TimeSlot, bookings: seq<Booking>): (full: bool)
    ensures full <==> ConfirmedCount(bookings, slot.id) >= slot.maxBookings
  {
    RemainingCapacity(slot, bookings) <= 0
  }

  /** Adding an unconfirmed booking, or one on another slot, leaves the capacity alone. */
  lemma NonHoldingBookingKeepsCapacity(slot: TimeSlot, bookings: seq<Booking>, b: Booking)
    requires !b.isConfirmed || b.slotId != slot.id
    ensures RemainingCapacity(slot, bookings + [b]) == RemainingCapacity(slot, bookings)
  {
    Seqs.CountSnoc(bookings, b, b => TakesPlace(b, slot.id));
  }

  /** Adding a confirmed booking on the slot takes exactly one place. */
  lemma ConfirmedBookingTakesOnePlace(slot: TimeSlot, bookings: seq<Booking>, b: Booking)
    requires b.isConfirmed && b.slotId == slot.id
    ensures RemainingCapacity(slot, bookings + [b]) == RemainingCapacity(slot, bookings) - 1
  {
    Seqs.CountSnoc(bookings, b, b => TakesPlace(b, slot.id));
  }

  /** Unconfirmed bookings never count: a ledger of them leaves every slot at its maximum. */
  lemma {:induction false} UnconfirmedNeverCount(slot: TimeSlot, bookings: seq<Booking>)
    requires forall i :: 0 <= i < |bookings| ==> !bookings[i].isConfirmed
    ensures RemainingCapacity(slot, bookings) == slot.maxBookings
    decreases |bookings|
  {
    if |bookings| > 0 {
      var init := bookings[..|bookings| - 1];
      UnconfirmedNeverCount(slot, init);
      assert bookings == init + [bookings[|bookings| - 1]];
      NonHoldingBookingKeepsCapacity(slot, init, bookings[|bookings| - 1]);
    }
  }

  /** Nothing stops the capacity from going below zero: two confirmed bookings on a one-place slot. */
  lemma CapacityCanBeNegative()
    ensures
      var slot := TimeSlot(1, Weekday, None, None, None, true, 1);
      var b := Booking(1, 1, "", "", "", Portrait, "", true, 0, "A");
      RemainingCapacity(slot, [b, b.(id := 2, code := "B")]) == -1
  {
    var slot := TimeSlot(1, Weekday, None, None, None, true, 1);
    var b := Booking(1, 1, "", "", "", Portrait, "", true, 0, "A");
    var c := b.(id := 2, code := "B");
    ConfirmedBookingTakesOnePlace(slot, [], b);
    ConfirmedBookingTakesOnePlace(slot, [b], c);
    assert [b] + [c] == [b, c];
  }

  // ---------------------------------------------------------------------------
  // Validation (`TimeSlot.clean`), with today's date as a parameter
  // ---------------------------------------------------------------------------

  datatype SlotError = MissingSpecificDate | MissingTime | StartNotBeforeEnd | DateInPast

  datatype Validation = Valid | Invalid(error: SlotError)

  /** What a slot must satisfy to be saved on `today`. */
  predicate WellFormedSlot(slot: TimeSlot, today: Date) {
    && (slot.dateType == Specific ==> slot.specificDate.Some?)
    && slot.startTime.Some? && slot.endTime.Some?
    && TimeBefore(slot.startTime.value, slot.endTime.value)
    && (slot.dateType == Specific && slot.specificDate.Some? ==> !DateBefore(slot.specificDate.value, today))
  }

  /** `TimeSlot.clean`: the first failing check names the error. */
  function Clean(slot: TimeSlot, today: Date): (v: Validation)
    ensures v.Valid? <==> WellFormedSlot(slot, today)
    ensures v == Invalid(MissingSpecificDate) <==> slot.dateType == Specific && slot.specificDate.None?
    ensures v == Invalid(MissingTime) <==>
              !(slot.dateType == Specific && slot.specificDate.None?)
              && (slot.startTime.None? || slot.endTime.None?)
    ensures v == Invalid(StartNotBeforeEnd) <==>
              !(slot.dateType == Specific && slot.specificDate.None?)
              && slot.startTime.Some? && slot.endTime.Some? && !TimeBefore(slot.startTime.value, slot.endTime.value)
    ensures v == Invalid(DateInPast) <==>
              slot.startTime.Some? && slot.endTime.Some? && TimeBefore(slot.startTime.value, slot.endTime.value)
              && slot.dateType == Specific && slot.specificDate.Some? && DateBefore(slot.specificDate.value, today)
  {
    if slot.dateType == Specific && slot.specificDate.None? then Invalid(MissingSpecificDate)
    else if slot.startTime.None? || slot.endTime.None? then Invalid(MissingTime)
    else if !TimeBefore(slot.startTime.value, slot.endTime.value) then Invalid(StartNotBeforeEnd)
    else if slot.dateType == Specific && DateBefore(slot.specificDate.value, today) then Invalid(DateInPast)
    else Valid
  }

  /** A slot dated today passes the date check; slots without a specific date are never date-checked. */
  lemma CleanDateBoundary(slot: TimeSlot, today: Date)
    requires slot.startTime.Some? && slot.endTime.Some? && TimeBefore(slot.startTime.value, slot.endTime.value)
    requires slot.dateType != Specific || slot.specificDate == Some(today)
    ensures Clean(slot, today) == Valid
  {
  }

  /** Equal start and end times are rejected. */
  lemma CleanRejectsEmptyWindow(slot: TimeSlot, today: Date)
    requires slot.dateType != Specific || slot.specificDate.Some?
    requires slot.startTime.Some? && slot.startTime == slot.endTime
    ensures Clean(slot, today) == Invalid(StartNotBeforeEnd)
  {
  }

  // ---------------------------------------------------------------------------
  // Labels (`TimeSlot.__str__`)
  // ---------------------------------------------------------------------------

  /** How a slot's day is described: a concrete date, "weekdays", or "weekends". */
  datatype DayKind = OnDate(date: Date) | Weekdays | Weekends

  /**
   * The three-way classification shared by the slot label and the admin's
   * date column: only a specific slot that carries a date shows it, and every
   * case that is neither that nor a weekday slot reads as the weekend.
   */
  function DayKindOf(slot: TimeSlot): (k: DayKind)
    ensures k.OnDate? <==> slot.dateType == Specific && slot.specificDate.Some?
    ensures k.OnDate? ==> k.date == slot.specificDate.value
    ensures k == Weekdays <==> slot.dateType == Weekday
    ensures k == Weekends <==> slot.dateType == Weekend || (slot.dateType == Specific && slot.specificDate.None?)
  {
    if slot.dateType == Specific && slot.specificDate.Some? then OnDate(slot.specificDate.value)
    else if slot.dateType == Weekday then Weekdays
    else
      assert slot.dateType == Specific ==> slot.specificDate.None?;
      Weekends
  }

  /** `str()` of an optional time: Python prints a missing one as "None". */
  function TimeText(t: Option<Time>): string {
    match t
    case Some(x) => IsoTime(x)
    case None => "None"
  }

  /** The day part of the label. */
  function DayText(k: DayKind): string {
    match k
    case OnDate(d) => IsoDate(d)
    case Weekdays => "Будни"
    case Weekends => "Выходные"
  }

  /** `TimeSlot.__str__`: the day, a space, then `start-end`. */
  function SlotLabel(slot: TimeSlot): string {
    DayText(DayKindOf(slot)) + " " + TimeText(slot.startTime) + "-" + TimeText(slot.endTime)
  }

  /** A dated specific slot's label starts with its date, which reads back unchanged. */
  lemma SlotLabelShowsDate(slot: TimeSlot)
    requires slot.dateType == Specific && slot.specificDate.Some? && ValidDate(slot.specificDate.value)
    ensures |SlotLabel(slot)| >= 10
    ensures ParseIsoDate(SlotLabel(slot)[..10]) == Some(slot.specificDate.value)
  {
    var d := slot.specificDate.value;
    DecimalLength(d.year, 4, 10000);
    TwoDigits(d.month);
    TwoDigits(d.day);
    assert |IsoDate(d)| == 10;
    assert SlotLabel(slot)[..10] == IsoDate(d);
    IsoDateRoundTrip(d);
  }

  /** A specific slot without a date is labelled as a weekend slot. */
  lemma UndatedSpecificSlotReadsAsWeekend(slot: TimeSlot)
    requires slot.dateType == Specific && slot.specificDate.None?
    ensures SlotLabel(slot) == "Выходные " + TimeText(slot.startTime) + "-" + TimeText(slot.endTime)
  {
  }

  // ---------------------------------------------------------------------------
  // Confirmation codes (`Booking.save`)
  // ---------------------------------------------------------------------------

  predicate IsLowerHexDigit(c: char) {
    IsDigit(c) || 'a' <= c <= 'f'
  }

  predicate IsUpperHexDigit(c: char) {
    IsDigit(c) || 'A' <= c <= 'F'
  }

  /** The text of `str(uuid.uuid4())`: lower-case hex digits grouped 8-4-4-4-12. */
  predicate IsUuidText(u: string) {
    && |u| == 36
    && (forall i :: 0 <= i < 36 && (i == 8 || i == 13 || i == 18 || i == 23) ==> u[i] == '-')
    && (forall i :: 0 <= i < 36 && i != 8 && i != 13 && i != 18 && i != 23 ==> IsLowerHexDigit(u[i]))
  }

  /** `str(uuid)[:8].upper()`; the identifier is an input of the model. */
  function MintCode(uuid: string): string {
    Upper(Take(uuid, 8))
  }

  /** A code minted from a UUID is eight upper-case hex digits. */
  lemma MintedCodeShape(uuid: string)
    requires IsUuidText(uuid)
    ensures |MintCode(uuid)| == 8
    ensures forall i :: 0 <= i < 8 ==> IsUpperHexDigit(MintCode(uuid)[i])
  {
    var c := MintCode(uuid);
    forall i | 0 <= i < 8
      ensures IsUpperHexDigit(c[i])
    {
      assert c[i] == UpperChar(uuid[i]);
      assert IsLowerHexDigit(uuid[i]);
    }
  }

  /**
   * `Booking.save`: a code is assigned only when the field is empty; every
   * other field is stored as given.
   */
  function SaveBooking(b: Booking, uuid: string): (saved: Booking)
    ensures saved.(code := b.code) == b
    ensures b.code != "" ==> saved.code == b.code
    ensures b.code == "" ==> saved.code == MintCode(uuid)
    ensures b.code == "" && IsUuidText(uuid) ==> |saved.code| == 8
  {
    if b.code == "" then b.(code := MintCode(uuid)) else b
  }

  /** Saving again never changes an existing code, whatever identifier is drawn. */
  lemma ResaveKeepsCode(b: Booking, first: string, second: string)
    requires IsUuidText(first)
    ensures SaveBooking(SaveBooking(b, first), second) == SaveBooking(b, first)
  {
    MintedCodeShape(first);
  }
}
