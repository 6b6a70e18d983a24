/**
 * The operator's side of the booking ledger (bookings/admin.py): the slot
 * list's computed columns, the booking status badge, the bulk actions, and
 * the booking edit form that locks a booking to its slot.
 */
module BookingAdmin {
  import opened Wrappers
  import opened Text
  import opened Calendar
  import opened BookingModels
  import BookingViews
  import Seqs

  // ---------------------------------------------------------------------------
  // Slot list columns (`TimeSlotAdmin`)
  // ---------------------------------------------------------------------------

  /** `strftime('%d.%m.%Y')`. */
  function DottedDate(d: Date): (text: string)
    ensures |text| >= 1 && IsDigit(text[0])
  {
    Padded(d.day, 2) + "." + Padded(d.month, 2) + "." + Padded(d.year, 4)
  }

  /**
   * `format_date_display`: the same three-way classification as the slot
   * label, so a specific slot without a date also reads "Выходные дни".
   */
  function FormatDateDisplay(slot: TimeSlot): (text: string)
    ensures text == "Выходные дни" <==> DayKindOf(slot) == Weekends
    ensures text == "Будние дни" <==> DayKindOf(slot) == Weekdays
    ensures DayKindOf(slot).OnDate? ==> text == DottedDate(slot.specificDate.value)
  {
    match DayKindOf(slot)
    case OnDate(d) => DottedDate(d)
    case Weekdays => "Будние дни"
    case Weekends => "Выходные дни"
  }

  /** The column and the slot label never disagree on whether a slot reads as a weekend slot. */
  lemma DateDisplayAgreesWithLabel(slot: TimeSlot)
    ensures FormatDateDisplay(slot) == "Выходные дни" <==> "Выходные" <= SlotLabel(slot)
  {
    LabelStartsWithDay(slot);
    var day := DayText(DayKindOf(slot));
    if DayKindOf(slot).OnDate? {
      assert IsDigit(day[0]);
    } else if DayKindOf(slot) == Weekdays {
      assert day[0] == 'Б';
    }
  }

  /** The label begins with its day text. */
  lemma LabelStartsWithDay(slot: TimeSlot)
    ensures DayText(DayKindOf(slot)) <= SlotLabel(slot)
  {
    FirstPieceIsPrefix(DayText(DayKindOf(slot)), " ", TimeText(slot.startTime), "-", TimeText(slot.endTime));
  }

  lemma FirstPieceIsPrefix(a: string, b: string, c: string, d: string, e: string)
    ensures a <= a + b + c + d + e
  {
    assert (a + b + c + d + e)[..|a|] == a;
  }

  datatype Availability = Available | Occupied | Unavailable

  /** `availability_status`: an unavailable slot is reported so whatever its capacity. */
  function AvailabilityStatus(slot: TimeSlot, bookings: seq<Booking>): (a: Availability)
    ensures a == Unavailable <==> !slot.isAvailable
    ensures a == Available <==> slot.isAvailable && RemainingCapacity(slot, bookings) > 0
    ensures a == Occupied <==> slot.isAvailable && IsFullyBooked(slot, bookings)
  {
    if slot.isAvailable then
      if RemainingCapacity(slot, bookings) > 0 then Available else Occupied
    else Unavailable
  }

  datatype SlotStats = SlotStats(booked: nat, maximum: nat, free: int)

  /** `bookings_count`: booked (confirmed only), the maximum, and the free places. */
  function BookingsCount(slot: TimeSlot, bookings: seq<Booking>): (s: SlotStats)
    ensures s.booked + s.free == s.maximum == slot.maxBookings
    ensures s.free == RemainingCapacity(slot, bookings)
    ensures s.booked <= |bookings|
  {
    Seqs.CountMonotone(bookings, b => TakesPlace(b, slot.id), b => true);
    Seqs.FilterKeepsAll(bookings, b => true);
    SlotStats(ConfirmedCount(bookings, slot.id), slot.maxBookings, RemainingCapacity(slot, bookings))
  }

  /** Slots selected by id in a bulk action. */
  function SetAvailability(slots: seq<TimeSlot>, selected: set<nat>, value: bool): (r: seq<TimeSlot>)
    ensures |r| == |slots|
    ensures forall i :: 0 <= i < |r| ==> r[i].(isAvailable := slots[i].isAvailable) == slots[i]
    ensures forall i :: 0 <= i < |r| ==>
              r[i].isAvailable == if slots[i].id in selected then value else slots[i].isAvailable
  {
    seq(|slots|, i requires 0 <= i < |slots| =>
      if slots[i].id in selected then slots[i].(isAvailable := value) else slots[i])
  }

  /** `make_available` / `make_unavailable` once more with the same value changes nothing. */
  lemma SetAvailabilityIdempotent(slots: seq<TimeSlot>, selected: set<nat>, value: bool)
    ensures SetAvailability(SetAvailability(slots, selected, value), selected, value)
         == SetAvailability(slots, selected, value)
  {
  }

  /** After `make_unavailable`, no selected slot is offered on any date. */
  lemma UnavailableSlotsAreNotOffered(db: BookingViews.Db, selected: set<nat>, date: Date)
    ensures
      var r := BookingViews.SlotsForDate(db.(slots := SetAvailability(db.slots, selected, false)), date);
      forall i :: 0 <= i < |r| ==> r[i].id !in selected
  {
    var db' := db.(slots := SetAvailability(db.slots, selected, false));
    var r := BookingViews.SlotsForDate(db', date);
    forall i | 0 <= i < |r|
      ensures r[i].id !in selected
    {
      var j :| 0 <= j < |db'.slots| && db'.slots[j] == r[i];
    }
  }

  // ---------------------------------------------------------------------------
  // Booking list (`BookingAdmin`)
  // ---------------------------------------------------------------------------

  datatype Badge = ConfirmedBadge | AwaitingBadge

  /** `status_badge`: decided by the confirmation flag alone. */
  function StatusBadge(b: Booking): (badge: Badge)
    ensures badge == ConfirmedBadge <==> b.isConfirmed
  {
    if b.isConfirmed then ConfirmedBadge else AwaitingBadge
  }

  /** `confirm_bookings` (value true) and `unconfirm_bookings` (value false) on the selected ids. */
  function SetConfirmed(bookings: seq<Booking>, selected: set<nat>, value: bool): (r: seq<Booking>)
    ensures |r| == |bookings|
    ensures forall i :: 0 <= i < |r| ==> r[i].(isConfirmed := bookings[i].isConfirmed) == bookings[i]
    ensures forall i :: 0 <= i < |r| ==>
              r[i].isConfirmed == if bookings[i].id in selected then value else bookings[i].isConfirmed
  {
    seq(|bookings|, i requires 0 <= i < |bookings| =>
      if bookings[i].id in selected then bookings[i].(isConfirmed := value) else bookings[i])
  }

  /** Confirming can only take places: no slot's remaining capacity grows. */
  lemma ConfirmNeverFreesPlaces(bookings: seq<Booking>, selected: set<nat>, slot: TimeSlot)
    ensures RemainingCapacity(slot, SetConfirmed(bookings, selected, true)) <= RemainingCapacity(slot, bookings)
  {
    Seqs.CountPointwise(bookings, SetConfirmed(bookings, selected, true), b => TakesPlace(b, slot.id));
  }

  /** Unconfirming can only free places: no slot's remaining capacity shrinks. */
  lemma UnconfirmNeverTakesPlaces(bookings: seq<Booking>, selected: set<nat>, slot: TimeSlot)
    ensures RemainingCapacity(slot, SetConfirmed(bookings, selected, false)) >= RemainingCapacity(slot, bookings)
  {
    Seqs.CountPointwise(SetConfirmed(bookings, selected, false), bookings, b => TakesPlace(b, slot.id));
  }

  /** Unconfirming what was just confirmed restores the ledger when the selection was all unconfirmed. */
  lemma ConfirmThenUnconfirmRestores(bookings: seq<Booking>, selected: set<nat>)
    requires forall i :: 0 <= i < |bookings| && bookings[i].id in selected ==> !bookings[i].isConfirmed
    ensures SetConfirmed(SetConfirmed(bookings, selected, true), selected, false) == bookings
  {
    var r := SetConfirmed(SetConfirmed(bookings, selected, true), selected, false);
    forall i | 0 <= i < |bookings|
      ensures r[i] == bookings[i]
    {
    }
  }

  /**
   * The operator can confirm past the maximum: on a one-place slot holding two
   * unconfirmed bookings, confirming both leaves -1 places.
   */
  lemma ConfirmingCanOverfill(slot: TimeSlot, a: Booking, b: Booking)
    requires slot.maxBookings == 1
    requires a.slotId == slot.id && b.slotId == slot.id
    requires !a.isConfirmed && !b.isConfirmed
    ensures RemainingCapacity(slot, [a, b]) == 1
    ensures RemainingCapacity(slot, SetConfirmed([a, b], {a.id, b.id}, true)) == -1
  {
    UnconfirmedNeverCount(slot, [a, b]);
    ConfirmPair(a, b);
    TwoConfirmedTakeTwo(slot, a.(isConfirmed := true), b.(isConfirmed := true));
  }

  /** Two confirmed bookings on a slot take two places. */
  lemma TwoConfirmedTakeTwo(slot: TimeSlot, a: Booking, b: Booking)
    requires a.isConfirmed && b.isConfirmed && a.slotId == slot.id && b.slotId == slot.id
    ensures RemainingCapacity(slot, [a] + [b]) == slot.maxBookings - 2
  {
    ConfirmedBookingTakesOnePlace(slot, [], a);
    ConfirmedBookingTakesOnePlace(slot, [a], b);
  }

  /** Confirming both bookings of a two-booking ledger. */
  lemma ConfirmPair(a: Booking, b: Booking)
    ensures SetConfirmed([a, b], {a.id, b.id}, true) == [a.(isConfirmed := true)] + [b.(isConfirmed := true)]
  {
    var r := SetConfirmed([a, b], {a.id, b.id}, true);
    assert r[0] == a.(isConfirmed := true);
    assert r[1] == b.(isConfirmed := true);
  }

  // ---------------------------------------------------------------------------
  // The booking edit form (`get_form`)
  // ---------------------------------------------------------------------------

  /** The editable fields of the admin booking form. */
  datatype AdminBookingForm = AdminBookingForm(slotId: nat, details: BookingDetails, isConfirmed: bool)

  /**
   * Saving the admin form. When a booking is being edited its `time_slot`
   * field is disabled, so the submitted slot is ignored; the code and the
   * creation time are read-only. A new booking takes the submitted slot and
   * gets a code on save.
   */
  function AdminSaveBooking(existing: Option<Booking>, form: AdminBookingForm, newId: nat, now: nat, uuid: string)
    : (b: Booking)
    ensures existing.Some? ==> b.slotId == existing.value.slotId
    ensures existing.Some? ==> b.id == existing.value.id && b.createdAt == existing.value.createdAt
    ensures existing.Some? && existing.value.code != "" ==> b.code == existing.value.code
    ensures existing.None? ==> b.slotId == form.slotId && b.code == MintCode(uuid)
    ensures b.isConfirmed == form.isConfirmed
    ensures existing.Some? && existing.value.code == "" ==> b.code == MintCode(uuid)
    ensures existing.None? ==> b.id == newId && b.createdAt == now
    ensures b.clientName == form.details.clientName && b.message == form.details.message
    ensures b.clientEmail == form.details.clientEmail && b.clientPhone == form.details.clientPhone
    ensures b.shootingKind == form.details.shootingKind
  {
    match existing
    case Some(prior) =>
      var edited := NewBooking(prior.id, prior.slotId, form.details, prior.createdAt);
      SaveBooking(edited.(isConfirmed := form.isConfirmed, code := prior.code), uuid)
    case None =>
      SaveBooking(NewBooking(newId, form.slotId, form.details, now).(isConfirmed := form.isConfirmed), uuid)
  }

  /** An admin edit cannot move a booking to another slot, whatever slot the form submits. */
  lemma EditKeepsSlot(prior: Booking, f1: AdminBookingForm, f2: AdminBookingForm, newId: nat, now: nat, uuid: string)
    requires f1.details == f2.details && f1.isConfirmed == f2.isConfirmed
    ensures AdminSaveBooking(Some(prior), f1, newId, now, uuid) == AdminSaveBooking(Some(prior), f2, newId, now, uuid)
  {
  }

  /** The change form as it opens on a stored booking: its slot, its client data and its confirmation. */
  function FormOf(b: Booking): (form: AdminBookingForm)
    ensures form.slotId == b.slotId && form.isConfirmed == b.isConfirmed
  {
    AdminBookingForm(b.slotId, BookingDetails(b.clientName, b.clientEmail, b.clientPhone, b.shootingKind, b.message),
                     b.isConfirmed)
  }

  /** Saving a stored booking's change form unedited gives back that booking, whatever id, time or identifier is drawn. */
  lemma UneditedSaveKeepsBooking(b: Booking, newId: nat, now: nat, uuid: string)
    ensures b.code != "" ==> AdminSaveBooking(Some(b), FormOf(b), newId, now, uuid) == b
  {
  }
}
