/**
 * The public booking flow (bookings/views.py): listing the open slots for a
 * date, creating a booking with the capacity checked on dispatch and again
 * before saving, and looking a booking up by its confirmation code.
 *
 * The database is a pair of sequences of rows. Requests are handled one at a
 * time; the chat notification sent after a booking is saved is an input
 * whose value the flow ignores.
 */
module BookingViews {
  import opened Wrappers
  import opened Calendar
  import opened BookingModels
  import Seqs

  datatype Db = Db(slots: seq<TimeSlot>, bookings: seq<Booking>)

  // ---------------------------------------------------------------------------
  // Database integrity: primary keys, the unique code, the foreign key
  // ---------------------------------------------------------------------------

  predicate SlotIdsUnique(slots: seq<TimeSlot>) {
    forall i, j :: 0 <= i < j < |slots| ==> slots[i].id != slots[j].id
  }

  predicate BookingIdsUnique(bookings: seq<Booking>) {
    forall i, j :: 0 <= i < j < |bookings| ==> bookings[i].id != bookings[j].id
  }

  predicate CodesUnique(bookings: seq<Booking>) {
    forall i, j :: 0 <= i < j < |bookings| ==> bookings[i].code != bookings[j].code
  }

  predicate HasSlot(slots: seq<TimeSlot>, id: nat) {
    exists i :: 0 <= i < |slots| && slots[i].id == id
  }

  predicate WellFormedDb(db: Db) {
    && SlotIdsUnique(db.slots)
    && BookingIdsUnique(db.bookings)
    && CodesUnique(db.bookings)
    && (forall i :: 0 <= i < |db.bookings| ==> HasSlot(db.slots, db.bookings[i].slotId))
  }

  // ---------------------------------------------------------------------------
  // Slot listing for a date (`TimeSlotSelectionView.get_context_data`)
  // ---------------------------------------------------------------------------

  /** The four conditions a slot must meet to be offered on `date`. */
  predicate OfferedOn(slot: TimeSlot, bookings: seq<Booking>, date: Date) {
    && slot.dateType == Specific
    && slot.specificDate == Some(date)
    && slot.isAvailable
    && !IsFullyBooked(slot, bookings)
  }

  /** The slots offered on `date`, in database order. */
  function SlotsForDate(db: Db, date: Date): (r: seq<TimeSlot>)
    ensures forall i :: 0 <= i < |r| ==> r[i] in db.slots && OfferedOn(r[i], db.bookings, date)
    ensures forall i :: 0 <= i < |db.slots| && OfferedOn(db.slots[i], db.bookings, date) ==> db.slots[i] in r
    ensures forall i :: 0 <= i < |r| ==> RemainingCapacity(r[i], db.bookings) > 0
  {
    Seqs.Filter(db.slots, s => OfferedOn(s, db.bookings, date))
  }

  /** What the calendar page shows for the optional `date` query parameter. */
  datatype CalendarPage =
    | NoDateChosen
    | BadDateFormat
    | DateListing(date: Date, slots: seq<TimeSlot>)

  /**
   * An absent or empty parameter shows the bare form; one that `strptime`
   * rejects shows an error message and no listing; otherwise the listing.
   */
  function CalendarContext(db: Db, dateParam: Option<string>): (page: CalendarPage)
    ensures dateParam.None? || dateParam == Some("") ==> page == NoDateChosen
    ensures page == BadDateFormat <==>
              dateParam.Some? && dateParam.value != "" && ParseIsoDate(dateParam.value).None?
    ensures page.DateListing? ==>
              && dateParam.Some? && ParseIsoDate(dateParam.value) == Some(page.date)
              && ValidDate(page.date)
              && page.slots == SlotsForDate(db, page.date)
  {
    match dateParam
    case None => NoDateChosen
    case Some(text) =>
      if text == "" then NoDateChosen
      else
        match ParseIsoDate(text)
        case None => BadDateFormat
        case Some(d) => DateListing(d, SlotsForDate(db, d))
  }

  // ---------------------------------------------------------------------------
  // Booking creation (`BookingCreateView.dispatch` and `form_valid`)
  // ---------------------------------------------------------------------------

  /** `get_object_or_404(TimeSlot, id=slotId, is_available=True)`, with None for 404. */
  function FindAvailableSlot(slots: seq<TimeSlot>, slotId: nat): (r: Option<TimeSlot>)
    ensures r.Some? ==> r.value in slots && r.value.id == slotId && r.value.isAvailable
    ensures r.None? <==> forall i :: 0 <= i < |slots| ==> slots[i].id != slotId || !slots[i].isAvailable
  {
    if |slots| == 0 then None
    else if slots[0].id == slotId && slots[0].isAvailable then Some(slots[0])
    else FindAvailableSlot(slots[1..], slotId)
  }

  datatype Dispatched = SlotNotFound | SlotTaken | ShowForm(slot: TimeSlot)

  /** `dispatch`: resolve the slot, then turn the client away if it is full. */
  function Dispatch(db: Db, slotId: nat): (d: Dispatched)
    ensures d == SlotNotFound <==> FindAvailableSlot(db.slots, slotId).None?
    ensures d == SlotTaken <==>
              FindAvailableSlot(db.slots, slotId).Some? && IsFullyBooked(FindAvailableSlot(db.slots, slotId).value, db.bookings)
    ensures d.ShowForm? ==> d.slot.id == slotId && d.slot.isAvailable && !IsFullyBooked(d.slot, db.bookings)
  {
    match FindAvailableSlot(db.slots, slotId)
    case None => SlotNotFound
    case Some(slot) => if IsFullyBooked(slot, db.bookings) then SlotTaken else ShowForm(slot)
  }

  /** What the chat notification did. The flow catches every failure and ignores the result. */
  datatype AlertResult = AlertDelivered | AlertRefused | AlertRaised

  /** The HTTP outcome of a booking request. */
  datatype CreateOutcome =
    | NotFound                     // 404 from the slot lookup
    | RedirectToCalendar           // the slot is full
    | FormRedisplayed              // the form did not validate
    | StorageConflict              // the unique code collided; the insert fails and nothing catches it
    | RedirectToDone(code: string) // success; the target URL carries the code

  datatype CreateResult = CreateResult(outcome: CreateOutcome, db: Db)

  /** The largest booking id in use, or 0. */
  function MaxBookingId(bookings: seq<Booking>): (m: nat)
    ensures forall i :: 0 <= i < |bookings| ==> bookings[i].id <= m
    ensures |bookings| > 0 ==> exists i :: 0 <= i < |bookings| && bookings[i].id == m
  {
    if |bookings| == 0 then 0
    else
      var rest := MaxBookingId(bookings[1..]);
      if bookings[0].id > rest then bookings[0].id else rest
  }

  /** The id the database assigns to the next inserted booking. */
  function NextBookingId(bookings: seq<Booking>): (id: nat)
    ensures forall i :: 0 <= i < |bookings| ==> bookings[i].id != id
  {
    MaxBookingId(bookings) + 1
  }

  predicate CodeInUse(bookings: seq<Booking>, code: string) {
    exists i :: 0 <= i < |bookings| && bookings[i].code == code
  }

  /**
   * `form_valid`: attach the booking to the slot resolved at dispatch,
   * re-check capacity against the current ledger, save (minting the code from
   * `uuid`), then notify. `alert` does not influence the result.
   */
  function FormValid(db: Db, slot: TimeSlot, details: BookingDetails, uuid: string, now: nat, alert: AlertResult)
    : (res: CreateResult)
    ensures IsFullyBooked(slot, db.bookings) ==> res == CreateResult(RedirectToCalendar, db)
    ensures res.outcome.RedirectToDone? ==>
              && !IsFullyBooked(slot, db.bookings)
              && |res.db.bookings| == |db.bookings| + 1
              && res.db.bookings[..|db.bookings|] == db.bookings
              && res.db.slots == db.slots
    ensures !res.outcome.RedirectToDone? ==> res.db == db
    ensures res.outcome == StorageConflict <==>
              !IsFullyBooked(slot, db.bookings) && CodeInUse(db.bookings, MintCode(uuid))
    ensures !IsFullyBooked(slot, db.bookings) && !CodeInUse(db.bookings, MintCode(uuid)) ==>
              res.outcome == RedirectToDone(MintCode(uuid))
  {
    var booking := NewBooking(NextBookingId(db.bookings), slot.id, details, now);
    if IsFullyBooked(slot, db.bookings) then CreateResult(RedirectToCalendar, db)
    else
      var saved := SaveBooking(booking, uuid);
      if CodeInUse(db.bookings, saved.code) then CreateResult(StorageConflict, db)
      else
        var db' := db.(bookings := db.bookings + [saved]);
        assert db'.bookings[..|db.bookings|] == db.bookings;
        CreateResult(RedirectToDone(saved.code), db')
  }

  /**
   * A POST to the booking form for slot `slotId`. `form` is the cleaned form
   * data, or None when the form does not validate.
   */
  function SubmitBooking(db: Db, slotId: nat, form: Option<BookingDetails>, uuid: string, now: nat, alert: AlertResult)
    : (res: CreateResult)
    ensures res.outcome == NotFound <==> FindAvailableSlot(db.slots, slotId).None?
    ensures res.outcome == RedirectToCalendar <==> Dispatch(db, slotId) == SlotTaken
    ensures res.outcome == FormRedisplayed <==> Dispatch(db, slotId).ShowForm? && form.None?
    ensures res.outcome == StorageConflict <==>
              Dispatch(db, slotId).ShowForm? && form.Some? && CodeInUse(db.bookings, MintCode(uuid))
    ensures res.outcome.RedirectToDone? <==>
              Dispatch(db, slotId).ShowForm? && form.Some? && !CodeInUse(db.bookings, MintCode(uuid))
    ensures res.outcome.RedirectToDone? ==> res.outcome.code == MintCode(uuid)
    ensures !res.outcome.RedirectToDone? ==> res.db == db
  {
    match Dispatch(db, slotId)
    case SlotNotFound => CreateResult(NotFound, db)
    case SlotTaken => CreateResult(RedirectToCalendar, db)
    case ShowForm(slot) =>
      match form
      case None => CreateResult(FormRedisplayed, db)
      case Some(details) => FormValid(db, slot, details, uuid, now, alert)
  }

  /** The notification's fate never changes the response or the stored data. */
  lemma AlertDoesNotMatter(db: Db, slotId: nat, form: Option<BookingDetails>, uuid: string, now: nat,
                           a1: AlertResult, a2: AlertResult)
    ensures SubmitBooking(db, slotId, form, uuid, now, a1) == SubmitBooking(db, slotId, form, uuid, now, a2)
  {
  }

  /**
   * A successful submission stores exactly one new, unconfirmed booking on the
   * chosen slot, carrying the form's data and the freshly minted code that the
   * redirect reports.
   */
  lemma SubmitStoresBooking(db: Db, slotId: nat, details: BookingDetails, uuid: string, now: nat, alert: AlertResult)
    ensures
      var res := SubmitBooking(db, slotId, Some(details), uuid, now, alert);
      res.outcome.RedirectToDone? ==>
      var b := res.db.bookings[|db.bookings|];
      && res.db.slots == db.slots
      && res.db.bookings == db.bookings + [b]
      && b.slotId == slotId
      && !b.isConfirmed
      && b.code == MintCode(uuid) == res.outcome.code
      && b.clientName == details.clientName && b.clientEmail == details.clientEmail
      && b.clientPhone == details.clientPhone && b.shootingKind == details.shootingKind
      && b.message == details.message
  {
    var res := SubmitBooking(db, slotId, Some(details), uuid, now, alert);
    if res.outcome.RedirectToDone? {
      var b := res.db.bookings[|db.bookings|];
      assert res.db.bookings == db.bookings + [b];
    }
  }

  /** Creating a booking leaves the remaining capacity of every slot unchanged. */
  lemma SubmitKeepsCapacity(db: Db, slotId: nat, form: Option<BookingDetails>, uuid: string, now: nat,
                            alert: AlertResult, slot: TimeSlot)
    ensures
      var res := SubmitBooking(db, slotId, form, uuid, now, alert);
      RemainingCapacity(slot, res.db.bookings) == RemainingCapacity(slot, db.bookings)
  {
    var res := SubmitBooking(db, slotId, form, uuid, now, alert);
    if res.outcome.RedirectToDone? {
      SubmitStoresBooking(db, slotId, form.value, uuid, now, alert);
      var b := res.db.bookings[|db.bookings|];
      NonHoldingBookingKeepsCapacity(slot, db.bookings, b);
    }
  }

  /**
   * Because new bookings are unconfirmed, a slot that accepted a booking still
   * accepts the next one: sequential submissions never fill a slot.
   */
  lemma SlotStaysOpen(db: Db, slotId: nat, details: BookingDetails, uuid: string, now: nat, alert: AlertResult)
    requires SlotIdsUnique(db.slots)
    ensures SubmitBooking(db, slotId, Some(details), uuid, now, alert).outcome.RedirectToDone? ==>
              Dispatch(SubmitBooking(db, slotId, Some(details), uuid, now, alert).db, slotId).ShowForm?
  {
    var res := SubmitBooking(db, slotId, Some(details), uuid, now, alert);
    if res.outcome.RedirectToDone? {
      var slot := FindAvailableSlot(db.slots, slotId).value;
      SubmitKeepsCapacity(db, slotId, Some(details), uuid, now, alert, slot);
    }
  }

  lemma {:induction false} HasSlotOfMember(slots: seq<TimeSlot>, s: TimeSlot)
    requires s in slots
    ensures HasSlot(slots, s.id)
  {
    var i :| 0 <= i < |slots| && slots[i] == s;
  }

  /** Creating a booking keeps the keys unique and the foreign key intact. */
  lemma SubmitPreservesIntegrity(db: Db, slotId: nat, form: Option<BookingDetails>, uuid: string, now: nat,
                                 alert: AlertResult)
    requires WellFormedDb(db)
    ensures WellFormedDb(SubmitBooking(db, slotId, form, uuid, now, alert).db)
  {
    var res := SubmitBooking(db, slotId, form, uuid, now, alert);
    if res.outcome.RedirectToDone? {
      SubmitStoresBooking(db, slotId, form.value, uuid, now, alert);
      var b := res.db.bookings[|db.bookings|];
      assert HasSlot(db.slots, b.slotId) by {
        HasSlotOfMember(db.slots, FindAvailableSlot(db.slots, slotId).value);
      }
      assert b.id == NextBookingId(db.bookings);
      assert !CodeInUse(db.bookings, b.code);
      AppendKeepsWellFormed(db, b);
    }
  }

  /** Appending a booking with a fresh id, a fresh code and an existing slot keeps the ledger well formed. */
  lemma AppendKeepsWellFormed(db: Db, b: Booking)
    requires WellFormedDb(db)
    requires forall i :: 0 <= i < |db.bookings| ==> db.bookings[i].id != b.id
    requires !CodeInUse(db.bookings, b.code) && HasSlot(db.slots, b.slotId)
    ensures WellFormedDb(db.(bookings := db.bookings + [b]))
  {
    var bs := db.bookings + [b];
    assert forall i :: 0 <= i < |db.bookings| ==> bs[i] == db.bookings[i];
  }

  // ---------------------------------------------------------------------------
  // Lookup by confirmation code (`BookingDoneView`, `BookingDetailView`)
  // ---------------------------------------------------------------------------

  /** `get_object_or_404(Booking, confirmation_code=code)`; `get` fails when several rows match. */
  datatype Lookup = Found(booking: Booking) | NoSuchBooking | SeveralMatch

  /** The query-set condition `confirmation_code=code`. */
  function HasCode(code: string): Booking -> bool {
    (b: Booking) => b.code == code
  }

  function LookupByCode(bookings: seq<Booking>, code: string): (r: Lookup)
    ensures r.Found? ==> r.booking in bookings && r.booking.code == code
    ensures r == NoSuchBooking <==> !CodeInUse(bookings, code)
  {
    var matches := Seqs.Filter(bookings, HasCode(code));
    if |matches| == 0 then
      assert forall i :: 0 <= i < |bookings| ==> bookings[i].code != code;
      NoSuchBooking
    else if |matches| == 1 then Found(matches[0])
    else SeveralMatch
  }

  lemma {:induction false} UniqueCodeMatchesOnce(bookings: seq<Booking>, code: string)
    requires CodesUnique(bookings)
    ensures |Seqs.Filter(bookings, HasCode(code))| <= 1
    decreases |bookings|
  {
    if |bookings| > 0 {
      UniqueCodeMatchesOnce(bookings[1..], code);
      if bookings[0].code == code {
        Seqs.FilterNone(bookings[1..], HasCode(code));
      }
    }
  }

  /** With unique codes, a lookup finds the booking carrying the code or reports 404. */
  lemma UniqueCodesNeverAmbiguous(bookings: seq<Booking>, code: string)
    requires CodesUnique(bookings)
    ensures LookupByCode(bookings, code) != SeveralMatch
  {
    UniqueCodeMatchesOnce(bookings, code);
  }

  /** The code a successful submission reports leads back to the booking it stored. */
  lemma CreatedBookingIsFoundByCode(db: Db, slotId: nat, details: BookingDetails, uuid: string, now: nat,
                                    alert: AlertResult)
    requires WellFormedDb(db)
    ensures
      var res := SubmitBooking(db, slotId, Some(details), uuid, now, alert);
      res.outcome.RedirectToDone? ==>
        LookupByCode(res.db.bookings, res.outcome.code) == Found(res.db.bookings[|db.bookings|])
  {
    var res := SubmitBooking(db, slotId, Some(details), uuid, now, alert);
    if !res.outcome.RedirectToDone? {
      return;
    }
    SubmitStoresBooking(db, slotId, details, uuid, now, alert);
    var b := res.db.bookings[|db.bookings|];
    assert !CodeInUse(db.bookings, b.code) by {
      SubmitPreservesIntegrity(db, slotId, Some(details), uuid, now, alert);
    }
    LookupAfterFreshAppend(db.bookings, b);
  }

  /** A booking appended under a code nobody holds is the one its code finds. */
  lemma LookupAfterFreshAppend(bookings: seq<Booking>, b: Booking)
    requires !CodeInUse(bookings, b.code)
    ensures LookupByCode(bookings + [b], b.code) == Found(b)
  {
    var p := HasCode(b.code);
    Seqs.FilterAppend(bookings, [b], p);
    Seqs.FilterNone(bookings, p);
    assert [b][1..] == [];
    assert Seqs.Filter([b], p) == [b];
  }
}
