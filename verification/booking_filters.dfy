/**
 * The admin's "date type" list filter for time slots (bookings/filters.py).
 * The selected value arrives as the raw `date_type` query parameter.
 */
module BookingFilters {
  import opened Wrappers
  import opened BookingModels
  import Seqs

  /** `lookups`: the offered choices, one per date type, in this order. */
  function DateTypeLookups(): (choices: seq<string>)
    ensures |choices| == 3
    ensures forall t: DateType :: DateTypeCode(t) in choices
  {
    [DateTypeCode(Weekday), DateTypeCode(Weekend), DateTypeCode(Specific)]
  }

  /** A query parameter is "set" when it is present and non-empty. */
  predicate IsSet(value: Option<string>) {
    value.Some? && value.value != ""
  }

  /** The query-set condition `date_type=v`. */
  function DateTypeIs(v: string): TimeSlot -> bool {
    (s: TimeSlot) => DateTypeCode(s.dateType) == v
  }

  /** `queryset`: with no value the slots pass unchanged; otherwise only slots of that type. */
  function FilterByDateType(slots: seq<TimeSlot>, value: Option<string>): (r: seq<TimeSlot>)
    ensures !IsSet(value) ==> r == slots
    ensures IsSet(value) ==> forall i :: 0 <= i < |r| ==> DateTypeCode(r[i].dateType) == value.value
    ensures IsSet(value) ==>
              forall i :: 0 <= i < |slots| && DateTypeCode(slots[i].dateType) == value.value ==> slots[i] in r
    ensures multiset(r) <= multiset(slots)
    ensures IsSet(value) ==> r == Seqs.Pick(slots, Seqs.Matching(slots, DateTypeIs(value.value)))
    ensures IsSet(value) ==> forall x: TimeSlot ::
              multiset(r)[x] == if DateTypeCode(x.dateType) == value.value then multiset(slots)[x] else 0
  {
    if IsSet(value) then
      var keep := DateTypeIs(value.value);
      var r := Seqs.Filter(slots, keep);
      Seqs.FilterPicksMatching(slots, keep);
      assert forall x: TimeSlot :: multiset(r)[x] == if keep(x) then multiset(slots)[x] else 0 by {
        forall x: TimeSlot ensures multiset(r)[x] == if keep(x) then multiset(slots)[x] else 0 {
          Seqs.FilterCounts(slots, keep, x);
        }
      }
      r
    else slots
  }

  /** Applying the filter twice is applying it once. */
  lemma FilterByDateTypeIdempotent(slots: seq<TimeSlot>, value: Option<string>)
    ensures FilterByDateType(FilterByDateType(slots, value), value) == FilterByDateType(slots, value)
  {
    if IsSet(value) {
      Seqs.FilterIdempotent(slots, DateTypeIs(value.value));
    }
  }

  /** A value that is not one of the offered choices selects no slot. */
  lemma UnknownValueSelectsNothing(slots: seq<TimeSlot>, v: string)
    requires v != "" && v !in DateTypeLookups()
    ensures FilterByDateType(slots, Some(v)) == []
  {
    Seqs.FilterNone(slots, DateTypeIs(v));
  }
}
