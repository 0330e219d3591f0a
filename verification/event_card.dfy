/** One event's card on the dashboard
    (client/src/components/dashboard/EventoCard.jsx): its bookable seats, the
    seats its bookings hold, and the unrounded percentage behind the progress
    bar. */
module EventCard {
  import opened Wrappers
  import opened Seqs
  import opened Text
  import opened Domain
  import BookingFlow
  import Mapping

  /** The seats the bookings of an event hold, as a function of the event. */
  function CardOccupied(bookings: seq<Booking>): Event -> int
  {
    (e: Event) => OccupiedCount(bookings, e.id)
  }

  /** The card's occupied count is the length of the occupied list the booking
      wizard builds for the same event, and of the mapping page's rows. */
  lemma CardOccupiedIsOccupiedList(bookings: seq<Booking>, e: Event)
    ensures CardOccupied(bookings)(e) == |BookingFlow.OccupiedClaims(bookings, Some(e))|
    ensures CardOccupied(bookings)(e) == |Mapping.OccupiedRows(bookings, IntToString(e.id))|
    ensures CardOccupied(bookings)(e) >= 0
  {
    Mapping.OccupiedRowsAreOccupiedClaims(bookings, e);
  }

  /** `(occupied / total) * 100`, not rounded; 0 when the total is not
      positive. */
  function CardPercent(bookings: seq<Booking>, e: Event): (p: real)
    ensures BookableSeats(e) <= 0 ==> p == 0.0
    ensures BookableSeats(e) > 0 ==> p * (BookableSeats(e) as real) == 100.0 * (OccupiedCount(bookings, e.id) as real)
  {
    var t := BookableSeats(e);
    if t > 0 then (OccupiedCount(bookings, e.id) as real / t as real) * 100.0 else 0.0
  }

  /** The per-bus label: every seat of a bus but the driver's; over all buses it
      adds up to the card's total. */
  function SeatsPerBus(e: Event): (n: int)
    ensures e.busCount * n == BookableSeats(e)
  {
    e.capacity - 1
  }

  /** Rounding half up lands within half a point of the exact percentage. */
  lemma RoundedNearExact(a: int, t: int, p: real)
    requires t > 0
    requires p * (t as real) == 100.0 * (a as real)
    ensures (RoundedPercent(a, t) as real) - 0.5 <= p < (RoundedPercent(a, t) as real) + 0.5
  {
    var r := RoundedPercent(a, t);
    var tr, rr := t as real, r as real;
    assert 2.0 * tr * rr - tr <= 200.0 * (a as real) < 2.0 * tr * rr + tr;
    assert 2.0 * tr * p == 2.0 * (p * tr) == 200.0 * (a as real);
    assert 2.0 * tr * (rr - 0.5) == 2.0 * tr * rr - tr;
    assert 2.0 * tr * (rr + 0.5) == 2.0 * tr * rr + tr;
    CancelPositiveReal(2.0 * tr, rr - 0.5, p);
    CancelPositiveRealStrict(2.0 * tr, p, rr + 0.5);
  }

  lemma CancelPositiveReal(k: real, x: real, y: real)
    requires k > 0.0 && k * x <= k * y
    ensures x <= y
  {
    assert k * (y - x) >= 0.0;
  }

  lemma CancelPositiveRealStrict(k: real, x: real, y: real)
    requires k > 0.0 && k * x < k * y
    ensures x < y
  {
    assert k * (y - x) > 0.0;
  }

  /** The card's percentage rounded half up is the rounded figure. */
  lemma CardPercentNearRounded(bookings: seq<Booking>, e: Event)
    requires BookableSeats(e) > 0
    ensures var shown := RoundedPercent(OccupiedCount(bookings, e.id), BookableSeats(e));
            (shown as real) - 0.5 <= CardPercent(bookings, e) < (shown as real) + 0.5
  {
    var a, t, p := OccupiedCount(bookings, e.id), BookableSeats(e), CardPercent(bookings, e);
    assert p * (t as real) == 100.0 * (a as real);
    RoundedNearExact(a, t, p);
  }

  /** The mapping page's rounded figure for an event is the card's exact
      percentage rounded to the nearest point. */
  lemma MappingRoundsCardPercent(bookings: seq<Booking>, e: Event)
    requires BookableSeats(e) > 0
    ensures var shown := OccupancyPercent(|Mapping.OccupiedRows(bookings, IntToString(e.id))|, Mapping.TotalSeats(Some(e)));
            (shown as real) - 0.5 <= CardPercent(bookings, e) < (shown as real) + 0.5
  {
    CardOccupiedIsOccupiedList(bookings, e);
    CardPercentNearRounded(bookings, e);
  }
}
