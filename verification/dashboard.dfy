/** The administrative dashboard (client/src/pages/Dashboard.jsx): global
    totals over every event and booking, the status tabs, and the choice
    between creating and updating an event on save. */
module Dashboard {
  import opened Wrappers
  import opened Seqs
  import opened Domain
  import opened EventCard

  // ---------------------------------------------------------------------------
  // Global figures

  /** The header cards: events and how many are open, passengers and bookings,
      passenger seats, the seats held and the rounded occupancy. */
  datatype Figures = Figures(
    eventCount: int,
    openCount: int,
    passengers: int,
    bookingCount: int,
    seats: int,
    occupied: int,
    percent: int)

  function Summary(events: seq<Event>, bookings: seq<Booking>): (f: Figures)
    ensures f.eventCount == |events| && f.bookingCount == |bookings|
    ensures f.openCount == |TabEvents(events, OpenTab)|
    ensures f.seats == SumBy(events, BookableSeats)
    ensures f.occupied == |FlatMap(bookings, Claims)|
    ensures f.passengers == |FlatMap(bookings, (b: Booking) => b.passengers)|
    ensures f.seats <= 0 ==> f.percent == 0
    ensures f.seats > 0 ==> 2 * f.seats * f.percent - f.seats <= 200 * f.occupied < 2 * f.seats * f.percent + f.seats
    ensures f.seats > 0 && f.occupied <= f.seats ==> 0 <= f.percent <= 100
  {
    var seats := SumBy(events, BookableSeats);
    var occupied := SumBy(bookings, ClaimCount);
    FlatMapLength(bookings, Claims, ClaimCount);
    FlatMapLength(bookings, (b: Booking) => b.passengers, PassengerCount);
    Figures(|events|, |Filter(events, HasStatus(Open))|, SumBy(bookings, PassengerCount), |bookings|,
            seats, occupied, OccupancyPercent(occupied, seats))
  }

  /** Creating an event adds its passenger seats to the dashboard total. */
  lemma NewEventAddsItsSeats(events: seq<Event>, e: Event)
    ensures Summary(events + [e], []).seats == Summary(events, []).seats + BookableSeats(e)
  {
    SumByAppend(events, [e], BookableSeats);
  }

  predicate DistinctIds(events: seq<Event>)
  {
    forall i, j | 0 <= i < j < |events| :: events[i].id != events[j].id
  }

  function HasId(id: int): Event -> bool
  {
    (e: Event) => e.id == id
  }

  lemma OccupiedCountCons(bookings: seq<Booking>, id: int)
    requires |bookings| > 0
    ensures OccupiedCount(bookings, id) ==
      (if bookings[0].eventId == id then |bookings[0].claims| else 0) + OccupiedCount(bookings[1..], id)
  {
    var b := bookings[0];
    var head := if b.eventId == id then [b] else [];
    assert EventBookings(bookings, id) == head + EventBookings(bookings[1..], id);
    SumByAppend(head, EventBookings(bookings[1..], id), ClaimCount);
  }

  /** When event ids are distinct and every booking belongs to a listed event,
      the dashboard's occupied total is the sum of the event cards' occupied
      counts. */
  lemma {:induction false} OccupiedSplitsByEvent(events: seq<Event>, bookings: seq<Booking>)
    requires DistinctIds(events)
    requires EventsKnown(events, bookings)
    ensures Summary(events, bookings).occupied == SumBy(events, CardOccupied(bookings))
    decreases |bookings|
  {
    FlatMapLength(bookings, Claims, ClaimCount);
    if |bookings| == 0 {
      SumByZero(events, CardOccupied(bookings));
    } else {
      var b, rest := bookings[0], bookings[1..];
      forall i | 0 <= i < |rest| ensures EventExists(events, rest[i].eventId) {
        assert rest[i] == bookings[i + 1];
      }
      OccupiedSplitsByEvent(events, rest);
      FlatMapLength(rest, Claims, ClaimCount);
      forall e ensures CardOccupied(bookings)(e) == CardOccupied(rest)(e) + (if HasId(b.eventId)(e) then |b.claims| else 0) {
        OccupiedCountCons(bookings, e.id);
      }
      SumByShift(events, CardOccupied(bookings), CardOccupied(rest), HasId(b.eventId), |b.claims|);
      SingleHit(events, HasId(b.eventId));
    }
  }

  // ---------------------------------------------------------------------------
  // Status tabs

  const Open: string := "aberto"
  const Closed: string := "fechado"

  function HasStatus(status: string): Event -> bool
  {
    (e: Event) => e.status == status
  }

  /** "Todos", "Abertos" and "Fechados". */
  datatype Tab = AllTab | OpenTab | ClosedTab

  function TabEvents(events: seq<Event>, tab: Tab): (r: seq<Event>)
    ensures tab == AllTab ==> r == events
    ensures tab == OpenTab ==> forall e :: e in r <==> e in events && e.status == Open
    ensures tab == ClosedTab ==> forall e :: e in r <==> e in events && e.status == Closed
    ensures tab != AllTab ==> IsSubsequence(r, events)
  {
    match tab
    case AllTab => events
    case OpenTab =>
      FilterIsSubsequence(events, HasStatus(Open));
      Filter(events, HasStatus(Open))
    case ClosedTab =>
      FilterIsSubsequence(events, HasStatus(Closed));
      Filter(events, HasStatus(Closed))
  }

  /** An event that is neither open nor closed, a cancelled one for instance. */
  predicate OnlyUnderAll(e: Event)
  {
    e.status != Open && e.status != Closed
  }

  /** The two status tabs and the events shown only under "Todos" split the
      event list: each event is counted exactly once. */
  lemma {:induction false} TabsSplitEvents(events: seq<Event>)
    ensures |TabEvents(events, OpenTab)| + |TabEvents(events, ClosedTab)| + |Filter(events, OnlyUnderAll)| == |events|
    decreases |events|
  {
    if |events| > 0 {
      TabsSplitEvents(events[1..]);
    }
  }

  /** A cancelled event is shown under "Todos" and under neither status tab. */
  lemma CancelledOnlyUnderAll(events: seq<Event>, e: Event)
    requires e in events && e.status == "cancelado"
    ensures e in TabEvents(events, AllTab)
    ensures e !in TabEvents(events, OpenTab) && e !in TabEvents(events, ClosedTab)
  {
  }

  // ---------------------------------------------------------------------------
  // Saving the event form

  /** The request `handleSave` issues. */
  datatype EventSave = UpdateEvent(id: int, data: EventData) | CreateEvent(data: EventData)

  /** An update under the id of the event being edited, if any; otherwise a
      creation. */
  function HandleSave(editing: Option<Event>, data: EventData): (r: EventSave)
    ensures r.data == data
    ensures r.UpdateEvent? <==> editing.Some?
    ensures r.UpdateEvent? ==> r.id == editing.value.id
  {
    match editing
    case Some(e) => UpdateEvent(e.id, data)
    case None => CreateEvent(data)
  }
}
