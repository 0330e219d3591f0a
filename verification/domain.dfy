/** The records the client and the server exchange: events, bookings with their
    passengers and seat claims, and user accounts. Seats are numbered
    1..capacity on every bus and seat 1 is the driver's. */
module Domain {
  import opened Wrappers
  import opened Seqs

  /** One seat claim of a booking (`{onibus, assento, passageiro}`). The server
      stores claims verbatim, so the bus and the seat number may be missing, and a
      claim may carry its own `documento`. */
  datatype SeatClaim = SeatClaim(bus: Option<int>, seat: Option<int>, passenger: string, doc: Option<string>)

  /** `a.onibus === bus && a.assento === seat`. */
  predicate At(c: SeatClaim, bus: int, seat: int)
  {
    c.bus == Some(bus) && c.seat == Some(seat)
  }

  /** `claims.some(a => a.onibus === bus && a.assento === seat)`. */
  predicate HasSeat(claims: seq<SeatClaim>, bus: int, seat: int)
  {
    exists i | 0 <= i < |claims| :: At(claims[i], bus, seat)
  }

  /** A claim flattened out of its booking, tagged with the booking id and the
      booking's event id (`{...assento, agendamento_id, evento_id}`). */
  datatype TaggedClaim = TaggedClaim(claim: SeatClaim, bookingId: int, eventId: int)

  /** The claim with its tags dropped. */
  function Untagged(t: TaggedClaim): SeatClaim { t.claim }

  datatype Passenger = Passenger(name: string, doc: string, age: string, relation: string, noDoc: bool)

  /** The responsible party of a booking. */
  datatype Responsible = Responsible(name: string, doc: string, phone: string, email: string, noDoc: bool)

  datatype Booking = Booking(
    id: int,
    eventId: int,
    card: string,
    trip: string,
    responsible: Responsible,
    passengers: seq<Passenger>,
    claims: seq<SeatClaim>,
    status: string,
    notes: string)

  /** The body of a booking creation request (POST of a new booking). */
  datatype BookingRequest = BookingRequest(
    eventId: int,
    card: string,
    trip: string,
    responsible: Responsible,
    passengers: seq<Passenger>,
    claims: seq<SeatClaim>,
    status: string,
    notes: string)

  /** The descriptive columns of an event, which no computation here inspects. */
  datatype EventInfo = EventInfo(
    name: string,
    kind: string,
    startDate: string,
    endDate: string,
    departure: string,
    place: string,
    address: string,
    description: string)

  datatype Event = Event(id: int, info: EventInfo, status: string, busCount: int, capacity: int)

  /** The columns of an event sent to create or update it. */
  datatype EventData = EventData(info: EventInfo, status: string, busCount: int, capacity: int)

  function EventWithId(id: int, d: EventData): (e: Event)
    ensures e.id == id && e.info == d.info && e.status == d.status
    ensures e.busCount == d.busCount && e.capacity == d.capacity
  {
    Event(id, d.info, d.status, d.busCount, d.capacity)
  }

  datatype User = User(
    id: int,
    fullName: string,
    email: string,
    password: string,
    role: string,
    designations: seq<string>,
    provider: string,
    providerId: Option<string>)

  /** The signed-in user as the client sees it (`currentUser`); the designation
      list may be missing. */
  datatype Account = Account(id: int, fullName: string, email: string, role: string, designations: Option<seq<string>>)

  predicate IsAdmin(a: Account) { a.role == "admin" }

  /** `currentUser.designacoes || []`. */
  function DesignationsOf(a: Account): seq<string> { a.designations.GetOr([]) }

  /** The document value the booking flow writes for a party without a document. */
  const NoDocumentMarker: string := "NAO INFORMADO"

  const GestorEventos: string := "gestor_eventos"
  const VisualizadorEventos: string := "visualizador_eventos"
  const OperadorMapeamento: string := "operador_mapeamento"

  /** Some listed event has id `id`. */
  predicate EventExists(events: seq<Event>, id: int)
  {
    exists j | 0 <= j < |events| :: events[j].id == id
  }

  /** Every booking belongs to a listed event (the foreign key from
      `agendamentos.evento_id` to `eventos.id`). */
  ghost predicate EventsKnown(events: seq<Event>, bookings: seq<Booking>)
  {
    forall i | 0 <= i < |bookings| :: EventExists(events, bookings[i].eventId)
  }

  /** `quantidade_onibus * (capacidade_por_onibus - 1)`: every seat but the driver's. */
  function BookableSeats(e: Event): (r: int)
    ensures e.busCount >= 0 && e.capacity >= 1 ==> r >= 0
    ensures e.busCount == 0 || e.capacity == 1 ==> r == 0
    ensures e.busCount >= 1 && e.capacity >= 2 ==> r >= e.busCount && r >= e.capacity - 1
  {
    e.busCount * (e.capacity - 1)
  }

  function Claims(b: Booking): seq<SeatClaim> { b.claims }
  function ClaimCount(b: Booking): int { |b.claims| }
  function PassengerCount(b: Booking): int { |b.passengers| }

  function AtEvent(id: int): Booking -> bool
  {
    (b: Booking) => b.eventId == id
  }

  /** `bookings.filter(a => a.evento_id === id)`. */
  function EventBookings(bookings: seq<Booking>, id: int): (r: seq<Booking>)
    ensures forall b :: b in r <==> b in bookings && b.eventId == id
  {
    Filter(bookings, AtEvent(id))
  }

  /** The number of seat claims held by the bookings of event `id`. */
  function OccupiedCount(bookings: seq<Booking>, id: int): (r: int)
    ensures r == |FlatMap(EventBookings(bookings, id), Claims)|
    ensures r >= 0
  {
    FlatMapLength(EventBookings(bookings, id), Claims, ClaimCount);
    SumBy(EventBookings(bookings, id), ClaimCount)
  }

  /** The occupancy percentage `Math.round((a / t) * 100)` for `t > 0`, taken on
      the exact ratio in integer arithmetic, halves up; the page's double can
      fall just below a half (207 of 360 gives 57.49999999999999 and shows 57). */
  function RoundedPercent(a: int, t: int): (r: int)
    requires t > 0
    ensures 2 * t * r - t <= 200 * a < 2 * t * r + t
    ensures a >= 0 ==> r >= 0
    ensures 0 <= a <= t ==> r <= 100
  {
    var q := (200 * a + t) / (2 * t);
    RoundingBounds(200 * a + t, 2 * t, q);
    CancelPositive(t, 2 * q, 201);
    q
  }

  /** The rounded occupancy percentage the mapping page and the dashboard show;
      0 unless the total is positive. */
  function OccupancyPercent(occupied: int, total: int): (r: int)
    ensures total <= 0 ==> r == 0
    ensures total > 0 ==> 2 * total * r - total <= 200 * occupied < 2 * total * r + total
    ensures total > 0 && 0 <= occupied <= total ==> 0 <= r <= 100
  {
    if total > 0 then RoundedPercent(occupied, total) else 0
  }

  lemma RoundingBounds(n: int, d: int, q: int)
    requires d > 0 && q == n / d
    ensures d * q <= n < d * q + d
    ensures n >= 0 ==> q >= 0
  {
  }

  /** A positive factor can be cancelled from an inequality. */
  lemma CancelPositive(t: int, x: int, y: int)
    requires t > 0
    ensures t * x <= t * y ==> x <= y
  {
    assert t * y - t * x == t * (y - x);
  }
}
