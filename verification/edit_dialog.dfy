/** The booking edit dialog of the management page
    (client/src/components/gerenciar/EditarAgendamentoDialog.jsx). The dialog
    keeps a working copy of the booking; every control edits one field of it,
    and saving submits the copy under the original booking's id. */
module EditDialog {
  import opened Wrappers
  import opened Seqs
  import opened Text
  import opened Domain
  import Server

  // ---------------------------------------------------------------------------
  // Field-local edits

  datatype PassengerField = PassengerName | PassengerDoc | PassengerAge | PassengerRelation

  function PassengerFieldOf(p: Passenger, f: PassengerField): string
  {
    match f
    case PassengerName => p.name
    case PassengerDoc => p.doc
    case PassengerAge => p.age
    case PassengerRelation => p.relation
  }

  function SetPassengerField(p: Passenger, f: PassengerField, v: string): Passenger
  {
    match f
    case PassengerName => p.(name := v)
    case PassengerDoc => p.(doc := v)
    case PassengerAge => p.(age := v)
    case PassengerRelation => p.(relation := v)
  }

  /** `updatePassageiro(i, f, v)`: only field `f` of passenger `i` changes. */
  function UpdatePassenger(d: Booking, i: int, f: PassengerField, v: string): (r: Booking)
    requires 0 <= i < |d.passengers|
    ensures |r.passengers| == |d.passengers|
    ensures PassengerFieldOf(r.passengers[i], f) == v
    ensures forall g | g != f :: PassengerFieldOf(r.passengers[i], g) == PassengerFieldOf(d.passengers[i], g)
    ensures r.passengers[i].noDoc == d.passengers[i].noDoc
    ensures forall j | 0 <= j < |d.passengers| && j != i :: r.passengers[j] == d.passengers[j]
    ensures r.(passengers := d.passengers) == d
  {
    d.(passengers := d.passengers[i := SetPassengerField(d.passengers[i], f, v)])
  }

  datatype ResponsibleField = ResponsibleName | ResponsibleDoc | ResponsiblePhone | ResponsibleEmail

  function ResponsibleFieldOf(r: Responsible, f: ResponsibleField): string
  {
    match f
    case ResponsibleName => r.name
    case ResponsibleDoc => r.doc
    case ResponsiblePhone => r.phone
    case ResponsibleEmail => r.email
  }

  /** The responsible-party inputs: only the edited field changes. */
  function UpdateResponsible(d: Booking, f: ResponsibleField, v: string): (r: Booking)
    ensures ResponsibleFieldOf(r.responsible, f) == v
    ensures forall g | g != f :: ResponsibleFieldOf(r.responsible, g) == ResponsibleFieldOf(d.responsible, g)
    ensures r.responsible.noDoc == d.responsible.noDoc
    ensures r.(responsible := d.responsible) == d
  {
    var p := d.responsible;
    d.(responsible := match f
      case ResponsibleName => p.(name := v)
      case ResponsibleDoc => p.(doc := v)
      case ResponsiblePhone => p.(phone := v)
      case ResponsibleEmail => p.(email := v))
  }

  /** The three trip-type buttons. */
  function SetTrip(d: Booking, trip: string): (r: Booking)
    ensures r.trip == trip && r.(trip := d.trip) == d
  {
    d.(trip := trip)
  }

  /** Editing a field and then restoring its old value gives back the booking. */
  lemma UpdatePassengerUndo(d: Booking, i: int, f: PassengerField, v: string)
    requires 0 <= i < |d.passengers|
    ensures UpdatePassenger(UpdatePassenger(d, i, f, v), i, f, PassengerFieldOf(d.passengers[i], f)) == d
  {
    var r := UpdatePassenger(UpdatePassenger(d, i, f, v), i, f, PassengerFieldOf(d.passengers[i], f));
    assert r.passengers[i] == d.passengers[i] by {
      match f
      case PassengerName =>
      case PassengerDoc =>
      case PassengerAge =>
      case PassengerRelation =>
    }
    assert r.passengers == d.passengers;
  }

  /** `addPassageiro`: an empty passenger is appended and no seat claim is added. */
  function AddPassenger(d: Booking): (r: Booking)
    ensures |r.passengers| == |d.passengers| + 1 && r.passengers[..|d.passengers|] == d.passengers
    ensures r.passengers[|d.passengers|] == Passenger("", "", "", "", false)
    ensures r.(passengers := d.passengers) == d
  {
    d.(passengers := d.passengers + [Passenger("", "", "", "", false)])
  }

  /** After an add, a booking with one claim per passenger no longer has one. */
  lemma AddBreaksAlignment(d: Booking)
    requires |d.passengers| == |d.claims|
    ensures |AddPassenger(d).passengers| != |AddPassenger(d).claims|
  {
  }

  /** `removePassageiro(i)`: index `i` leaves both the passenger list and the
      claim list. */
  function RemovePassenger(d: Booking, i: int): (r: Booking)
    ensures r.passengers == RemoveAt(d.passengers, i) && r.claims == RemoveAt(d.claims, i)
    ensures r.(passengers := d.passengers, claims := d.claims) == d
  {
    d.(passengers := RemoveAt(d.passengers, i), claims := RemoveAt(d.claims, i))
  }

  /** Removing keeps every surviving passenger paired with the claim it had:
      position j of the result holds what position j, or j + 1 past the removed
      index, held before. */
  lemma RemoveKeepsPairs(d: Booking, i: int)
    requires |d.passengers| == |d.claims| && 0 <= i < |d.passengers|
    ensures |RemovePassenger(d, i).passengers| == |RemovePassenger(d, i).claims| == |d.passengers| - 1
    ensures forall j | 0 <= j < |d.passengers| - 1 ::
      var k := if j < i then j else j + 1;
      RemovePassenger(d, i).passengers[j] == d.passengers[k] && RemovePassenger(d, i).claims[j] == d.claims[k]
  {
  }

  datatype ClaimField = ClaimBus | ClaimSeat

  /** `updateAssento(i, f, v)`: field `f` of claim `i` becomes `parseInt(v)`. */
  function UpdateClaim(d: Booking, i: int, f: ClaimField, v: string): (r: Booking)
    requires 0 <= i < |d.claims|
    ensures |r.claims| == |d.claims|
    ensures f == ClaimBus ==> r.claims[i] == d.claims[i].(bus := ParseInt(v))
    ensures f == ClaimSeat ==> r.claims[i] == d.claims[i].(seat := ParseInt(v))
    ensures forall j | 0 <= j < |d.claims| && j != i :: r.claims[j] == d.claims[j]
    ensures r.(claims := d.claims) == d
  {
    var c := d.claims[i];
    d.(claims := d.claims[i := if f == ClaimBus then c.(bus := ParseInt(v)) else c.(seat := ParseInt(v))])
  }

  /** The selects offer `String(k)` for a bus or seat number `k`; picking one
      stores exactly `k`. */
  lemma PickedOptionIsStored(d: Booking, i: int, f: ClaimField, k: nat)
    requires 0 <= i < |d.claims|
    ensures f == ClaimBus ==> UpdateClaim(d, i, f, NatToString(k)).claims[i].bus == Some(k)
    ensures f == ClaimSeat ==> UpdateClaim(d, i, f, NatToString(k)).claims[i].seat == Some(k)
  {
    ParseIntOfNatToString(k);
  }

  // ---------------------------------------------------------------------------
  // The free-seat list (`assentosDisponiveis`)

  /** Some claim of a different booking holds seat `n` on bus `bus`; the
      claim's event plays no part. */
  ghost predicate HeldElsewhere(all: seq<TaggedClaim>, bookingId: int, bus: Option<int>, n: int)
  {
    exists t | t in all :: t.bookingId != bookingId && t.claim.bus == bus && t.claim.seat == Some(n)
  }

  /** The seats held on bus `bus` by claims of bookings other than `bookingId`. */
  function HeldSeats(all: seq<TaggedClaim>, bookingId: int, bus: Option<int>): (r: seq<Option<int>>)
    ensures forall n :: Some(n) in r <==> HeldElsewhere(all, bookingId, bus, n)
    decreases |all|
  {
    if |all| == 0 then []
    else
      var rest := HeldSeats(all[1..], bookingId, bus);
      var t := all[0];
      assert forall x :: x in all <==> x == t || x in all[1..];
      if t.bookingId != bookingId && t.claim.bus == bus then [t.claim.seat] + rest else rest
  }

  predicate NotDriverSeat(n: int) { n != 1 }

  function KeepFree(current: Option<int>, held: seq<Option<int>>): int -> bool
  {
    (n: int) => Some(n) == current || Some(n) !in held
  }

  /** The seats offered for a claim of booking `bookingId` on bus `bus` whose
      current seat is `current`, on buses of capacity `cap`. */
  function FreeSeats(all: seq<TaggedClaim>, bookingId: int, bus: Option<int>, current: Option<int>, cap: int): (r: seq<int>)
    ensures forall n :: n in r <==> 2 <= n <= cap && (current == Some(n) || !HeldElsewhere(all, bookingId, bus, n))
    ensures StrictlyAscending(r)
    ensures 1 !in r
  {
    var candidates := Filter(Range(1, cap + 1), NotDriverSeat);
    FilterPairwise(Range(1, cap + 1), NotDriverSeat, Below);
    var held := HeldSeats(all, bookingId, bus);
    FilterPairwise(candidates, KeepFree(current, held), Below);
    Filter(candidates, KeepFree(current, held))
  }

  /** The current seat is always offered when it is a passenger seat of the bus. */
  lemma CurrentSeatOffered(all: seq<TaggedClaim>, bookingId: int, bus: Option<int>, n: int, cap: int)
    requires 2 <= n <= cap
    ensures n in FreeSeats(all, bookingId, bus, Some(n), cap)
  {
  }

  /** Re-labelling claims with other events changes nothing: the list depends
      only on booking ids, bus numbers and seats. */
  function Retag(all: seq<TaggedClaim>, events: seq<int>): (r: seq<TaggedClaim>)
    requires |events| == |all|
    ensures |r| == |all|
    ensures forall i | 0 <= i < |all| :: r[i].claim == all[i].claim && r[i].bookingId == all[i].bookingId && r[i].eventId == events[i]
  {
    seq(|all|, i requires 0 <= i < |all| => all[i].(eventId := events[i]))
  }

  lemma {:induction false} HeldSeatsIgnoreEvent(all: seq<TaggedClaim>, events: seq<int>, bookingId: int, bus: Option<int>)
    requires |events| == |all|
    ensures HeldSeats(Retag(all, events), bookingId, bus) == HeldSeats(all, bookingId, bus)
    decreases |all|
  {
    if |all| > 0 {
      assert Retag(all, events)[1..] == Retag(all[1..], events[1..]);
      HeldSeatsIgnoreEvent(all[1..], events[1..], bookingId, bus);
    }
  }

  lemma FreeSeatsIgnoreEvent(all: seq<TaggedClaim>, events: seq<int>, bookingId: int, bus: Option<int>, current: Option<int>, cap: int)
    requires |events| == |all|
    ensures FreeSeats(Retag(all, events), bookingId, bus, current, cap) == FreeSeats(all, bookingId, bus, current, cap)
  {
    HeldSeatsIgnoreEvent(all, events, bookingId, bus);
  }

  /** In particular a claim of another event on the same bus number and seat
      hides the seat, unless it is the current one. */
  lemma OtherEventBlocks(all: seq<TaggedClaim>, bookingId: int, eventId: int, t: TaggedClaim, current: Option<int>, cap: int)
    requires t in all && t.eventId != eventId && t.bookingId != bookingId
    requires t.claim.seat.Some? && current != t.claim.seat
    ensures t.claim.seat.value !in FreeSeats(all, bookingId, t.claim.bus, current, cap)
  {
    assert HeldElsewhere(all, bookingId, t.claim.bus, t.claim.seat.value);
  }

  // ---------------------------------------------------------------------------
  // Saving (`handleSave`)

  /** The update the dialog submits: the working copy under the original id. */
  datatype SaveRequest = SaveRequest(id: int, data: Booking)

  function HandleSave(original: Booking, working: Booking): (r: SaveRequest)
    ensures r.id == original.id && r.data == working
  {
    SaveRequest(original.id, working)
  }

  /** The columns the server's booking update reads from the body sent. */
  function ChangesOf(data: Booking): (c: Server.BookingChanges)
    ensures c.trip == data.trip && c.responsible == data.responsible && c.passengers == data.passengers
    ensures c.claims == data.claims && c.status == data.status && c.notes == data.notes
  {
    Server.BookingChanges(data.trip, data.responsible, data.passengers, data.claims, data.status, data.notes)
  }

  /** Saving the dialog stores the working copy in the edited row: the server
      keeps that row's event and card number, which the dialog never edits, and
      rewrites every other column from the copy. Other rows are unchanged. */
  lemma SaveStoresWorkingCopy(s: Server.Store, original: Booking, working: Booking, i: int)
    requires 0 <= i < |s.bookings| && s.bookings[i].id == original.id
    requires working.id == original.id && working.eventId == s.bookings[i].eventId && working.card == s.bookings[i].card
    ensures var r := HandleSave(original, working);
      Server.UpdateBooking(s, r.id, ChangesOf(r.data)).bookings[i] == working
    ensures var r := HandleSave(original, working);
      forall j | 0 <= j < |s.bookings| && s.bookings[j].id != original.id ::
        Server.UpdateBooking(s, r.id, ChangesOf(r.data)).bookings[j] == s.bookings[j]
  {
  }
}
