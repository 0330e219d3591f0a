/** The public booking wizard (client/src/pages/Agendamento.jsx): choose an
    open event, fill in the responsible party and the passengers, pick one seat
    per passenger on the bus maps, then submit the booking. */
module BookingFlow {
  import opened Wrappers
  import opened Seqs
  import opened Domain

  // ---------------------------------------------------------------------------
  // Seat selection (`handleSelectAssento`)

  /** Two claims do not name the same (bus, seat) pair. */
  predicate ApartSpots(a: SeatClaim, b: SeatClaim)
  {
    !(a.bus == b.bus && a.seat == b.seat)
  }

  /** No (bus, seat) pair is selected twice. */
  ghost predicate DistinctSpots(sel: seq<SeatClaim>)
  {
    Pairwise(sel, ApartSpots)
  }

  /** The claim appended when a free pair is picked: no passenger bound yet. */
  function NewClaim(bus: int, seat: int): SeatClaim
  {
    SeatClaim(Some(bus), Some(seat), "", None)
  }

  /** The claims kept when (bus, seat) is unselected. */
  function NotAt(bus: int, seat: int): SeatClaim -> bool
  {
    (c: SeatClaim) => !At(c, bus, seat)
  }

  /** Clicking (bus, seat) with `count` passengers: an already selected pair is
      removed; otherwise the pair is appended while there is room. */
  function ToggleSeat(sel: seq<SeatClaim>, count: int, bus: int, seat: int): (r: seq<SeatClaim>)
    ensures HasSeat(sel, bus, seat) ==>
      !HasSeat(r, bus, seat) && IsSubsequence(r, sel) &&
      forall c :: c in r <==> c in sel && !At(c, bus, seat)
    ensures !HasSeat(sel, bus, seat) && |sel| < count ==> r == sel + [NewClaim(bus, seat)]
    ensures !HasSeat(sel, bus, seat) && |sel| >= count ==> r == sel
    ensures DistinctSpots(sel) ==> DistinctSpots(r)
  {
    if HasSeat(sel, bus, seat) then
      var r := Filter(sel, NotAt(bus, seat));
      FilterIsSubsequence(sel, NotAt(bus, seat));
      assert DistinctSpots(sel) ==> DistinctSpots(r) by {
        if DistinctSpots(sel) {
          FilterPairwise(sel, NotAt(bus, seat), ApartSpots);
        }
      }
      assert !HasSeat(r, bus, seat) by {
        forall i | 0 <= i < |r| ensures !At(r[i], bus, seat) {
          assert r[i] in r;
        }
      }
      r
    else if |sel| < count then
      var r := sel + [NewClaim(bus, seat)];
      assert DistinctSpots(sel) ==> DistinctSpots(r) by {
        if DistinctSpots(sel) {
          forall i, j | 0 <= i < j < |r| ensures ApartSpots(r[i], r[j]) {
            if j == |sel| {
              assert !At(sel[i], bus, seat);
            }
          }
        }
      }
      r
    else
      sel
  }

  /** Without repeated pairs, unselecting removes exactly the one entry holding
      the pair and keeps every other entry in order. */
  lemma {:induction false} UnselectRemovesOne(sel: seq<SeatClaim>, count: int, k: int)
    requires DistinctSpots(sel)
    requires 0 <= k < |sel| && sel[k].bus.Some? && sel[k].seat.Some?
    ensures ToggleSeat(sel, count, sel[k].bus.value, sel[k].seat.value) == sel[..k] + sel[k + 1..]
  {
    var bus, seat := sel[k].bus.value, sel[k].seat.value;
    assert At(sel[k], bus, seat);
    forall i | 0 <= i < |sel| && i != k ensures NotAt(bus, seat)(sel[i]) {
      if i < k {
        assert ApartSpots(sel[i], sel[k]);
      } else {
        assert ApartSpots(sel[k], sel[i]);
      }
    }
    FilterDropsOne(sel, k, NotAt(bus, seat));
  }

  /** Picking a free pair with room to spare and then clicking it again gives
      back the original selection. */
  lemma ToggleTwiceRestores(sel: seq<SeatClaim>, count: int, bus: int, seat: int)
    requires !HasSeat(sel, bus, seat) && |sel| < count
    ensures ToggleSeat(ToggleSeat(sel, count, bus, seat), count, bus, seat) == sel
  {
    var once := sel + [NewClaim(bus, seat)];
    var p := NotAt(bus, seat);
    assert At(once[|sel|], bus, seat);
    FilterAppend(sel, [NewClaim(bus, seat)], p);
    forall i | 0 <= i < |sel| ensures p(sel[i]) {
      assert !At(sel[i], bus, seat);
    }
    FilterAll(sel, p);
    assert Filter([NewClaim(bus, seat)], p) == [];
  }

  // ---------------------------------------------------------------------------
  // Binding seats to passengers (`atribuirAssentos`)

  /** The i-th selected seat gets the i-th passenger's full name, or "" when
      there is no i-th passenger. */
  function AssignSeats(sel: seq<SeatClaim>, ps: seq<Passenger>): (r: seq<SeatClaim>)
    ensures |r| == |sel|
    ensures forall i | 0 <= i < |r| ::
      r[i].bus == sel[i].bus && r[i].seat == sel[i].seat && r[i].doc == sel[i].doc &&
      r[i].passenger == (if i < |ps| then ps[i].name else "")
  {
    seq(|sel|, i requires 0 <= i < |sel| => sel[i].(passenger := if i < |ps| then ps[i].name else ""))
  }

  /** Binding keeps every selected pair and its position. */
  lemma AssignKeepsSpots(sel: seq<SeatClaim>, ps: seq<Passenger>, bus: int, seat: int)
    ensures HasSeat(AssignSeats(sel, ps), bus, seat) <==> HasSeat(sel, bus, seat)
    ensures DistinctSpots(sel) ==> DistinctSpots(AssignSeats(sel, ps))
  {
    var r := AssignSeats(sel, ps);
    if HasSeat(sel, bus, seat) {
      var i :| 0 <= i < |sel| && At(sel[i], bus, seat);
      assert At(r[i], bus, seat);
    }
    if DistinctSpots(sel) {
      forall i, j | 0 <= i < j < |r| ensures ApartSpots(r[i], r[j]) {
        assert ApartSpots(sel[i], sel[j]);
      }
    }
  }

  /** Binding twice is the same as binding once. */
  lemma AssignIdempotent(sel: seq<SeatClaim>, ps: seq<Passenger>)
    ensures AssignSeats(AssignSeats(sel, ps), ps) == AssignSeats(sel, ps)
  {
  }

  // ---------------------------------------------------------------------------
  // Form rules (`invalidoResponsavel`, `invalidosPassageiros`, the no-document toggles)

  predicate InvalidResponsible(r: Responsible)
  {
    r.name == "" || r.phone == "" || (!r.noDoc && r.doc == "")
  }

  predicate InvalidPassenger(p: Passenger)
  {
    p.name == "" || (!p.noDoc && p.doc == "")
  }

  predicate InvalidPassengers(ps: seq<Passenger>)
  {
    exists i | 0 <= i < |ps| :: InvalidPassenger(ps[i])
  }

  /** The "Próximo" button of the personal-data step is enabled. */
  predicate CanLeaveDataStep(r: Responsible, ps: seq<Passenger>)
  {
    !InvalidResponsible(r) && !InvalidPassengers(ps)
  }

  /** The "Próximo" button of the seat step is enabled: one seat per passenger. */
  predicate CanLeaveSeatStep(sel: seq<SeatClaim>, ps: seq<Passenger>)
  {
    |sel| == |ps|
  }

  /** Checking "no document" writes the marker into the document field;
      unchecking clears it. */
  function SetResponsibleNoDoc(r: Responsible, checked: bool): (r': Responsible)
    ensures r'.noDoc == checked
    ensures r'.doc == (if checked then NoDocumentMarker else "")
    ensures r'.name == r.name && r'.phone == r.phone && r'.email == r.email
  {
    r.(noDoc := checked, doc := if checked then NoDocumentMarker else "")
  }

  function SetPassengerNoDoc(ps: seq<Passenger>, i: int, checked: bool): (r: seq<Passenger>)
    requires 0 <= i < |ps|
    ensures |r| == |ps|
    ensures r[i].noDoc == checked && r[i].doc == (if checked then NoDocumentMarker else "")
    ensures r[i].name == ps[i].name && r[i].age == ps[i].age && r[i].relation == ps[i].relation
    ensures forall j | 0 <= j < |ps| && j != i :: r[j] == ps[j]
  {
    ps[i := ps[i].(noDoc := checked, doc := if checked then NoDocumentMarker else "")]
  }

  /** After checking "no document" the document no longer affects validity;
      after unchecking, the responsible party is invalid until one is typed. */
  lemma NoDocToggleValidity(r: Responsible)
    ensures InvalidResponsible(SetResponsibleNoDoc(r, true)) <==> r.name == "" || r.phone == ""
    ensures InvalidResponsible(SetResponsibleNoDoc(r, false))
  {
  }

  /** The passenger list starts with one empty passenger whose relation is "próprio". */
  const InitialPassengers: seq<Passenger> := [Passenger("", "", "", "próprio", false)]

  /** `addPassageiro`: an empty passenger with no relation is appended. */
  function AddPassenger(ps: seq<Passenger>): (r: seq<Passenger>)
    ensures |r| == |ps| + 1 && r[..|ps|] == ps
    ensures InvalidPassenger(r[|ps|]) && r[|ps|].relation == ""
  {
    ps + [Passenger("", "", "", "", false)]
  }

  /** `removePassageiro`: only the passenger list changes; the seat selection
      keeps its entries, so the seat step cannot be left until one is dropped. */
  function RemovePassenger(ps: seq<Passenger>, i: int): (r: seq<Passenger>)
    ensures 0 <= i < |ps| ==> r == ps[..i] + ps[i + 1..]
    ensures !(0 <= i < |ps|) ==> r == ps
  {
    RemoveAt(ps, i)
  }

  lemma RemoveBlocksSeatStep(sel: seq<SeatClaim>, ps: seq<Passenger>, i: int)
    requires CanLeaveSeatStep(sel, ps) && 0 <= i < |ps|
    ensures !CanLeaveSeatStep(sel, RemovePassenger(ps, i))
    ensures !CanLeaveSeatStep(sel, AddPassenger(ps))
  {
  }

  /** Passing both steps with a valid form binds a non-empty passenger name to
      every selected seat. */
  lemma {:induction false} ValidFormNamesEverySeat(r: Responsible, ps: seq<Passenger>, sel: seq<SeatClaim>)
    requires CanLeaveDataStep(r, ps) && CanLeaveSeatStep(sel, ps)
    ensures forall i | 0 <= i < |sel| :: AssignSeats(sel, ps)[i].passenger == ps[i].name != ""
  {
    forall i | 0 <= i < |sel| ensures AssignSeats(sel, ps)[i].passenger == ps[i].name != "" {
      assert !InvalidPassenger(ps[i]);
    }
  }

  // ---------------------------------------------------------------------------
  // Submission (`finalizarAgendamento`)

  /** The document a party is sent with: the marker when "no document" is
      ticked, the typed document otherwise. It is empty exactly when nothing
      was typed and the box is not ticked. */
  function SentDocument(doc: string, noDoc: bool): (d: string)
    ensures noDoc ==> d == NoDocumentMarker
    ensures !noDoc ==> d == doc
    ensures d == "" <==> !noDoc && doc == ""
  {
    if noDoc then NoDocumentMarker else doc
  }

  function ResponsiblePayload(r: Responsible): (p: Responsible)
    ensures p.doc == SentDocument(r.doc, r.noDoc)
    ensures p.(doc := r.doc) == r
  {
    r.(doc := SentDocument(r.doc, r.noDoc))
  }

  function PassengerPayload(p: Passenger): Passenger
  {
    p.(doc := SentDocument(p.doc, p.noDoc))
  }

  /** Every passenger flagged with no document gets the marker; everyone else
      keeps their document; order and count are unchanged. */
  function PassengersPayload(ps: seq<Passenger>): (r: seq<Passenger>)
    ensures |r| == |ps|
    ensures forall i | 0 <= i < |ps| :: r[i].doc == SentDocument(ps[i].doc, ps[i].noDoc) && r[i].(doc := ps[i].doc) == ps[i]
  {
    Map(ps, PassengerPayload)
  }

  /** The booking sent to the server; the card number is derived from the clock
      and is an input here. */
  function BookingPayload(e: Event, card: string, trip: string, r: Responsible, ps: seq<Passenger>,
                          sel: seq<SeatClaim>, notes: string): (b: BookingRequest)
    ensures b.eventId == e.id && b.card == card && b.trip == trip && b.notes == notes
    ensures b.status == "confirmado" && b.claims == sel
    ensures b.responsible == ResponsiblePayload(r) && b.passengers == PassengersPayload(ps)
  {
    BookingRequest(e.id, card, trip, ResponsiblePayload(r), PassengersPayload(ps), sel, "confirmado", notes)
  }

  /** A form that passed validation sends a non-empty document for every party. */
  lemma {:induction false} ValidPayloadHasDocuments(r: Responsible, ps: seq<Passenger>)
    requires CanLeaveDataStep(r, ps)
    ensures ResponsiblePayload(r).doc != ""
    ensures forall i | 0 <= i < |ps| :: PassengersPayload(ps)[i].doc != ""
  {
    forall i | 0 <= i < |ps| ensures PassengersPayload(ps)[i].doc != "" {
      assert !InvalidPassenger(ps[i]);
    }
  }

  /** Preparing the payload never changes whether the form is valid. */
  lemma {:induction false} PayloadKeepsValidity(r: Responsible, ps: seq<Passenger>)
    ensures InvalidResponsible(ResponsiblePayload(r)) == InvalidResponsible(r)
    ensures InvalidPassengers(PassengersPayload(ps)) == InvalidPassengers(ps)
  {
    var qs := PassengersPayload(ps);
    if InvalidPassengers(ps) {
      var i :| 0 <= i < |ps| && InvalidPassenger(ps[i]);
      assert InvalidPassenger(qs[i]);
    }
    if InvalidPassengers(qs) {
      var i :| 0 <= i < |qs| && InvalidPassenger(qs[i]);
      assert InvalidPassenger(ps[i]);
    }
  }

  /** A document typed in by the no-document toggle is kept as is. */
  lemma PayloadOfToggledForm(r: Responsible)
    ensures ResponsiblePayload(SetResponsibleNoDoc(r, true)) == SetResponsibleNoDoc(r, true)
  {
  }

  // ---------------------------------------------------------------------------
  // Occupancy (`assentosOcupados`, available seats per event)

  /** The claims of every booking of the selected event, in booking order;
      nothing when no event is selected. */
  function OccupiedClaims(bookings: seq<Booking>, selected: Option<Event>): (r: seq<SeatClaim>)
    ensures selected.None? ==> r == []
    ensures selected.Some? ==>
      forall c :: c in r <==> exists b :: b in bookings && b.eventId == selected.value.id && c in b.claims
    ensures selected.Some? ==> |r| == OccupiedCount(bookings, selected.value.id)
  {
    match selected
    case None => []
    case Some(e) =>
      FlatMapLength(EventBookings(bookings, e.id), Claims, ClaimCount);
      FlatMap(EventBookings(bookings, e.id), Claims)
  }

  /** A booking added after the others puts its claims, when it is for the
      selected event, after every claim already occupied: the list follows
      booking order. */
  lemma OccupiedClaimsAppend(bookings: seq<Booking>, b: Booking, e: Event)
    ensures OccupiedClaims(bookings + [b], Some(e)) == OccupiedClaims(bookings, Some(e)) + (if b.eventId == e.id then b.claims else [])
  {
    FilterAppend(bookings, [b], AtEvent(e.id));
    FlatMapAppend(EventBookings(bookings, e.id), EventBookings([b], e.id), Claims);
    assert FlatMap([b], Claims) == b.claims by {
      assert [b][1..] == [];
    }
  }

  /** The free-seat figure shown next to an event: every passenger seat of every
      bus minus the number of claims already booked for it. */
  function AvailableSeats(e: Event, bookings: seq<Booking>): (r: int)
    ensures r == BookableSeats(e) - |OccupiedClaims(bookings, Some(e))|
  {
    BookableSeats(e) - OccupiedCount(bookings, e.id)
  }

  /** Adding a booking for the event lowers its free-seat figure by exactly that
      booking's claim count; a booking for another event changes nothing. */
  lemma {:induction false} AvailableAfterBooking(e: Event, bookings: seq<Booking>, b: Booking)
    ensures AvailableSeats(e, bookings + [b]) ==
      AvailableSeats(e, bookings) - (if b.eventId == e.id then |b.claims| else 0)
  {
    var p := (x: Booking) => x.eventId == e.id;
    FilterAppend(bookings, [b], p);
    SumByAppend(EventBookings(bookings, e.id), Filter([b], p), ClaimCount);
    assert Filter([b], p) == if b.eventId == e.id then [b] else [];
    assert SumBy([b], ClaimCount) == |b.claims|;
  }
}
