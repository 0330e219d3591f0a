/** The booking management page (client/src/pages/Gerenciar.jsx): a list of
    bookings narrowed by event and by a free-text search, the flattened list of
    every seat claim handed to the edit dialog, and the delete confirmation. */
module ManageBookings {
  import opened Wrappers
  import opened Seqs
  import opened Text
  import opened Domain
  import BookingFlow

  /** The event selector: "todos" or one event id. */
  datatype EventFilter = AllEvents | OnlyEvent(id: int)

  predicate MatchesEvent(b: Booking, f: EventFilter)
  {
    f.AllEvents? || b.eventId == f.id
  }

  /** An empty search matches everything; otherwise the card number, the
      responsible party's name or some passenger's name must contain the search,
      ignoring case. Empty names are skipped. */
  predicate MatchesSearch(b: Booking, q: string)
  {
    || q == ""
    || IncludesIgnoringCase(b.card, q)
    || (b.responsible.name != "" && IncludesIgnoringCase(b.responsible.name, q))
    || exists i | 0 <= i < |b.passengers| :: b.passengers[i].name != "" && IncludesIgnoringCase(b.passengers[i].name, q)
  }

  function Listed(f: EventFilter, q: string): Booking -> bool
  {
    (b: Booking) => MatchesEvent(b, f) && MatchesSearch(b, q)
  }

  /** `agendamentosFiltrados`. */
  function ListedBookings(bookings: seq<Booking>, f: EventFilter, q: string): (r: seq<Booking>)
    ensures IsSubsequence(r, bookings)
    ensures forall b :: b in r <==> b in bookings && MatchesEvent(b, f) && MatchesSearch(b, q)
  {
    FilterIsSubsequence(bookings, Listed(f, q));
    Filter(bookings, Listed(f, q))
  }

  /** With no event chosen and no search text, every booking is listed. */
  lemma NoFilterListsAll(bookings: seq<Booking>)
    ensures ListedBookings(bookings, AllEvents, "") == bookings
  {
    FilterAll(bookings, Listed(AllEvents, ""));
  }

  /** The search ignores the case of what is typed. */
  lemma SearchIgnoresCase(b: Booking, q: string)
    ensures MatchesSearch(b, Lower(q)) == MatchesSearch(b, q)
  {
    LowerIdempotent(q);
    assert |Lower(q)| == |q|;
  }

  /** Narrowing the event never adds a booking to the list. */
  lemma EventFilterNarrows(bookings: seq<Booking>, id: int, q: string, b: Booking)
    ensures b in ListedBookings(bookings, OnlyEvent(id), q) ==> b in ListedBookings(bookings, AllEvents, q)
  {
  }

  // ---------------------------------------------------------------------------
  // `todosAssentos`

  function TagClaims(b: Booking): (r: seq<TaggedClaim>)
    ensures |r| == |b.claims|
    ensures forall i | 0 <= i < |r| :: r[i] == TaggedClaim(b.claims[i], b.id, b.eventId)
  {
    seq(|b.claims|, i requires 0 <= i < |b.claims| => TaggedClaim(b.claims[i], b.id, b.eventId))
  }

  function TaggedCount(b: Booking): int { |TagClaims(b)| }

  /** Every claim of every booking, in order, each tagged with its booking id and
      event id; a booking without claims contributes nothing. */
  function AllClaims(bookings: seq<Booking>): (r: seq<TaggedClaim>)
    ensures forall t :: t in r <==> exists b :: b in bookings && t in TagClaims(b)
    ensures |r| == SumBy(bookings, ClaimCount)
  {
    FlatMapLength(bookings, TagClaims, ClaimCount);
    FlatMap(bookings, TagClaims)
  }

  /** A tagged claim names a claim of the booking it is tagged with. */
  lemma AllClaimsAreTagged(bookings: seq<Booking>, t: TaggedClaim)
    requires t in AllClaims(bookings)
    ensures exists b :: b in bookings && b.id == t.bookingId && b.eventId == t.eventId && t.claim in b.claims
  {
    var b :| b in bookings && t in TagClaims(b);
    var i :| 0 <= i < |TagClaims(b)| && TagClaims(b)[i] == t;
    assert t.claim == b.claims[i];
  }

  function OfEvent(id: int): TaggedClaim -> bool
  {
    (t: TaggedClaim) => t.eventId == id
  }

  lemma OneBookingOfEvent(b: Booking, id: int)
    ensures Map(Filter(TagClaims(b), OfEvent(id)), Untagged) == if b.eventId == id then b.claims else []
  {
    if b.eventId == id {
      FilterAll(TagClaims(b), OfEvent(id));
    } else {
      FilterNone(TagClaims(b), OfEvent(id));
    }
  }

  lemma OccupiedCons(bookings: seq<Booking>, id: int)
    requires |bookings| > 0
    ensures FlatMap(EventBookings(bookings, id), Claims)
         == (if bookings[0].eventId == id then bookings[0].claims else []) + FlatMap(EventBookings(bookings[1..], id), Claims)
  {
    var rest := EventBookings(bookings[1..], id);
    if bookings[0].eventId == id {
      assert EventBookings(bookings, id) == [bookings[0]] + rest;
      assert ([bookings[0]] + rest)[1..] == rest;
    } else {
      assert EventBookings(bookings, id) == rest;
    }
  }

  /** Keeping the tagged claims of one event and dropping the tags gives the
      occupied list the booking wizard computes for that event. */
  lemma {:induction false} AllClaimsOfEvent(bookings: seq<Booking>, e: Event)
    ensures Map(Filter(AllClaims(bookings), OfEvent(e.id)), Untagged) == BookingFlow.OccupiedClaims(bookings, Some(e))
    decreases |bookings|
  {
    if |bookings| > 0 {
      var b, rest := bookings[0], bookings[1..];
      var p := OfEvent(e.id);
      calc {
        Map(Filter(AllClaims(bookings), p), Untagged);
        Map(Filter(TagClaims(b) + AllClaims(rest), p), Untagged);
        { FilterAppend(TagClaims(b), AllClaims(rest), p); }
        Map(Filter(TagClaims(b), p) + Filter(AllClaims(rest), p), Untagged);
        { MapAppend(Filter(TagClaims(b), p), Filter(AllClaims(rest), p), Untagged); }
        Map(Filter(TagClaims(b), p), Untagged) + Map(Filter(AllClaims(rest), p), Untagged);
        { OneBookingOfEvent(b, e.id); AllClaimsOfEvent(rest, e); }
        (if b.eventId == e.id then b.claims else []) + BookingFlow.OccupiedClaims(rest, Some(e));
        { OccupiedCons(bookings, e.id); }
        BookingFlow.OccupiedClaims(bookings, Some(e));
      }
    }
  }

  // ---------------------------------------------------------------------------
  // Delete confirmation (`confirmarExclusao`)

  /** The id handed to the delete request, if any. The pending id is checked for
      truthiness, so an id of 0 would be skipped. */
  function ConfirmDelete(pending: Option<int>): (r: Option<int>)
    ensures r.Some? <==> pending.Some? && pending.value != 0
    ensures r.Some? ==> r == pending
  {
    if pending.Some? && pending.value != 0 then pending else None
  }
}
