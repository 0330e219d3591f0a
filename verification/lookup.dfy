/** The public booking lookup (client/src/pages/Consulta.jsx): the first booking
    matching a card number, a name or a document, and the boarding pass shown
    for it when its event is known. */
module Lookup {
  import opened Wrappers
  import opened Seqs
  import opened Text
  import opened Domain
  import ManageBookings

  /** The search type buttons; any other value of the state finds nothing. */
  datatype SearchMode = ByCard | ByName | ByDocument | OtherMode

  /** The card number equals the term, ignoring case. */
  predicate CardMatches(b: Booking, term: string)
  {
    Lower(b.card) == Lower(term)
  }

  /** The responsible party's name or some passenger's name contains the term,
      ignoring case; empty names are not skipped. */
  predicate NameMatches(b: Booking, term: string)
  {
    || IncludesIgnoringCase(b.responsible.name, term)
    || exists i | 0 <= i < |b.passengers| :: IncludesIgnoringCase(b.passengers[i].name, term)
  }

  /** The responsible party's or some passenger's document is exactly the term. */
  predicate DocumentMatches(b: Booking, term: string)
  {
    || b.responsible.doc == term
    || exists i | 0 <= i < |b.passengers| :: b.passengers[i].doc == term
  }

  predicate Matches(b: Booking, mode: SearchMode, term: string)
  {
    match mode
    case ByCard => CardMatches(b, term)
    case ByName => NameMatches(b, term)
    case ByDocument => DocumentMatches(b, term)
    case OtherMode => false
  }

  function MatchesFor(mode: SearchMode, term: string): Booking -> bool
  {
    (b: Booking) => Matches(b, mode, term)
  }

  /** `buscar`: the earliest booking in list order that matches, or nothing. */
  function Search(bookings: seq<Booking>, mode: SearchMode, term: string): (r: Option<Booking>)
    ensures r.None? <==> forall k | 0 <= k < |bookings| :: !Matches(bookings[k], mode, term)
    ensures r.Some? ==> exists k | 0 <= k < |bookings| :: bookings[k] == r.value && Matches(bookings[k], mode, term) &&
                          forall j | 0 <= j < k :: !Matches(bookings[j], mode, term)
  {
    Find(bookings, MatchesFor(mode, term))
  }

  /** An unknown search type never finds anything. */
  lemma OtherModeFindsNothing(bookings: seq<Booking>, term: string)
    ensures Search(bookings, OtherMode, term) == None
  {
  }

  /** The card and name searches ignore the case of the term. */
  lemma SearchIgnoresCase(bookings: seq<Booking>, mode: SearchMode, term: string)
    requires mode == ByCard || mode == ByName
    ensures Search(bookings, mode, Lower(term)) == Search(bookings, mode, term)
  {
    LowerIdempotent(term);
    forall b ensures MatchesFor(mode, Lower(term))(b) == MatchesFor(mode, term)(b) {
    }
    FindCongruent(bookings, MatchesFor(mode, Lower(term)), MatchesFor(mode, term));
  }

  /** A booking found by its card number is also listed by the management
      page's search for the same text. */
  lemma CardHitIsListed(bookings: seq<Booking>, term: string)
    requires Search(bookings, ByCard, term).Some?
    ensures ManageBookings.MatchesSearch(Search(bookings, ByCard, term).value, term)
  {
    var b := Search(bookings, ByCard, term).value;
    ContainsItself(Lower(term));
  }

  /** The Enter key starts a search even with an empty term, and an empty
      name search then returns the first booking. */
  lemma EmptyNameSearchFindsFirst(bookings: seq<Booking>)
    requires |bookings| > 0
    ensures Search(bookings, ByName, "") == Some(bookings[0])
  {
    ContainsEmpty(Lower(bookings[0].responsible.name));
    assert Lower("") == "";
  }

  // ---------------------------------------------------------------------------
  // What the page shows

  /** The boarding pass, the "not found" notice, or nothing. */
  datatype Display = BoardingPass(booking: Booking, event: Event) | NotFound | Blank

  function EventOf(events: seq<Event>, b: Booking): (r: Option<Event>)
    ensures r.Some? ==> r.value in events && r.value.id == b.eventId
    ensures r.None? <==> forall k | 0 <= k < |events| :: events[k].id != b.eventId
  {
    Find(events, (e: Event) => e.id == b.eventId)
  }

  /** The pass is shown only for a result whose event is listed; the notice
      whenever a term is typed, no search is running and no result is held,
      which includes the moment before any search has run. */
  function Show(result: Option<Booking>, events: seq<Event>, term: string, searching: bool): (d: Display)
    ensures d.BoardingPass? <==> result.Some? && EventOf(events, result.value).Some?
    ensures d.BoardingPass? ==> d.booking == result.value && d.event in events && d.event.id == d.booking.eventId
    ensures d.NotFound? <==> result.None? && term != "" && !searching
  {
    var event := if result.Some? then EventOf(events, result.value) else None;
    if result.Some? && event.Some? then BoardingPass(result.value, event.value)
    else if term != "" && !searching && result.None? then NotFound
    else Blank
  }

  /** A booking whose event is not listed shows neither the pass nor the
      notice. */
  lemma OrphanShowsNothing(b: Booking, events: seq<Event>, term: string, searching: bool)
    requires forall k | 0 <= k < |events| :: events[k].id != b.eventId
    ensures Show(Some(b), events, term, searching) == Blank
  {
  }

  /** The search button is disabled for an empty term or while searching; the
      Enter key does not check this. */
  function SearchButtonEnabled(term: string, searching: bool): (r: bool)
    ensures term == "" || searching ==> !r
    ensures r ==> |term| > 0
  {
    term != "" && !searching
  }

  /** The "not found" notice appears exactly when nothing is held and the
      search button would be enabled. */
  lemma NoticeIffButtonEnabled(result: Option<Booking>, events: seq<Event>, term: string, searching: bool)
    ensures Show(result, events, term, searching) == NotFound <==> result.None? && SearchButtonEnabled(term, searching)
  {
  }

  /** The button is disabled for an empty term, yet the Enter key searches
      with it, and an empty name search then returns the first booking. */
  lemma EnterBypassesButton(bookings: seq<Booking>, searching: bool)
    requires |bookings| > 0
    ensures !SearchButtonEnabled("", searching)
    ensures Search(bookings, ByName, "") == Some(bookings[0])
  {
    EmptyNameSearchFindsFirst(bookings);
  }
}
