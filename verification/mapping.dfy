/** The seat-mapping page (client/src/pages/Mapeamento.jsx): for the chosen
    event it joins every seat claim with its booking, shows the occupancy
    figures, and lists the passengers grouped by bus and ordered by seat. */
module Mapping {
  import opened Wrappers
  import opened Seqs
  import opened Text
  import opened Domain
  import opened Sorting
  import BookingFlow

  // ---------------------------------------------------------------------------
  // Document masks (`formatDocumento`)

  const NotInformedLabel: string := "Não informado"

  /** A CPF written as ddd.ddd.ddd-dd. */
  function CpfMask(d: string): (r: string)
    requires |d| == 11
    ensures |r| == 14 && r[3] == '.' && r[7] == '.' && r[11] == '-'
  {
    d[..3] + "." + d[3..6] + "." + d[6..9] + "-" + d[9..]
  }

  /** A CNPJ written as dd.ddd.ddd/dddd-dd. */
  function CnpjMask(d: string): (r: string)
    requires |d| == 14
    ensures |r| == 18 && r[2] == '.' && r[6] == '.' && r[10] == '/' && r[15] == '-'
  {
    d[..2] + "." + d[2..5] + "." + d[5..8] + "/" + d[8..12] + "-" + d[12..]
  }

  /** Nothing for an empty document; an 11-digit one as a CPF and a 14-digit one
      as a CNPJ, counting only its digits; anything else as it is. */
  function FormatDocument(doc: string): (r: string)
    ensures doc == "" ==> r == NotInformedLabel
    ensures doc != "" && |Digits(doc)| == 11 ==> |r| == 14 && Digits(r) == Digits(doc)
    ensures doc != "" && |Digits(doc)| == 14 ==> |r| == 18 && Digits(r) == Digits(doc)
    ensures doc != "" && |Digits(doc)| != 11 && |Digits(doc)| != 14 ==> r == doc
  {
    if doc == "" then NotInformedLabel
    else
      var d := Digits(doc);
      if |d| == 11 then
        DigitsOfCpfMask(d);
        CpfMask(d)
      else if |d| == 14 then
        DigitsOfCnpjMask(d);
        CnpjMask(d)
      else doc
  }

  /** A separator that is not a digit disappears when digits are extracted. */
  lemma DigitsAround(a: string, c: char, b: string)
    requires !IsDigit(c)
    ensures Digits(a + [c] + b) == Digits(a) + Digits(b)
  {
    DigitsAppend(a + [c], b);
    DigitsAppend(a, [c]);
  }

  lemma DigitsOfCpfMask(d: string)
    requires |d| == 11 && AllDigits(d)
    ensures Digits(CpfMask(d)) == d
  {
    var a, b, c, e := d[..3], d[3..6], d[6..9], d[9..];
    DigitsOfAllDigits(a); DigitsOfAllDigits(b); DigitsOfAllDigits(c); DigitsOfAllDigits(e);
    var t1 := a + ['.'] + b;
    var t2 := t1 + ['.'] + c;
    assert CpfMask(d) == t2 + ['-'] + e;
    DigitsAround(a, '.', b);
    DigitsAround(t1, '.', c);
    DigitsAround(t2, '-', e);
    PrefixJoin(d, 3, 6); PrefixJoin(d, 6, 9); PrefixJoin(d, 9, 11);
    assert d[..11] == d;
  }

  lemma DigitsOfCnpjMask(d: string)
    requires |d| == 14 && AllDigits(d)
    ensures Digits(CnpjMask(d)) == d
  {
    var a, b, c, e, f := d[..2], d[2..5], d[5..8], d[8..12], d[12..];
    DigitsOfAllDigits(a); DigitsOfAllDigits(b); DigitsOfAllDigits(c); DigitsOfAllDigits(e); DigitsOfAllDigits(f);
    var t1 := a + ['.'] + b;
    var t2 := t1 + ['.'] + c;
    var t3 := t2 + ['/'] + e;
    assert CnpjMask(d) == t3 + ['-'] + f;
    DigitsAround(a, '.', b);
    DigitsAround(t1, '.', c);
    DigitsAround(t2, '/', e);
    DigitsAround(t3, '-', f);
    PrefixJoin(d, 2, 5); PrefixJoin(d, 5, 8); PrefixJoin(d, 8, 12); PrefixJoin(d, 12, 14);
    assert d[..14] == d;
  }

  lemma NoDigitsInLabel()
    ensures Digits(NotInformedLabel) == ""
  {
    var s := NotInformedLabel;
    assert forall i | 0 <= i < |s| :: !IsDigit(s[i]);
    NoDigitsAtAll(s);
  }

  /** Formatting keeps exactly the digits of the document: a mask only adds
      separators, and nothing else is rewritten. */
  lemma FormatKeepsDigits(doc: string)
    ensures Digits(FormatDocument(doc)) == Digits(doc)
  {
    if doc == "" {
      NoDigitsInLabel();
    } else {
      var d := Digits(doc);
      if |d| == 11 {
        DigitsOfCpfMask(d);
      } else if |d| == 14 {
        DigitsOfCnpjMask(d);
      }
    }
  }

  /** A masked document depends only on its digits: punctuation typed by the
      user is dropped first. */
  lemma MaskUsesOnlyDigits(doc: string)
    requires |Digits(doc)| == 11 || |Digits(doc)| == 14
    ensures FormatDocument(doc) == FormatDocument(Digits(doc))
  {
    DigitsOfAllDigits(Digits(doc));
  }

  // ---------------------------------------------------------------------------
  // The occupied rows (`assentosOcupados`)

  /** One claim joined with its booking: the passenger's name and document,
      the card number and the trip type. */
  datatype Row = Row(claim: SeatClaim, name: string, doc: Option<string>, card: string, trip: string)

  function NamedAs(name: string): Passenger -> bool
  {
    (p: Passenger) => p.name == name
  }

  /** The document of the first passenger named like the claim, unless that
      document is empty; otherwise the claim's own document. */
  function PassengerDoc(ps: seq<Passenger>, c: SeatClaim): (r: Option<string>)
    ensures (forall i | 0 <= i < |ps| :: ps[i].name != c.passenger) ==> r == c.doc
    ensures forall i | 0 <= i < |ps| && ps[i].name == c.passenger && (forall j | 0 <= j < i :: ps[j].name != c.passenger) ::
      r == if ps[i].doc != "" then Some(ps[i].doc) else c.doc
  {
    match Find(ps, NamedAs(c.passenger))
    case Some(p) => if p.doc != "" then Some(p.doc) else c.doc
    case None => c.doc
  }

  function RowsOf(b: Booking): (r: seq<Row>)
    ensures |r| == |b.claims|
    ensures forall i | 0 <= i < |r| ::
      r[i] == Row(b.claims[i], b.claims[i].passenger, PassengerDoc(b.passengers, b.claims[i]), b.card, b.trip)
  {
    seq(|b.claims|, i requires 0 <= i < |b.claims| =>
      var c := b.claims[i];
      Row(c, c.passenger, PassengerDoc(b.passengers, c), b.card, b.trip))
  }

  /** The event chosen in the selector is held as text and compared with the
      text of each id. */
  function OfSelected(selected: string): Booking -> bool
  {
    (b: Booking) => IntToString(b.eventId) == selected
  }

  /** One row per claim of every booking whose event id reads as the selected
      text, in booking order. */
  function OccupiedRows(bookings: seq<Booking>, selected: string): (r: seq<Row>)
    ensures forall row :: row in r <==> exists b :: b in bookings && IntToString(b.eventId) == selected && row in RowsOf(b)
  {
    FlatMap(Filter(bookings, OfSelected(selected)), RowsOf)
  }

  /** The claim a row shows. */
  function RowClaim(row: Row): SeatClaim { row.claim }

  lemma {:induction false} RowClaimsOfRows(bookings: seq<Booking>)
    ensures Map(FlatMap(bookings, RowsOf), RowClaim) == FlatMap(bookings, Claims)
    decreases |bookings|
  {
    if |bookings| > 0 {
      RowClaimsOfRows(bookings[1..]);
      MapAppend(RowsOf(bookings[0]), FlatMap(bookings[1..], RowsOf), RowClaim);
      assert Map(RowsOf(bookings[0]), RowClaim) == bookings[0].claims;
    }
  }

  /** With event `e` selected, the rows carry exactly the claims the booking
      wizard counts as occupied for `e`, in the same order. */
  lemma OccupiedRowsAreOccupiedClaims(bookings: seq<Booking>, e: Event)
    ensures Map(OccupiedRows(bookings, IntToString(e.id)), RowClaim) == BookingFlow.OccupiedClaims(bookings, Some(e))
    ensures |OccupiedRows(bookings, IntToString(e.id))| == OccupiedCount(bookings, e.id)
  {
    forall i | 0 <= i < |bookings|
      ensures OfSelected(IntToString(e.id))(bookings[i]) == (bookings[i].eventId == e.id)
    {
      IntToStringInjective(bookings[i].eventId, e.id);
    }
    FilterCongruent(bookings, OfSelected(IntToString(e.id)), AtEvent(e.id));
    assert Filter(bookings, OfSelected(IntToString(e.id))) == EventBookings(bookings, e.id);
    RowClaimsOfRows(EventBookings(bookings, e.id));
  }

  /** Before an event is chosen the selection is empty text, and no booking's id
      reads as empty text. */
  lemma NothingSelectedNoRows(bookings: seq<Booking>)
    ensures OccupiedRows(bookings, "") == []
  {
    FilterNone(bookings, OfSelected(""));
  }

  // ---------------------------------------------------------------------------
  // Occupancy figures

  function SelectedEvent(events: seq<Event>, selected: string): (r: Option<Event>)
    ensures r.Some? ==> r.value in events && IntToString(r.value.id) == selected
    ensures r.None? ==> forall e | e in events :: IntToString(e.id) != selected
  {
    Find(events, (e: Event) => IntToString(e.id) == selected)
  }

  /** Every passenger seat of the chosen event, or 0 when none is chosen. */
  function TotalSeats(ev: Option<Event>): (r: int)
    ensures ev.None? ==> r == 0
    ensures ev.Some? ==> r == BookableSeats(ev.value)
  {
    match ev
    case None => 0
    case Some(e) => BookableSeats(e)
  }

  // ---------------------------------------------------------------------------
  // Grouping by bus (`agruparPorOnibus`) and the display order

  /** The group of a row: its bus number, or "N/I" when the claim has none. */
  datatype BusKey = Num(n: int) | NotInformed

  function KeyOf(r: Row): BusKey
  {
    match r.claim.bus
    case None => NotInformed
    case Some(n) => Num(n)
  }

  function HasKey(k: BusKey): Row -> bool
  {
    (r: Row) => KeyOf(r) == k
  }

  /** Some row has key `k`. */
  predicate KeyPresent(rows: seq<Row>, k: BusKey)
  {
    exists i | 0 <= i < |rows| :: KeyOf(rows[i]) == k
  }

  lemma KeyPresentCons(rows: seq<Row>)
    requires |rows| > 0
    ensures forall k :: KeyPresent(rows, k) <==> KeyOf(rows[0]) == k || KeyPresent(rows[1..], k)
  {
    forall k | KeyPresent(rows, k) ensures KeyOf(rows[0]) == k || KeyPresent(rows[1..], k) {
      var i :| 0 <= i < |rows| && KeyOf(rows[i]) == k;
      if i > 0 { assert rows[1..][i - 1] == rows[i]; }
    }
    forall k | KeyPresent(rows[1..], k) ensures KeyPresent(rows, k) {
      var i :| 0 <= i < |rows| - 1 && KeyOf(rows[1..][i]) == k;
      assert rows[1..][i] == rows[i + 1];
    }
  }

  lemma GroupCons(rows: seq<Row>, k: BusKey)
    requires |rows| > 0
    ensures Filter(rows, HasKey(k)) == (if KeyOf(rows[0]) == k then [rows[0]] else []) + Filter(rows[1..], HasKey(k))
  {
  }

  /** The groups `reduce` builds: one per key present, holding that key's rows in
      list order. */
  function GroupByBus(rows: seq<Row>): (m: map<BusKey, seq<Row>>)
    ensures forall k :: k in m <==> KeyPresent(rows, k)
    ensures forall k | k in m :: m[k] == Filter(rows, HasKey(k))
    decreases |rows|
  {
    if |rows| == 0 then map[]
    else
      var m := GroupByBus(rows[1..]);
      var k := KeyOf(rows[0]);
      KeyPresentCons(rows);
      var r := m[k := [rows[0]] + (if k in m then m[k] else [])];
      assert forall j | j in r :: r[j] == Filter(rows, HasKey(j)) by {
        forall j | j in r ensures r[j] == Filter(rows, HasKey(j)) {
          GroupCons(rows, j);
          if j != k {
            assert j in m;
          } else if k !in m {
            FilterNone(rows[1..], HasKey(k));
          }
        }
      }
      r
  }

  function GroupSize(rows: seq<Row>): BusKey -> int
  {
    (k: BusKey) => |Filter(rows, HasKey(k))|
  }

  /** Grouping loses and duplicates nothing: summed over a list of distinct keys
      covering every row, the group sizes add up to the number of rows. */
  lemma {:induction false} GroupSizesAddUp(rows: seq<Row>, keys: seq<BusKey>)
    requires Distinct(keys)
    requires forall i | 0 <= i < |rows| :: KeyOf(rows[i]) in keys
    ensures SumBy(keys, GroupSize(rows)) == |rows|
    decreases |rows|
  {
    if |rows| == 0 {
      SumByZero(keys, GroupSize(rows));
    } else {
      forall i | 0 <= i < |rows| - 1 ensures KeyOf(rows[1..][i]) in keys {
        assert rows[1..][i] == rows[i + 1];
      }
      GroupSizesAddUp(rows[1..], keys);
      var x := KeyOf(rows[0]);
      forall k ensures GroupSize(rows)(k) == GroupSize(rows[1..])(k) + (if EqualTo(x)(k) then 1 else 0) {
        GroupCons(rows, k);
      }
      SumByShift(keys, GroupSize(rows), GroupSize(rows[1..]), EqualTo(x), 1);
      SingleHit(keys, EqualTo(x));
    }
  }

  /** Some row's claim is on bus `n`. */
  ghost predicate BusPresent(rows: seq<Row>, n: int)
  {
    KeyPresent(rows, Num(n))
  }

  /** The bus numbers present among the rows, each once. */
  function BusNumbers(rows: seq<Row>): (r: seq<int>)
    ensures Distinct(r)
    ensures forall n :: n in r <==> BusPresent(rows, n)
    decreases |rows|
  {
    if |rows| == 0 then []
    else
      var rest := BusNumbers(rows[1..]);
      KeyPresentCons(rows);
      match rows[0].claim.bus
      case Some(n) =>
        if n in rest then rest
        else
          var r := [n] + rest;
          assert forall i, j | 0 <= i < j < |r| :: r[i] != r[j] by {
            forall i, j | 0 <= i < j < |r| ensures r[i] != r[j] {
              if i == 0 { assert r[j] == rest[j - 1]; } else { assert r[i] == rest[i - 1] && r[j] == rest[j - 1]; }
            }
          }
          r
      case None => rest
  }

  /** The bus numbers in the order the groups are shown: ascending. */
  function SortedBusNumbers(rows: seq<Row>): (r: seq<int>)
    ensures StrictlyAscending(r)
    ensures forall n :: n in r <==> BusPresent(rows, n)
  {
    var ns := BusNumbers(rows);
    var sorted := SortBy(ns, Id);
    PermutationKeepsDistinct(ns, sorted);
    SortedDistinctAscending(sorted);
    assert forall n :: n in sorted <==> n in multiset(sorted);
    sorted
  }

  function NumKeys(ns: seq<int>): (r: seq<BusKey>)
    ensures |r| == |ns| && forall i | 0 <= i < |ns| :: r[i] == Num(ns[i])
  {
    seq(|ns|, i requires 0 <= i < |ns| => Num(ns[i]))
  }

  /** Numbered keys in the given order, then "N/I" when `tail` is set. */
  function KeyList(sorted: seq<int>, tail: bool): (r: seq<BusKey>)
    requires StrictlyAscending(sorted)
    ensures forall k :: k in r <==> (k.Num? && k.n in sorted) || (k == NotInformed && tail)
    ensures Distinct(r)
    ensures forall i, j | 0 <= i < j < |r| && r[j].Num? :: r[i].Num? && r[i].n < r[j].n
  {
    var nk := NumKeys(sorted);
    var r := nk + (if tail then [NotInformed] else []);
    assert forall i, j | 0 <= i < j < |nk| :: Below(sorted[i], sorted[j]);
    assert forall k: BusKey | k.Num? && k.n in sorted :: k in r by {
      forall k: BusKey | k.Num? && k.n in sorted ensures k in r {
        var x :| 0 <= x < |sorted| && sorted[x] == k.n;
        assert r[x] == k;
      }
    }
    r
  }

  /** The order the groups are shown in: bus numbers ascending, then "N/I" when
      some claim has no bus. Every group is shown once, and numbered groups come
      first in strictly ascending order. */
  function DisplayKeys(rows: seq<Row>): (r: seq<BusKey>)
    ensures forall k :: k in r <==> k in GroupByBus(rows)
    ensures Distinct(r)
    ensures forall i, j | 0 <= i < j < |r| && r[j].Num? :: r[i].Num? && r[i].n < r[j].n
  {
    KeyList(SortedBusNumbers(rows), KeyPresent(rows, NotInformed))
  }

  /** The shown groups hold every row exactly once. */
  lemma DisplayedRowsAddUp(rows: seq<Row>)
    ensures SumBy(DisplayKeys(rows), GroupSize(rows)) == |rows|
  {
    var keys := DisplayKeys(rows);
    forall i | 0 <= i < |rows| ensures KeyOf(rows[i]) in keys {
      assert KeyPresent(rows, KeyOf(rows[i]));
    }
    GroupSizesAddUp(rows, keys);
  }

  /** A bus chosen in the selector (held as `String(k)`) or all of them. */
  datatype BusFilter = AllBuses | OnlyBus(bus: int)

  /** `passageirosPorOnibus`: with one bus chosen, exactly that key, possibly
      with no rows. */
  function PassengersByBus(rows: seq<Row>, f: BusFilter): (m: map<BusKey, seq<Row>>)
    ensures f.AllBuses? ==> m == GroupByBus(rows)
    ensures f.OnlyBus? ==> m.Keys == {Num(f.bus)} && m[Num(f.bus)] == Filter(rows, HasKey(Num(f.bus)))
  {
    match f
    case AllBuses => GroupByBus(rows)
    case OnlyBus(n) =>
      var all := GroupByBus(rows);
      assert Num(n) !in all ==> Filter(rows, HasKey(Num(n))) == [] by {
        if Num(n) !in all {
          FilterNone(rows, HasKey(Num(n)));
        }
      }
      map[Num(n) := if Num(n) in all then all[Num(n)] else []]
  }

  /** A missing seat sorts as 0 (`a.assento || 0`). */
  function SeatKey(r: Row): int
  {
    r.claim.seat.GetOr(0)
  }

  /** The rows of one group as the table shows them: ascending by seat, the same
      rows as the group. */
  function SortedRows(group: seq<Row>): (r: seq<Row>)
    ensures SortedBy(r, SeatKey) && multiset(r) == multiset(group)
  {
    SortBy(group, SeatKey)
  }

  /** The document cell of a row: its document (else "") through the mask. */
  function DocumentCell(r: Row): (s: string)
    ensures r.doc.None? || r.doc == Some("") ==> s == NotInformedLabel
    ensures Digits(s) == Digits(r.doc.GetOr(""))
    ensures r.doc.Some? && r.doc.value != "" && |Digits(r.doc.value)| != 11 && |Digits(r.doc.value)| != 14 ==>
      s == r.doc.value
  {
    FormatKeepsDigits(r.doc.GetOr(""));
    FormatDocument(r.doc.GetOr(""))
  }

  /** The table's document cell for claim `i` of a booking: the first
      same-named passenger's non-empty document through the mask, else the
      claim's own document, else "Não informado". */
  lemma DocumentCellOfClaim(b: Booking, i: int, k: int)
    requires 0 <= i < |b.claims|
    ensures (forall j | 0 <= j < |b.passengers| :: b.passengers[j].name != b.claims[i].passenger) ==>
      DocumentCell(RowsOf(b)[i]) == FormatDocument(b.claims[i].doc.GetOr(""))
    ensures (&& 0 <= k < |b.passengers| && b.passengers[k].name == b.claims[i].passenger && b.passengers[k].doc != ""
             && forall j | 0 <= j < k :: b.passengers[j].name != b.claims[i].passenger) ==>
      DocumentCell(RowsOf(b)[i]) == FormatDocument(b.passengers[k].doc)
  {
    assert RowsOf(b)[i].doc == PassengerDoc(b.passengers, b.claims[i]);
  }
}
