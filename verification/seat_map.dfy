/** The clickable bus map of the booking wizard
    (client/src/components/agendamento/MapaAssentos.jsx). Seats are laid out
    in columns of two sides; the first column holds seat 2 beside the driver's
    seat 1, every later column holds four consecutive seats. */
module SeatMap {
  import opened Wrappers
  import opened Seqs
  import opened Domain
  import opened BookingFlow

  /** One column of the map: the seats above the aisle and those below it. */
  datatype Column = Column(left: seq<int>, right: seq<int>)

  /** The columns the layout loop builds for a bus of capacity `cap`: the first
      column [2 | 1], then column j holds 4j-1, 4j | 4j+1, 4j+2, and columns keep
      coming while their first seat is at most `cap`. */
  ghost predicate IsLayout(cols: seq<Column>, cap: int)
  {
    && |cols| >= 1
    && cols[0] == Column([2], [1])
    && (forall j | 1 <= j < |cols| :: cols[j] == Column([4 * j - 1, 4 * j], [4 * j + 1, 4 * j + 2]))
    && cap < 4 * |cols| - 1
    && (|cols| == 1 || 4 * |cols| - 5 <= cap)
  }

  /** The layout loop of the component. */
  method Columns(cap: int) returns (cols: seq<Column>)
    ensures IsLayout(cols, cap)
  {
    cols := [Column([2], [1])];
    var n := 3;
    while n <= cap
      invariant n == 4 * |cols| - 1
      invariant |cols| >= 1 && cols[0] == Column([2], [1])
      invariant forall j | 1 <= j < |cols| :: cols[j] == Column([4 * j - 1, 4 * j], [4 * j + 1, 4 * j + 2])
      invariant |cols| == 1 || 4 * |cols| - 5 <= cap
      decreases cap - n
    {
      cols := cols + [Column([n, n + 1], [n + 2, n + 3])];
      n := n + 4;
    }
  }

  /** Only the first column has a single seat below the aisle, and that seat is
      the driver's; so the `isDriver` flag the map passes agrees with `n === 1`. */
  lemma DriverFlagOnlyOnSeatOne(cols: seq<Column>, cap: int, j: int)
    requires IsLayout(cols, cap) && 0 <= j < |cols|
    ensures |cols[j].right| == 1 <==> j == 0
    ensures |cols[j].right| == 1 ==> cols[j].right == [1]
  {
  }

  function ColumnSeats(c: Column): seq<int> { c.left + c.right }

  /** A seat button renders unless its number is 0 or beyond the capacity. */
  function ShownIn(cap: int): int -> bool
  {
    (n: int) => n != 0 && n <= cap
  }

  /** The seat numbers rendered, in render order (column by column, the side
      above the aisle first). */
  function RenderedSeats(cols: seq<Column>, cap: int): seq<int>
  {
    Filter(FlatMap(cols, ColumnSeats), ShownIn(cap))
  }

  lemma RangeSplit(lo: int, mid: int, hi: int)
    requires lo <= mid <= hi
    ensures Range(lo, mid) + Range(mid, hi) == Range(lo, hi)
  {
  }

  lemma {:induction false} TailSeats(cols: seq<Column>, cap: int, j: int)
    requires IsLayout(cols, cap) && 1 <= j <= |cols|
    ensures FlatMap(cols[j..], ColumnSeats) == Range(4 * j - 1, 4 * |cols| - 1)
    decreases |cols| - j
  {
    if j < |cols| {
      TailSeats(cols, cap, j + 1);
      ColumnStep(cols, cap, j);
      RangeSplit(4 * j - 1, 4 * j + 3, 4 * |cols| - 1);
    }
  }

  /** Column `j` of the layout contributes the four numbers from 4j-1 ahead of
      the later columns. */
  lemma ColumnStep(cols: seq<Column>, cap: int, j: int)
    requires IsLayout(cols, cap) && 1 <= j < |cols|
    ensures FlatMap(cols[j..], ColumnSeats) == Range(4 * j - 1, 4 * j + 3) + FlatMap(cols[j + 1..], ColumnSeats)
  {
    assert cols[j..][0] == cols[j] && cols[j..][1..] == cols[j + 1..];
    assert ColumnSeats(cols[j]) == Range(4 * j - 1, 4 * j + 3);
  }

  /** Keeping the rendered numbers of a run of positive numbers cuts it at `cap`. */
  lemma {:induction false} ShownRange(lo: int, hi: int, cap: int)
    requires 1 <= lo <= hi
    ensures Filter(Range(lo, hi), ShownIn(cap)) == Range(lo, if cap + 1 < lo then lo else if cap + 1 < hi then cap + 1 else hi)
    decreases hi - lo
  {
    if lo < hi {
      ShownRange(lo + 1, hi, cap);
      assert Range(lo, hi) == [lo] + Range(lo + 1, hi);
      assert Range(lo, hi)[1..] == Range(lo + 1, hi);
    }
  }

  /** The seats shown for capacity `cap`: 2 and 1 in the first column, then 3
      up to `cap` in order. */
  function ExpectedSeats(cap: int): (r: seq<int>)
    ensures forall n :: n in r <==> 1 <= n <= cap
    ensures Distinct(r)
    ensures |r| == if cap >= 0 then cap else 0
  {
    (if cap >= 2 then [2, 1] else if cap == 1 then [1] else []) + Range(3, if cap >= 3 then cap + 1 else 3)
  }

  lemma LayoutSeats(cols: seq<Column>, cap: int)
    requires IsLayout(cols, cap)
    ensures FlatMap(cols, ColumnSeats) == [2, 1] + Range(3, 4 * |cols| - 1)
  {
    var tail := FlatMap(cols[1..], ColumnSeats);
    TailSeats(cols, cap, 1);
    assert ColumnSeats(cols[0]) == [2, 1] by {
      assert cols[0].left == [2] && cols[0].right == [1];
    }
    assert FlatMap(cols, ColumnSeats) == ColumnSeats(cols[0]) + tail;
  }

  lemma ShownFirstColumn(cap: int)
    ensures Filter([2, 1], ShownIn(cap)) == if cap >= 2 then [2, 1] else if cap == 1 then [1] else []
  {
    assert [2, 1][1..] == [1];
  }

  lemma {:induction false} ShownLayoutSeats(m: int, cap: int)
    requires m >= 1 && cap < 4 * m - 1
    ensures Filter([2, 1] + Range(3, 4 * m - 1), ShownIn(cap)) == ExpectedSeats(cap)
  {
    var hi := 4 * m - 1;
    FilterAppend([2, 1], Range(3, hi), ShownIn(cap));
    ShownRange(3, hi, cap);
    ShownFirstColumn(cap);
    var top := if cap + 1 < 3 then 3 else if cap + 1 < hi then cap + 1 else hi;
    assert top == if cap >= 3 then cap + 1 else 3;
    assert ExpectedSeats(cap) == (if cap >= 2 then [2, 1] else if cap == 1 then [1] else []) + Range(3, top);
  }

  /** The map renders exactly the seats 1..cap, each once. */
  lemma {:induction false} EverySeatOnce(cols: seq<Column>, cap: int)
    requires IsLayout(cols, cap)
    ensures RenderedSeats(cols, cap) == ExpectedSeats(cap)
    ensures forall n :: n in RenderedSeats(cols, cap) <==> 1 <= n <= cap
    ensures Distinct(RenderedSeats(cols, cap))
  {
    LayoutSeats(cols, cap);
    ShownLayoutSeats(|cols|, cap);
  }

  /** The caption's passenger-seat count. */
  function PassengerSeatCaption(cap: int): int
  {
    if cap - 1 > 0 then cap - 1 else 0
  }

  /** The caption counts every rendered seat except the driver's. */
  lemma CaptionCountsPassengerSeats(cols: seq<Column>, cap: int)
    requires IsLayout(cols, cap)
    ensures PassengerSeatCaption(cap) == |RenderedSeats(cols, cap)| - (if 1 in RenderedSeats(cols, cap) then 1 else 0)
  {
    EverySeatOnce(cols, cap);
  }

  /** What a seat button shows. */
  datatype SeatView = SeatView(number: int, driver: bool, occupied: bool, selected: bool, disabled: bool)

  /** `SeatBtn` for seat `n` of bus `bus`: nothing for 0 or a number beyond the
      capacity; otherwise a button disabled for the driver's seat and for a seat
      some occupied claim holds on this bus. */
  function SeatButton(n: int, isDriver: bool, cap: int, bus: int, occupied: seq<SeatClaim>, selected: seq<SeatClaim>): (r: Option<SeatView>)
    ensures r.Some? <==> ShownIn(cap)(n)
    ensures r.Some? ==> r.value.number == n
    ensures r.Some? ==> (r.value.driver <==> isDriver || n == 1)
    ensures r.Some? ==> (r.value.occupied <==> HasSeat(occupied, bus, n))
    ensures r.Some? ==> (r.value.selected <==> HasSeat(selected, bus, n))
    ensures r.Some? ==> (r.value.disabled <==> n == 1 || isDriver || HasSeat(occupied, bus, n))
  {
    if n == 0 || n > cap then None
    else
      var driver := isDriver || n == 1;
      var occ := HasSeat(occupied, bus, n);
      Some(SeatView(n, driver, occ, HasSeat(selected, bus, n), occ || driver))
  }

  /** The button's click handler: the pair handed to `onSelectAssento`, if any. */
  function Click(n: int, isDriver: bool, cap: int, bus: int, occupied: seq<SeatClaim>, selected: seq<SeatClaim>): (r: Option<(int, int)>)
    ensures r.Some? <==> SeatButton(n, isDriver, cap, bus, occupied, selected).Some? &&
                         !SeatButton(n, isDriver, cap, bus, occupied, selected).value.disabled
    ensures r.Some? ==> r.value == (bus, n)
  {
    match SeatButton(n, isDriver, cap, bus, occupied, selected)
    case None => None
    case Some(v) => if !v.occupied && !v.driver then Some((bus, n)) else None
  }

  /** Seat 1 is always the driver's and always disabled. */
  lemma DriverSeatDisabled(isDriver: bool, cap: int, bus: int, occupied: seq<SeatClaim>, selected: seq<SeatClaim>)
    requires cap >= 1
    ensures SeatButton(1, isDriver, cap, bus, occupied, selected).Some?
    ensures SeatButton(1, isDriver, cap, bus, occupied, selected).value.driver
    ensures SeatButton(1, isDriver, cap, bus, occupied, selected).value.disabled
    ensures Click(1, isDriver, cap, bus, occupied, selected).None?
  {
  }

  /** A claim on another bus, or on a different seat, does not block a seat. */
  lemma {:induction false} OtherClaimsDoNotBlock(n: int, cap: int, bus: int, occupied: seq<SeatClaim>, selected: seq<SeatClaim>, c: SeatClaim)
    requires !At(c, bus, n)
    ensures SeatButton(n, false, cap, bus, occupied + [c], selected) == SeatButton(n, false, cap, bus, occupied, selected)
  {
    var o := occupied + [c];
    assert HasSeat(o, bus, n) <==> HasSeat(occupied, bus, n) by {
      if HasSeat(o, bus, n) {
        var i :| 0 <= i < |o| && At(o[i], bus, n);
        assert i < |occupied| && o[i] == occupied[i];
      }
      if HasSeat(occupied, bus, n) {
        var i :| 0 <= i < |occupied| && At(occupied[i], bus, n);
        assert o[i] == occupied[i];
      }
    }
  }

  // ---------------------------------------------------------------------------
  // A selection built from clicks on the maps of an event

  /** A user click on the button of seat `n` of bus `bus` of event `e`: it only
      reaches the selection when the bus is drawn (1..busCount), the seat is
      rendered (1..capacity) and its handler fires. */
  function ClickSeat(sel: seq<SeatClaim>, count: int, e: Event, occupied: seq<SeatClaim>, bus: int, n: int): seq<SeatClaim>
  {
    if 1 <= bus <= e.busCount && 1 <= n <= e.capacity && Click(n, n == 1, e.capacity, bus, occupied, sel).Some?
    then ToggleSeat(sel, count, bus, n)
    else sel
  }

  function ApplyClicks(sel: seq<SeatClaim>, count: int, e: Event, occupied: seq<SeatClaim>, clicks: seq<(int, int)>): seq<SeatClaim>
    decreases |clicks|
  {
    if |clicks| == 0 then sel
    else ApplyClicks(ClickSeat(sel, count, e, occupied, clicks[0].0, clicks[0].1), count, e, occupied, clicks[1..])
  }

  /** A claim the map could have produced: a drawn bus, a passenger seat within
      the capacity, free at click time, with no passenger bound yet. */
  ghost predicate ClickedClaim(c: SeatClaim, e: Event, occupied: seq<SeatClaim>)
  {
    && c.bus.Some? && c.seat.Some?
    && 1 <= c.bus.value <= e.busCount
    && 2 <= c.seat.value <= e.capacity
    && !HasSeat(occupied, c.bus.value, c.seat.value)
    && c.passenger == "" && c.doc.None?
  }

  ghost predicate SafeSelection(sel: seq<SeatClaim>, count: int, e: Event, occupied: seq<SeatClaim>)
  {
    && |sel| <= count
    && DistinctSpots(sel)
    && forall c | c in sel :: ClickedClaim(c, e, occupied)
  }

  lemma ClickKeepsSafe(sel: seq<SeatClaim>, count: int, e: Event, occupied: seq<SeatClaim>, bus: int, n: int)
    requires SafeSelection(sel, count, e, occupied)
    ensures SafeSelection(ClickSeat(sel, count, e, occupied, bus, n), count, e, occupied)
  {
    if 1 <= bus <= e.busCount && 1 <= n <= e.capacity && Click(n, n == 1, e.capacity, bus, occupied, sel).Some? {
      var r := ToggleSeat(sel, count, bus, n);
      if HasSeat(sel, bus, n) {
        var p := NotAt(bus, n);
        assert r == Filter(sel, p);
      }
    }
  }

  /** Starting from an empty selection, clicks on the maps of an event never
      select the driver's seat, a seat beyond the capacity, a seat occupied when
      the maps were drawn, or the same seat twice, and never more seats than
      passengers. */
  lemma {:induction false} SafeSelectionFromClicks(count: int, e: Event, occupied: seq<SeatClaim>, clicks: seq<(int, int)>)
    requires count >= 0
    ensures SafeSelection(ApplyClicks([], count, e, occupied, clicks), count, e, occupied)
  {
    ClicksKeepSafe([], count, e, occupied, clicks);
  }

  lemma {:induction false} ClicksKeepSafe(sel: seq<SeatClaim>, count: int, e: Event, occupied: seq<SeatClaim>, clicks: seq<(int, int)>)
    requires SafeSelection(sel, count, e, occupied)
    ensures SafeSelection(ApplyClicks(sel, count, e, occupied, clicks), count, e, occupied)
    decreases |clicks|
  {
    if |clicks| > 0 {
      ClickKeepsSafe(sel, count, e, occupied, clicks[0].0, clicks[0].1);
      ClicksKeepSafe(ClickSeat(sel, count, e, occupied, clicks[0].0, clicks[0].1), count, e, occupied, clicks[1..]);
    }
  }

  /** Choosing an event on step 1 keeps the seats already selected, and
      "Voltar" on step 2 leads back to that choice. A selection that is safe
      for one event need not be safe for the next: a seat picked on the second
      bus of `a` survives the switch to an event with a single bus. */
  lemma StaleSelectionAfterEventSwitch(a: Event, b: Event, count: int)
    requires a.busCount >= 2 && a.capacity >= 2 && b.busCount < 2 && count >= 1
    ensures var sel := ApplyClicks([], count, a, [], [(2, 2)]);
      SafeSelection(sel, count, a, []) && !SafeSelection(sel, count, b, [])
  {
    var sel := ApplyClicks([], count, a, [], [(2, 2)]);
    SafeSelectionFromClicks(count, a, [], [(2, 2)]);
    assert Click(2, false, a.capacity, 2, [], []).Some?;
    assert ClickSeat([], count, a, [], 2, 2) == [NewClaim(2, 2)];
    assert sel == ApplyClicks([NewClaim(2, 2)], count, a, [], []);
    assert sel[0] == NewClaim(2, 2) && !ClickedClaim(sel[0], b, []);
  }
}
