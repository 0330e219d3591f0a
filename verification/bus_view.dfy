/** The read-only bus picture of the seat-mapping page
    (client/src/components/mapeamento/OnibusVisual.jsx): the same grid as the
    booking wizard's map, every seat disabled, occupied seats carrying a
    tooltip with the passenger of the first matching row. */
module BusView {
  import opened Wrappers
  import opened Seqs
  import opened Domain
  import opened Mapping
  import opened SeatMap

  function RowAt(bus: int, n: int): Row -> bool
  {
    (r: Row) => At(r.claim, bus, n)
  }

  /** `getAssentoInfo`: the first row holding seat `n` of bus `bus`. */
  function SeatInfo(rows: seq<Row>, bus: int, n: int): (r: Option<Row>)
    ensures r.None? <==> forall i | 0 <= i < |rows| :: !At(rows[i].claim, bus, n)
    ensures r.Some? ==> exists k | 0 <= k < |rows| :: rows[k] == r.value && At(rows[k].claim, bus, n) &&
                          forall j | 0 <= j < k :: !At(rows[j].claim, bus, n)
  {
    Find(rows, RowAt(bus, n))
  }

  /** The tooltip of an occupied seat: the passenger's name, and the document
      only when there is a non-empty one. */
  datatype Tooltip = Tooltip(name: string, doc: Option<string>)

  function TooltipOf(r: Row): (t: Tooltip)
    ensures t.name == r.name
    ensures t.doc.Some? <==> r.doc.Some? && r.doc.value != ""
    ensures t.doc.Some? ==> t.doc == r.doc
  {
    Tooltip(r.name, if r.doc.Some? && r.doc.value != "" then r.doc else None)
  }

  datatype Cell = Cell(number: int, driver: bool, occupied: bool, disabled: bool, tooltip: Option<Tooltip>)

  /** `SeatBtn` of this view: nothing for 0 or a number beyond the capacity;
      otherwise a disabled button, drawn as the driver's for seat 1, occupied
      when some row holds the seat on this bus, with the first such row's
      tooltip. */
  function SeatCell(n: int, isDriver: bool, cap: int, bus: int, rows: seq<Row>): (r: Option<Cell>)
    ensures r.Some? <==> ShownIn(cap)(n)
    ensures r.Some? ==> r.value.number == n && r.value.disabled
    ensures r.Some? ==> (r.value.driver <==> isDriver || n == 1)
    ensures r.Some? ==> (r.value.occupied <==> exists i | 0 <= i < |rows| :: At(rows[i].claim, bus, n))
    ensures r.Some? ==> (r.value.tooltip.Some? <==> r.value.occupied)
    ensures r.Some? && r.value.occupied ==>
      exists k | 0 <= k < |rows| :: At(rows[k].claim, bus, n) && (forall j | 0 <= j < k :: !At(rows[j].claim, bus, n)) &&
                                  r.value.tooltip == Some(TooltipOf(rows[k]))
  {
    if n == 0 || n > cap then None
    else
      var info := SeatInfo(rows, bus, n);
      Some(Cell(n, isDriver || n == 1, info.Some?, true, if info.Some? then Some(TooltipOf(info.value)) else None))
  }

  /** Drawn with the wizard's layout, this view shows a cell for exactly the
      seats 1..cap, each once, and every one of them is disabled. */
  lemma SameGridAsWizard(cols: seq<Column>, cap: int, bus: int, rows: seq<Row>)
    requires IsLayout(cols, cap)
    ensures Distinct(RenderedSeats(cols, cap))
    ensures forall n :: n in RenderedSeats(cols, cap) <==> 1 <= n <= cap
    ensures forall n | n in RenderedSeats(cols, cap) ::
      SeatCell(n, n == 1, cap, bus, rows).Some? && SeatCell(n, n == 1, cap, bus, rows).value.disabled
  {
    EverySeatOnce(cols, cap);
  }

  /** Seat 1 is drawn as the driver's whatever flag the caller passes, and it
      is shown as occupied exactly when a row claims it. */
  lemma DriverSeatDrawn(cap: int, bus: int, rows: seq<Row>)
    requires cap >= 1
    ensures SeatCell(1, false, cap, bus, rows).Some?
    ensures SeatCell(1, false, cap, bus, rows).value.driver
    ensures SeatCell(1, false, cap, bus, rows).value.occupied <==> exists i | 0 <= i < |rows| :: At(rows[i].claim, bus, 1)
  {
  }

  /** A row on another bus never marks a seat of this one. */
  lemma OtherBusRowsIgnored(n: int, cap: int, bus: int, rows: seq<Row>, extra: Row)
    requires extra.claim.bus != Some(bus)
    requires ShownIn(cap)(n)
    ensures SeatCell(n, n == 1, cap, bus, rows + [extra]) == SeatCell(n, n == 1, cap, bus, rows)
  {
    var longer := rows + [extra];
    assert forall i | 0 <= i < |rows| :: longer[i] == rows[i];
    assert !At(longer[|rows|].claim, bus, n);
    assert (exists i | 0 <= i < |longer| :: At(longer[i].claim, bus, n)) <==> (exists i | 0 <= i < |rows| :: At(rows[i].claim, bus, n));
    FindAppend(rows, [extra], RowAt(bus, n));
  }
}
