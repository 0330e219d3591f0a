/** The passenger legend of one bus (client/src/components/mapeamento/LegendaPassageiros.jsx):
    the occupied rows of that bus in seat order, each with its document masked. */
module PassengerLegend {
  import opened Wrappers
  import opened Seqs
  import opened Text
  import opened Sorting
  import opened Domain
  import opened Mapping

  // ---------------------------------------------------------------------------
  // This component's own `formatDocumento`

  const LegendNotInformed: string := "Não Informado"

  /** The spelling with a tilde that this component treats as "no document". */
  const AccentedMarker: string := "NÃO INFORMADO"

  /** A missing or empty document, or the accented marker, reads as not
      informed; a document with 11 digits is written as a CPF; anything else,
      a CNPJ included, is shown as it is. */
  function LegendDocument(doc: Option<string>): (r: string)
    ensures doc.None? || doc == Some("") || doc == Some(AccentedMarker) ==> r == LegendNotInformed
    ensures doc.Some? && doc.value != "" && doc.value != AccentedMarker && |Digits(doc.value)| == 11 ==>
      r == FormatDocument(doc.value)
    ensures doc.Some? && doc.value != "" && doc.value != AccentedMarker && |Digits(doc.value)| != 11 ==> r == doc.value
  {
    match doc
    case None => LegendNotInformed
    case Some(d) =>
      if d == "" || d == AccentedMarker then LegendNotInformed
      else
        var digits := Digits(d);
        if |digits| == 11 then CpfMask(digits) else d
  }

  lemma NoDigitsInLegendLabel()
    ensures Digits(LegendNotInformed) == ""
  {
    var a := LegendNotInformed;
    assert forall i | 0 <= i < |a| :: !IsDigit(a[i]);
    NoDigitsAtAll(a);
  }

  lemma NoDigitsInAccentedMarker()
    ensures Digits(AccentedMarker) == ""
  {
    var b := AccentedMarker;
    assert forall i | 0 <= i < |b| :: !IsDigit(b[i]);
    NoDigitsAtAll(b);
  }

  /** The marker the booking wizard writes has no tilde, so this legend shows
      it verbatim instead of as "Não Informado". */
  lemma WizardMarkerShownVerbatim()
    ensures LegendDocument(Some(NoDocumentMarker)) == NoDocumentMarker
    ensures LegendDocument(Some(AccentedMarker)) == LegendNotInformed
  {
    NoDigitsInWizardMarker();
    MarkersDiffer();
  }

  lemma NoDigitsInWizardMarker()
    ensures Digits(NoDocumentMarker) == ""
  {
    var c := NoDocumentMarker;
    assert forall i | 0 <= i < |c| :: !IsDigit(c[i]);
    NoDigitsAtAll(c);
  }

  /** The two markers differ in their second letter. */
  lemma MarkersDiffer()
    ensures NoDocumentMarker != AccentedMarker
  {
    assert NoDocumentMarker[1] != AccentedMarker[1];
  }

  /** Unlike the mapping table, the legend has no CNPJ mask: a 14-digit document
      is shown as typed. */
  lemma CnpjShownVerbatim(d: string)
    requires |Digits(d)| == 14
    ensures LegendDocument(Some(d)) == d
    ensures FormatDocument(d) == CnpjMask(Digits(d))
  {
    NoDigitsInAccentedMarker();
    assert d != AccentedMarker && d != "";
  }

  /** On any document with 11 digits the legend and the mapping table agree. */
  lemma CpfAgreesWithMapping(d: string)
    requires |Digits(d)| == 11
    ensures LegendDocument(Some(d)) == FormatDocument(d) == CpfMask(Digits(d))
  {
    NoDigitsInAccentedMarker();
    assert d != AccentedMarker && d != "";
  }

  /** The legend never invents or drops a digit. */
  lemma LegendKeepsDigits(doc: Option<string>)
    ensures Digits(LegendDocument(doc)) == Digits(doc.GetOr(""))
  {
    NoDigitsInLegendLabel();
    NoDigitsInAccentedMarker();
    if doc.Some? && doc.value != "" && doc.value != AccentedMarker && |Digits(doc.value)| == 11 {
      DigitsOfCpfMask(Digits(doc.value));
    }
  }

  // ---------------------------------------------------------------------------
  // Rows shown

  /** A bus number counts only when it is truthy: present and not 0. */
  predicate Truthy(bus: Option<int>)
  {
    bus.Some? && bus.value != 0
  }

  /** The rows of the chosen bus, or every row when no bus is given. */
  function LegendRows(rows: seq<Row>, bus: Option<int>): (r: seq<Row>)
    ensures Truthy(bus) ==> forall x :: x in r <==> x in rows && x.claim.bus == bus
    ensures Truthy(bus) ==> IsSubsequence(r, rows)
    ensures !Truthy(bus) ==> r == rows
  {
    if Truthy(bus) then
      FilterIsSubsequence(rows, HasKey(Num(bus.value)));
      Filter(rows, HasKey(Num(bus.value)))
    else rows
  }

  /** For a chosen bus the legend holds the same rows, in the same order, as the
      mapping page's group for that bus. */
  lemma LegendMatchesBusGroup(rows: seq<Row>, n: int)
    requires n != 0
    ensures LegendRows(rows, Some(n)) == PassengersByBus(rows, OnlyBus(n))[Num(n)]
  {
  }

  /** The rows in the order they are listed: ascending by seat, and exactly the
      rows of the chosen bus. */
  function LegendOrder(rows: seq<Row>, bus: Option<int>): (r: seq<Row>)
    ensures SortedBy(r, SeatKey)
    ensures multiset(r) == multiset(LegendRows(rows, bus))
    ensures |r| == |LegendRows(rows, bus)|
  {
    SortedRows(LegendRows(rows, bus))
  }

  /** What the component renders: a placeholder, the printable list, or the
      cards. */
  datatype LegendView = EmptyLegend | ListView(rows: seq<Row>) | CardView(rows: seq<Row>, bus: Option<int>)

  function Legend(rows: seq<Row>, bus: Option<int>, printMode: bool): (v: LegendView)
    ensures v.EmptyLegend? <==> LegendRows(rows, bus) == []
    ensures v.ListView? <==> printMode && LegendRows(rows, bus) != []
    ensures !v.EmptyLegend? ==> v.rows == LegendOrder(rows, bus) && |v.rows| > 0
  {
    var shown := LegendOrder(rows, bus);
    if |shown| == 0 then EmptyLegend
    else if printMode then ListView(shown)
    else CardView(shown, bus)
  }

  /** A bus that no row occupies gets the placeholder. */
  lemma EmptyBusShowsPlaceholder(rows: seq<Row>, n: int, printMode: bool)
    requires n != 0
    requires forall i | 0 <= i < |rows| :: rows[i].claim.bus != Some(n)
    ensures Legend(rows, Some(n), printMode) == EmptyLegend
  {
    FilterNone(rows, HasKey(Num(n)));
  }

  /** The document each row shows. */
  function DocumentShown(r: Row): (s: string)
    ensures r.doc.None? || r.doc == Some("") ==> s == LegendNotInformed
    ensures Digits(s) == Digits(r.doc.GetOr(""))
  {
    LegendKeepsDigits(r.doc);
    LegendDocument(r.doc)
  }

  /** The legend and the mapping table show the same text for a CPF; for a
      CNPJ the legend shows what was typed while the table masks it. */
  lemma LegendCellAgainstTable(r: Row)
    ensures r.doc.Some? && |Digits(r.doc.value)| == 11 ==> DocumentShown(r) == DocumentCell(r)
    ensures r.doc.Some? && |Digits(r.doc.value)| == 14 ==>
      DocumentShown(r) == r.doc.value && DocumentCell(r) == CnpjMask(Digits(r.doc.value))
  {
    if r.doc.Some? && |Digits(r.doc.value)| == 11 {
      CpfAgreesWithMapping(r.doc.value);
    }
    if r.doc.Some? && |Digits(r.doc.value)| == 14 {
      CnpjShownVerbatim(r.doc.value);
    }
  }
}
