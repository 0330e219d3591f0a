/** The sidebar of the application shell (client/src/Layout.jsx): which menu
    entries an account sees, and whether the administration link is shown. */
module Menu {
  import opened Wrappers
  import opened Seqs
  import opened Domain
  import opened RouteGuard

  /** A menu entry: public, or guarded by a list of designations (which the
      component reads with optional chaining, so it may be absent). */
  datatype Item = Item(title: string, url: string, isPublic: bool, required: Option<seq<string>>)

  /** The entries of the events module, in menu order. */
  const MenuTable: seq<Item> := [
    Item("Dashboard", "/dashboard", false, Some([GestorEventos, VisualizadorEventos, OperadorMapeamento])),
    Item("Gerenciar Reservas", "/gerenciar", false, Some([GestorEventos, OperadorMapeamento])),
    Item("Mapeamento", "/mapeamento", false, Some([GestorEventos, VisualizadorEventos, OperadorMapeamento])),
    Item("Agendar Viagem", "/agendamento", true, None),
    Item("Consultar Reserva", "/consulta", true, None)
  ]

  /** `hasAccess`: public entries for everyone; nothing else without an account;
      everything for an admin; otherwise some required designation must be held.
      For a non-empty list this is the page guard's decision; unlike the guard,
      an entry with a missing or empty list is hidden from a non-admin. */
  function HasAccess(item: Item, user: Option<Account>): (r: bool)
    ensures item.isPublic ==> r
    ensures !item.isPublic && user.None? ==> !r
    ensures !item.isPublic && user.Some? && item.required.Some? && |item.required.value| > 0 ==>
      (r <==> Decide(false, user, item.required.value, false) == Allowed)
    ensures !item.isPublic && user.Some? && !IsAdmin(user.value) && (item.required.None? || item.required.value == []) ==> !r
  {
    || item.isPublic
    || (user.Some? && (IsAdmin(user.value) ||
         (item.required.Some? && HoldsAny(item.required.value, DesignationsOf(user.value)))))
  }

  function AccessibleTo(user: Option<Account>): Item -> bool
  {
    (item: Item) => HasAccess(item, user)
  }

  /** `visibleItems`: the entries the account may open, in menu order. */
  function VisibleItems(user: Option<Account>): (r: seq<Item>)
    ensures IsSubsequence(r, MenuTable)
    ensures forall item :: item in r <==> item in MenuTable && HasAccess(item, user)
  {
    FilterIsSubsequence(MenuTable, AccessibleTo(user));
    Filter(MenuTable, AccessibleTo(user))
  }

  function Titles(items: seq<Item>): (r: seq<string>)
    ensures |r| == |items| && forall i | 0 <= i < |items| :: r[i] == items[i].title
  {
    seq(|items|, i requires 0 <= i < |items| => items[i].title)
  }

  /** Filtering the five-entry table entry by entry. */
  lemma FilterMenu(p: Item -> bool)
    ensures Filter(MenuTable, p) == KeepIf(MenuTable[0], p) + (KeepIf(MenuTable[1], p) +
      (KeepIf(MenuTable[2], p) + (KeepIf(MenuTable[3], p) + KeepIf(MenuTable[4], p))))
  {
    var t := MenuTable;
    var t1, t2, t3, t4 := t[1..], t[2..], t[3..], t[4..];
    assert Filter(t4, p) == KeepIf(t[4], p) by {
      FilterCons(t4, p);
      assert t4[1..] == [] && t4[0] == t[4];
    }
    assert Filter(t3, p) == KeepIf(t[3], p) + Filter(t4, p) by {
      FilterCons(t3, p);
      assert t3[1..] == t4 && t3[0] == t[3];
    }
    assert Filter(t2, p) == KeepIf(t[2], p) + Filter(t3, p) by {
      FilterCons(t2, p);
      assert t2[1..] == t3 && t2[0] == t[2];
    }
    assert Filter(t1, p) == KeepIf(t[1], p) + Filter(t2, p) by {
      FilterCons(t1, p);
      assert t1[1..] == t2 && t1[0] == t[1];
    }
    FilterCons(t, p);
  }

  /** Without an account only the two public entries are shown. */
  lemma AnonymousEntries()
    ensures VisibleItems(None) == [MenuTable[3], MenuTable[4]]
  {
    var t, p := MenuTable, AccessibleTo(None);
    assert !p(t[0]) && !p(t[1]) && !p(t[2]) && p(t[3]) && p(t[4]);
    FilterMenu(p);
    assert KeepIf(t[0], p) == [] && KeepIf(t[1], p) == [] && KeepIf(t[2], p) == [];
    assert KeepIf(t[3], p) == [t[3]] && KeepIf(t[4], p) == [t[4]];
    assert [] + ([] + ([] + ([t[3]] + [t[4]]))) == [t[3], t[4]];
  }

  /** The signed-out menu, by title. */
  lemma AnonymousSeesPublicEntries()
    ensures Titles(VisibleItems(None)) == ["Agendar Viagem", "Consultar Reserva"]
  {
    var t := MenuTable;
    AnonymousEntries();
    var ts := Titles(VisibleItems(None));
    assert |ts| == 2 && ts[0] == t[3].title && ts[1] == t[4].title;
  }

  /** An admin sees all five entries. */
  lemma AdminSeesEverything(u: Account)
    requires IsAdmin(u)
    ensures VisibleItems(Some(u)) == MenuTable
  {
    FilterAll(MenuTable, AccessibleTo(Some(u)));
  }

  /** A viewer-only account may open every entry but the management one. */
  lemma ViewerAccess(u: Account)
    requires !IsAdmin(u) && DesignationsOf(u) == [VisualizadorEventos]
    ensures HasAccess(MenuTable[0], Some(u)) && !HasAccess(MenuTable[1], Some(u)) && HasAccess(MenuTable[2], Some(u))
    ensures HasAccess(MenuTable[3], Some(u)) && HasAccess(MenuTable[4], Some(u))
  {
    assert MenuTable[0].required.value[1] in DesignationsOf(u);
    assert MenuTable[2].required.value[1] in DesignationsOf(u);
  }

  /** The viewer-only account's entries, in menu order. */
  lemma ViewerEntries(u: Account)
    requires !IsAdmin(u) && DesignationsOf(u) == [VisualizadorEventos]
    ensures VisibleItems(Some(u)) == [MenuTable[0], MenuTable[2], MenuTable[3], MenuTable[4]]
  {
    var t, p := MenuTable, AccessibleTo(Some(u));
    ViewerAccess(u);
    FilterMenu(p);
    assert KeepIf(t[0], p) == [t[0]] && KeepIf(t[1], p) == [] && KeepIf(t[2], p) == [t[2]];
    assert KeepIf(t[3], p) == [t[3]] && KeepIf(t[4], p) == [t[4]];
    ListOfFour(t[0], t[2], t[3], t[4]);
  }

  /** The shape `FilterMenu` gives when the second entry is dropped; stated on
      arbitrary items, since on the table's literals the solver cannot afford it. */
  lemma ListOfFour(a: Item, b: Item, c: Item, d: Item)
    ensures [a] + ([] + ([b] + ([c] + [d]))) == [a, b, c, d]
  {
  }

  /** The viewer-only menu, by title: no "Gerenciar Reservas". */
  lemma ViewerMissesManagement(u: Account)
    requires !IsAdmin(u) && DesignationsOf(u) == [VisualizadorEventos]
    ensures Titles(VisibleItems(Some(u))) == ["Dashboard", "Mapeamento", "Agendar Viagem", "Consultar Reserva"]
  {
    var t := MenuTable;
    ViewerEntries(u);
    var ts := Titles(VisibleItems(Some(u)));
    assert |ts| == 4 && ts[0] == t[0].title && ts[1] == t[2].title && ts[2] == t[3].title && ts[3] == t[4].title;
  }

  /** Each guarded entry is shown to a signed-in account exactly when the page
      it leads to admits that account. */
  lemma MenuAgreesWithPages(u: Account)
    ensures HasAccess(MenuTable[0], Some(u)) <==> Decide(false, Some(u), DashboardPage, false) == Allowed
    ensures HasAccess(MenuTable[1], Some(u)) <==> Decide(false, Some(u), ManagePage, false) == Allowed
    ensures HasAccess(MenuTable[2], Some(u)) <==> Decide(false, Some(u), MappingPage, false) == Allowed
  {
  }

  /** `showAdminLink`: the "Administração" group is shown to exactly the
      accounts an admin-only page guard would admit. */
  function ShowAdminLink(user: Option<Account>): (r: bool)
    ensures r <==> Decide(false, user, [], true) == Allowed
  {
    user.Some? && IsAdmin(user.value)
  }
}
