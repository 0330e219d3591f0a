/** The administrator's access page (client/src/pages/ConfiguracaoAcesso.jsx):
    the user search, the designation editor and the per-designation badges. */
module AccessConfig {
  import opened Wrappers
  import opened Seqs
  import opened Text
  import opened Domain
  import Menu
  import RouteGuard
  import Server

  /** The three designations, in the order of the page's cards. */
  const Designations: seq<string> := [GestorEventos, VisualizadorEventos, OperadorMapeamento]

  /** The page body is shown only to a signed-in admin; everyone else gets the
      "access denied" card. */
  function PageOpen(current: Option<Account>): (r: bool)
    ensures r <==> Menu.ShowAdminLink(current)
    ensures r <==> RouteGuard.Decide(false, current, [], true) == RouteGuard.Allowed
  {
    current.Some? && IsAdmin(current.value)
  }

  function NameOrEmailIncludes(term: string): Account -> bool
  {
    (u: Account) => IncludesIgnoringCase(u.fullName, term) || IncludesIgnoringCase(u.email, term)
  }

  /** `usuariosFiltrados`: the users whose name or email contains the term,
      ignoring case, in list order. */
  function FilterUsers(users: seq<Account>, term: string): (r: seq<Account>)
    ensures IsSubsequence(r, users)
    ensures forall u :: u in r <==> u in users && (IncludesIgnoringCase(u.fullName, term) || IncludesIgnoringCase(u.email, term))
  {
    FilterIsSubsequence(users, NameOrEmailIncludes(term));
    Filter(users, NameOrEmailIncludes(term))
  }

  /** An empty search lists every user. */
  lemma EmptySearchListsEveryone(users: seq<Account>)
    ensures FilterUsers(users, "") == users
  {
    assert Lower("") == "";
    forall u | u in users ensures NameOrEmailIncludes("")(u) {
      ContainsEmpty(Lower(u.fullName));
    }
    FilterAll(users, NameOrEmailIncludes(""));
  }

  /** The editor's state: the user being edited, if any, and the designations
      ticked so far. */
  datatype Editor = Editor(editing: Option<Account>, selected: seq<string>)

  /** `handleEditarDesignacoes`: start from the user's own list, the empty one
      when it is missing. */
  function StartEditing(u: Account): (r: Editor)
    ensures r.editing == Some(u)
    ensures u.designations.Some? ==> r.selected == u.designations.value
    ensures u.designations.None? ==> r.selected == []
  {
    Editor(Some(u), DesignationsOf(u))
  }

  function NotEqual(d: string): string -> bool
  {
    (x: string) => x != d
  }

  /** `toggleDesignacao`: remove every copy of a ticked designation, append an
      unticked one. */
  function Toggle(selected: seq<string>, d: string): (r: seq<string>)
    ensures d in r <==> d !in selected
    ensures forall x | x != d :: x in r <==> x in selected
    ensures d !in selected ==> r == selected + [d]
  {
    if d in selected then Filter(selected, NotEqual(d)) else selected + [d]
  }

  /** Ticking a designation and unticking it again restores the list. */
  lemma ToggleTwiceRestores(selected: seq<string>, d: string)
    requires d !in selected
    ensures Toggle(Toggle(selected, d), d) == selected
  {
    assert d in selected + [d];
    FilterAppend(selected, [d], NotEqual(d));
    FilterAll(selected, NotEqual(d));
    FilterNone([d], NotEqual(d));
  }

  /** Unticking and ticking again restores which designations are ticked,
      though the designation moves to the end. */
  lemma ToggleTwiceSameSet(selected: seq<string>, d: string)
    ensures forall x :: x in Toggle(Toggle(selected, d), d) <==> x in selected
  {
  }

  /** Toggling never introduces a duplicate. */
  lemma ToggleKeepsDistinct(selected: seq<string>, d: string)
    requires Distinct(selected)
    ensures Distinct(Toggle(selected, d))
  {
    if d in selected {
      FilterDistinct(selected, NotEqual(d));
    } else {
      var r := selected + [d];
      forall i, j | 0 <= i < j < |r| ensures r[i] != r[j] {
        if j == |selected| {
          assert r[i] == selected[i];
        } else {
          assert r[i] == selected[i] && r[j] == selected[j];
        }
      }
    }
  }

  /** `handleSalvarDesignacoes`: the id and the ticked list for the PUT, only
      while a user is being edited. */
  function SaveRequest(e: Editor): (r: Option<(int, seq<string>)>)
    ensures r.Some? <==> e.editing.Some?
    ensures r.Some? ==> r.value.0 == e.editing.value.id && r.value.1 == e.selected
  {
    match e.editing
    case Some(u) => Some((u.id, e.selected))
    case None => None
  }

  /** After a successful save the dialog closes and the ticks are cleared. */
  function AfterSave(e: Editor): (r: Editor)
    ensures r.editing.None? && r.selected == []
  {
    Editor(None, [])
  }

  /** Saving, from the admin-only page, rewrites exactly the edited user's
      designations on the server, to the ticked list, and no other column of
      any user. */
  lemma SaveChangesOnlyDesignations(s: Server.Store, admin: Server.TokenClaims, e: Editor, i: int)
    requires admin.role == "admin"
    requires SaveRequest(e).Some? && 0 <= i < |s.users|
    ensures var (res, t) := Server.AdminPutUser(s, admin, SaveRequest(e).value.0, Some(SaveRequest(e).value.1));
      && res == Server.Updated
      && t.users[i].id == s.users[i].id && t.users[i].role == s.users[i].role
      && t.users[i].email == s.users[i].email && t.users[i].password == s.users[i].password
      && (s.users[i].id == e.editing.value.id ==> t.users[i].designations == e.selected)
      && (s.users[i].id != e.editing.value.id ==> t.users[i] == s.users[i])
  {
    Server.PutUserKeepsRole(s, SaveRequest(e).value.0, Some(SaveRequest(e).value.1), i);
  }

  function Holds(d: string): Account -> bool
  {
    (u: Account) => u.designations.Some? && d in u.designations.value
  }

  /** The badge on a designation's card: how many users hold it. */
  function BadgeCount(users: seq<Account>, d: string): (r: int)
    ensures 0 <= r <= |users|
    ensures r == 0 <==> forall k | 0 <= k < |users| :: !Holds(d)(users[k])
  {
    var holders := Filter(users, Holds(d));
    assert holders == [] <==> forall k | 0 <= k < |users| :: !Holds(d)(users[k]) by {
      if holders != [] {
        assert holders[0] in holders;
      }
    }
    |holders|
  }

  /** One more user adds one to the badges it holds and nothing to the others. */
  lemma BadgeCountAppend(users: seq<Account>, u: Account, d: string)
    ensures BadgeCount(users + [u], d) == BadgeCount(users, d) + (if Holds(d)(u) then 1 else 0)
  {
    FilterAppend(users, [u], Holds(d));
  }

  /** Whoever a badge counts sees the Dashboard entry of the menu. */
  lemma BadgeHolderSeesDashboard(u: Account, i: int)
    requires 0 <= i < |Designations| && Holds(Designations[i])(u)
    ensures Menu.HasAccess(Menu.MenuTable[0], Some(u))
  {
    assert Menu.MenuTable[0].required.value[i] == Designations[i];
  }
}
