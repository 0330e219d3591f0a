/** The guard around the protected pages
    (client/src/components/layout/ProtectedRoute.jsx): it decides, in a fixed
    order, whether the signed-in account may see a page. */
module RouteGuard {
  import opened Wrappers
  import opened Domain

  /** Some required designation is among those held. */
  predicate HoldsAny(required: seq<string>, held: seq<string>)
  {
    exists i | 0 <= i < |required| :: required[i] in held
  }

  /** The outcome: a spinner while the account loads, one of three refusals,
      or the page. */
  datatype Decision = Loading | NotLoggedIn | AdminRequired | MissingDesignation | Allowed

  /** The checks in the order the component makes them: loading, no account, an
      admin-only page for a non-admin, then a non-empty list of designations
      none of which a non-admin holds. */
  function Decide(loading: bool, user: Option<Account>, required: seq<string>, requireAdmin: bool): (d: Decision)
    ensures d == Loading <==> loading
    ensures d == NotLoggedIn <==> !loading && user.None?
    ensures d == AdminRequired <==> !loading && user.Some? && requireAdmin && !IsAdmin(user.value)
    ensures d == MissingDesignation <==>
      !loading && user.Some? && !(requireAdmin && !IsAdmin(user.value)) &&
      |required| > 0 && !IsAdmin(user.value) && !HoldsAny(required, DesignationsOf(user.value))
    ensures d == Allowed <==>
      !loading && user.Some? && (!requireAdmin || IsAdmin(user.value)) &&
      (|required| == 0 || IsAdmin(user.value) || HoldsAny(required, DesignationsOf(user.value)))
  {
    if loading then Loading
    else if user.None? then NotLoggedIn
    else
      var u := user.value;
      if requireAdmin && u.role != "admin" then AdminRequired
      else if |required| > 0 && !(u.role == "admin" || HoldsAny(required, DesignationsOf(u))) then MissingDesignation
      else Allowed
  }

  /** Once the account is loaded, an admin passes every check. */
  lemma AdminAlwaysAllowed(u: Account, required: seq<string>, requireAdmin: bool)
    requires IsAdmin(u)
    ensures Decide(false, Some(u), required, requireAdmin) == Allowed
  {
  }

  /** A page with no requirement admits every signed-in account. */
  lemma NoRequirementAdmitsEveryone(u: Account)
    ensures Decide(false, Some(u), [], false) == Allowed
  {
  }

  function WithDesignations(u: Account, ds: Option<seq<string>>): Account
  {
    Account(u.id, u.fullName, u.email, u.role, ds)
  }

  /** Granting one more designation never turns an admission into a refusal. */
  lemma GrantKeepsAccess(u: Account, extra: string, required: seq<string>, requireAdmin: bool)
    requires Decide(false, Some(u), required, requireAdmin) == Allowed
    ensures Decide(false, Some(WithDesignations(u, Some(DesignationsOf(u) + [extra]))), required, requireAdmin) == Allowed
  {
    var held := DesignationsOf(u);
    if |required| > 0 && !IsAdmin(u) {
      var i :| 0 <= i < |required| && required[i] in held;
      assert required[i] in held + [extra];
    }
  }

  /** An account whose designation list is missing is judged as one with an
      empty list. */
  lemma MissingDesignationsAreEmpty(u: Account, required: seq<string>, requireAdmin: bool)
    requires u.designations.None?
    ensures Decide(false, Some(u), required, requireAdmin) == Decide(false, Some(WithDesignations(u, Some([]))), required, requireAdmin)
    ensures !IsAdmin(u) && |required| > 0 ==> Decide(false, Some(u), required, requireAdmin) != Allowed
  {
  }

  // The requirements of the three protected pages.
  const DashboardPage: seq<string> := [GestorEventos, VisualizadorEventos, OperadorMapeamento]
  const ManagePage: seq<string> := [GestorEventos, OperadorMapeamento]
  const MappingPage: seq<string> := [GestorEventos, VisualizadorEventos, OperadorMapeamento]

  /** A viewer may open the dashboard and the mapping page but not the
      management page. */
  lemma ViewerReachesReadOnlyPages(u: Account)
    requires !IsAdmin(u) && DesignationsOf(u) == [VisualizadorEventos]
    ensures Decide(false, Some(u), DashboardPage, false) == Allowed
    ensures Decide(false, Some(u), MappingPage, false) == Allowed
    ensures Decide(false, Some(u), ManagePage, false) == MissingDesignation
  {
    assert DashboardPage[1] in DesignationsOf(u);
    assert MappingPage[1] in DesignationsOf(u);
  }
}
