/** The Express handlers of server/server.js as transitions over an in-memory
    picture of the three tables. Password hashing and checking, token signing
    and verification, and the Google identity exchange are parameters. */
module Server {
  import opened Wrappers
  import opened Seqs
  import opened Domain
  import Dashboard
  import RouteGuard
  import EventCard

  /** The users, events and bookings tables, with the next value each
      AUTOINCREMENT key will take. */
  datatype Store = Store(
    users: seq<User>,
    events: seq<Event>,
    bookings: seq<Booking>,
    nextUserId: int,
    nextEventId: int,
    nextBookingId: int)

  // ---------------------------------------------------------------------------
  // Store invariants

  /** The UNIQUE constraint on `users.email`. */
  ghost predicate UniqueEmails(users: seq<User>)
  {
    forall i, j | 0 <= i < j < |users| :: users[i].email != users[j].email
  }

  function UserIdsDiffer(): (User, User) -> bool
  {
    (a: User, b: User) => a.id != b.id
  }

  function EventIdsDiffer(): (Event, Event) -> bool
  {
    (a: Event, b: Event) => a.id != b.id
  }

  function BookingIdsDiffer(): (Booking, Booking) -> bool
  {
    (a: Booking, b: Booking) => a.id != b.id
  }

  /** Primary keys: distinct, and below the next AUTOINCREMENT value. */
  ghost predicate UserKeys(users: seq<User>, next: int)
  {
    (forall i | 0 <= i < |users| :: users[i].id < next) && Pairwise(users, UserIdsDiffer())
  }

  ghost predicate EventKeys(events: seq<Event>, next: int)
  {
    (forall i | 0 <= i < |events| :: events[i].id < next) && Pairwise(events, EventIdsDiffer())
  }

  ghost predicate BookingKeys(bookings: seq<Booking>, next: int)
  {
    (forall i | 0 <= i < |bookings| :: bookings[i].id < next) && Pairwise(bookings, BookingIdsDiffer())
  }

  ghost predicate Valid(s: Store)
  {
    && UniqueEmails(s.users)
    && UserKeys(s.users, s.nextUserId)
    && EventKeys(s.events, s.nextEventId)
    && BookingKeys(s.bookings, s.nextBookingId)
    && EventsKnown(s.events, s.bookings)
  }

  // ---------------------------------------------------------------------------
  // `authenticateToken`

  /** What a valid token carries (the payload `signToken` writes). */
  datatype TokenClaims = TokenClaims(id: int, fullName: string, email: string, role: string)

  function TakeWord(s: string): (r: string)
    ensures |r| <= |s| && r == s[..|r|]
    ensures forall i | 0 <= i < |r| :: r[i] != ' '
    ensures |r| < |s| ==> s[|r|] == ' '
  {
    if |s| == 0 || s[0] == ' ' then "" else [s[0]] + TakeWord(s[1..])
  }

  const BearerPrefix: string := "Bearer "

  predicate StartsWith(s: string, prefix: string)
  {
    |prefix| <= |s| && s[..|prefix|] == prefix
  }

  /** The token a request presents: the second space-separated piece of a
      "Bearer " header, else a non-empty cookie. */
  function TokenOf(header: Option<string>, cookie: Option<string>): (r: Option<string>)
    ensures header.Some? && StartsWith(header.value, BearerPrefix) ==> r == Some(TakeWord(header.value[|BearerPrefix|..]))
    ensures !(header.Some? && StartsWith(header.value, BearerPrefix)) ==>
      r == if cookie.Some? && cookie.value != "" then cookie else None
  {
    if header.Some? && StartsWith(header.value, BearerPrefix) then Some(TakeWord(header.value[|BearerPrefix|..]))
    else if cookie.Some? && cookie.value != "" then cookie
    else None
  }

  datatype AuthResult = Unauthorized | Forbidden | Authenticated(claims: TokenClaims)

  /** No token (or an empty one) gives 401, a token that does not verify 403. */
  function Authenticate(header: Option<string>, cookie: Option<string>, verify: string -> Option<TokenClaims>): (r: AuthResult)
    ensures r == Unauthorized <==> TokenOf(header, cookie).None? || TokenOf(header, cookie) == Some("")
    ensures r == Forbidden <==> TokenOf(header, cookie).Some? && TokenOf(header, cookie).value != "" && verify(TokenOf(header, cookie).value).None?
    ensures r.Authenticated? ==> Some(r.claims) == verify(TokenOf(header, cookie).value)
  {
    var token := TokenOf(header, cookie);
    if token.None? || token.value == "" then Unauthorized
    else match verify(token.value)
      case None => Forbidden
      case Some(c) => Authenticated(c)
  }

  /** A "Bearer " header wins: the cookie is not consulted, even when the header
      holds no usable token. */
  lemma BearerHeaderWins(h: string, c1: Option<string>, c2: Option<string>, verify: string -> Option<TokenClaims>)
    requires StartsWith(h, BearerPrefix)
    ensures Authenticate(Some(h), c1, verify) == Authenticate(Some(h), c2, verify)
  {
  }

  /** A bare "Bearer " header is refused with 401 even next to a good cookie. */
  lemma EmptyBearerRefused(cookie: Option<string>, verify: string -> Option<TokenClaims>)
    ensures Authenticate(Some(BearerPrefix), cookie, verify) == Unauthorized
  {
    assert BearerPrefix[|BearerPrefix|..] == "";
  }

  // ---------------------------------------------------------------------------
  // Users

  function EmailIs(email: string): User -> bool
  {
    (u: User) => u.email == email
  }

  function LocalWithEmail(email: string): User -> bool
  {
    (u: User) => u.email == email && u.provider == "local"
  }

  function GoogleWithSub(sub: string): User -> bool
  {
    (u: User) => u.provider == "google" && u.providerId == Some(sub)
  }

  datatype LoginResult = UserNotFound | SocialAccount | WrongPassword | LoggedIn(user: User)

  /** Position `i` holds the first local account with this email, the row
      `SELECT * FROM users WHERE email = ? AND provider = 'local'` returns. */
  ghost predicate FirstLocalWith(users: seq<User>, email: string, i: int)
  {
    && 0 <= i < |users| && users[i].email == email && users[i].provider == "local"
    && forall j | 0 <= j < i :: !(users[j].email == email && users[j].provider == "local")
  }

  /** Local login looks only at local accounts; an account without a password
      is a social one; otherwise the typed password decides. `matches(typed,
      stored)` is the bcrypt comparison. */
  function LocalLogin(s: Store, email: string, password: string, matches: (string, string) -> bool): (r: LoginResult)
    ensures r == UserNotFound <==> forall i | 0 <= i < |s.users| :: !(s.users[i].email == email && s.users[i].provider == "local")
    ensures forall i | FirstLocalWith(s.users, email, i) ::
      r == if s.users[i].password == "" then SocialAccount
           else if matches(password, s.users[i].password) then LoggedIn(s.users[i])
           else WrongPassword
    ensures r.LoggedIn? ==> r.user in s.users && r.user.email == email && r.user.provider == "local" &&
                            r.user.password != "" && matches(password, r.user.password)
  {
    match Find(s.users, LocalWithEmail(email))
    case None => UserNotFound
    case Some(u) =>
      assert forall i | FirstLocalWith(s.users, email, i) :: s.users[i] == u by {
        var k :| 0 <= k < |s.users| && s.users[k] == u && LocalWithEmail(email)(s.users[k]) &&
                 forall j | 0 <= j < k :: !LocalWithEmail(email)(s.users[j]);
        forall i | FirstLocalWith(s.users, email, i) ensures s.users[i] == u {
          assert LocalWithEmail(email)(s.users[i]);
          assert s.users[k].email == email && s.users[k].provider == "local";
          assert i == k;
        }
      }
      if u.password == "" then SocialAccount
      else if !matches(password, u.password) then WrongPassword
      else LoggedIn(u)
  }

  /** When emails are unique, a local account's own email leads to that
      account: without a stored password it is reported as social, and
      otherwise the right password signs in as it and any other is refused. */
  lemma LocalAccountLogin(s: Store, u: User, password: string, matches: (string, string) -> bool)
    requires UniqueEmails(s.users) && u in s.users && u.provider == "local"
    ensures u.password == "" ==> LocalLogin(s, u.email, password, matches) == SocialAccount
    ensures u.password != "" && matches(password, u.password) ==> LocalLogin(s, u.email, password, matches) == LoggedIn(u)
    ensures u.password != "" && !matches(password, u.password) ==> LocalLogin(s, u.email, password, matches) == WrongPassword
  {
    var i :| 0 <= i < |s.users| && s.users[i] == u;
    forall j | 0 <= j < i ensures s.users[j].email != u.email {
      assert s.users[j].email != s.users[i].email;
    }
    assert FirstLocalWith(s.users, u.email, i);
  }

  /** A value counts when it is present and non-empty. */
  predicate Given(v: Option<string>)
  {
    v.Some? && v.value != ""
  }

  datatype RegisterResult = Incomplete | EmailTaken | Registered(id: int)

  /** A registration body is complete when a name (`full_name`, else `name`),
      the email and the password are all given. */
  predicate Complete(fullName: Option<string>, name: Option<string>, email: Option<string>, password: Option<string>)
  {
    (Given(fullName) || Given(name)) && Given(email) && Given(password)
  }

  /** Registration: `full_name`, else `name`; all of name, email and password
      must be given; an email already in the table is refused; otherwise a local
      user with role "user" and no designations is added. `hash` is bcrypt. */
  function Register(s: Store, fullName: Option<string>, name: Option<string>, email: Option<string>,
                    password: Option<string>, hash: string -> string): (r: (RegisterResult, Store))
    ensures !Complete(fullName, name, email, password) ==> r == (Incomplete, s)
    ensures r.0 == Incomplete <==> !Complete(fullName, name, email, password)
    ensures r.0 == EmailTaken <==>
      Complete(fullName, name, email, password) && exists i | 0 <= i < |s.users| :: s.users[i].email == email.value
    ensures r.0.Registered? <==>
      Complete(fullName, name, email, password) && forall i | 0 <= i < |s.users| :: s.users[i].email != email.value
    ensures r.0 == EmailTaken ==> r.1 == s && exists i | 0 <= i < |s.users| :: s.users[i].email == email.value
    ensures r.0.Registered? ==>
      && r.0.id == s.nextUserId
      && r.1 == s.(users := s.users + [User(s.nextUserId, if Given(fullName) then fullName.value else name.value,
                                            email.value, hash(password.value), "user", [], "local", None)],
                   nextUserId := s.nextUserId + 1)
      && forall i | 0 <= i < |s.users| :: s.users[i].email != email.value
  {
    var full := if Given(fullName) then fullName else name;
    if !Given(full) || !Given(email) || !Given(password) then (Incomplete, s)
    else if Find(s.users, EmailIs(email.value)).Some? then (EmailTaken, s)
    else
      var u := User(s.nextUserId, full.value, email.value, hash(password.value), "user", [], "local", None);
      (Registered(s.nextUserId), s.(users := s.users + [u], nextUserId := s.nextUserId + 1))
  }

  /** What the Google identity token says about the person. */
  datatype GooglePayload = GooglePayload(email: string, name: Option<string>, sub: string)

  datatype GoogleResult = MissingCode | SignedIn(user: User)

  function LinkGoogle(u: User, sub: string): User
  {
    User(u.id, u.fullName, u.email, u.password, u.role, u.designations, "google", Some(sub))
  }

  /** `UPDATE users SET provider = 'google', provider_id = sub WHERE id = id`. */
  function LinkById(users: seq<User>, id: int, sub: string): (r: seq<User>)
    ensures |r| == |users|
    ensures forall i | 0 <= i < |users| :: r[i] == if users[i].id == id then LinkGoogle(users[i], sub) else users[i]
  {
    seq(|users|, i requires 0 <= i < |users| => if users[i].id == id then LinkGoogle(users[i], sub) else users[i])
  }

  /** The Google callback: the user already linked to this Google subject is
      reused as is; otherwise a user with the same email is linked to it, with
      nothing else changed; otherwise a new Google user is added. */
  function GoogleCallback(s: Store, code: Option<string>, p: GooglePayload): (r: (GoogleResult, Store))
    ensures !Given(code) ==> r == (MissingCode, s)
    ensures Given(code) && Find(s.users, GoogleWithSub(p.sub)).Some? ==>
      r == (SignedIn(Find(s.users, GoogleWithSub(p.sub)).value), s)
    ensures Given(code) && Find(s.users, GoogleWithSub(p.sub)).None? && Find(s.users, EmailIs(p.email)).Some? ==>
      var u := Find(s.users, EmailIs(p.email)).value;
      r == (SignedIn(LinkGoogle(u, p.sub)), s.(users := LinkById(s.users, u.id, p.sub)))
    ensures Given(code) && Find(s.users, GoogleWithSub(p.sub)).None? && Find(s.users, EmailIs(p.email)).None? ==>
      var u := User(s.nextUserId, if Given(p.name) then p.name.value else p.email, p.email, "", "user", [], "google", Some(p.sub));
      r == (SignedIn(u), s.(users := s.users + [u], nextUserId := s.nextUserId + 1))
  {
    if !Given(code) then (MissingCode, s)
    else match Find(s.users, GoogleWithSub(p.sub))
      case Some(u) => (SignedIn(u), s)
      case None =>
        match Find(s.users, EmailIs(p.email))
        case Some(u) => (SignedIn(LinkGoogle(u, p.sub)), s.(users := LinkById(s.users, u.id, p.sub)))
        case None =>
          var fullName := if Given(p.name) then p.name.value else p.email;
          var u := User(s.nextUserId, fullName, p.email, "", "user", [], "google", Some(p.sub));
          (SignedIn(u), s.(users := s.users + [u], nextUserId := s.nextUserId + 1))
  }

  function WithDesignations(u: User, ds: seq<string>): User
  {
    User(u.id, u.fullName, u.email, u.password, u.role, ds, u.provider, u.providerId)
  }

  /** PUT of a user: only the designation list of the row with that id is
      rewritten, a missing list as the empty one. */
  function PutUser(s: Store, id: int, designations: Option<seq<string>>): (r: Store)
    ensures r.events == s.events && r.bookings == s.bookings
    ensures r.nextUserId == s.nextUserId && r.nextEventId == s.nextEventId && r.nextBookingId == s.nextBookingId
    ensures |r.users| == |s.users|
    ensures forall i | 0 <= i < |s.users| ::
      r.users[i] == if s.users[i].id == id then WithDesignations(s.users[i], designations.GetOr([])) else s.users[i]
  {
    var ds := designations.GetOr([]);
    s.(users := seq(|s.users|, i requires 0 <= i < |s.users| =>
      if s.users[i].id == id then WithDesignations(s.users[i], ds) else s.users[i]))
  }

  /** A user update never changes a role, a password, an email or a provider. */
  lemma PutUserKeepsRole(s: Store, id: int, designations: Option<seq<string>>, i: int)
    requires 0 <= i < |s.users|
    ensures var u := PutUser(s, id, designations).users[i];
      u.id == s.users[i].id && u.role == s.users[i].role && u.email == s.users[i].email &&
      u.password == s.users[i].password && u.provider == s.users[i].provider
    ensures s.users[i].id == id ==> PutUser(s, id, designations).users[i].designations == designations.GetOr([])
  {
  }

  /** The profile `/api/auth/me` returns for a user row. */
  function AccountOf(u: User): (a: Account)
    ensures a.id == u.id && a.role == u.role && a.email == u.email && a.fullName == u.fullName
    ensures DesignationsOf(a) == u.designations
  {
    Account(u.id, u.fullName, u.email, u.role, Some(u.designations))
  }

  /** As written, the user update checks only that the caller is signed in:
      an ordinary account can grant itself every designation and then passes
      the management page's guard. */
  lemma AnyAccountCanGrantItself(s: Store, caller: TokenClaims, i: int)
    requires 0 <= i < |s.users| && s.users[i].id == caller.id && s.users[i].role == "user"
    ensures var u := PutUser(s, caller.id, Some([GestorEventos, VisualizadorEventos, OperadorMapeamento])).users[i];
      u.role == "user" && RouteGuard.Decide(false, Some(AccountOf(u)), RouteGuard.ManagePage, false) == RouteGuard.Allowed
  {
    var all := [GestorEventos, VisualizadorEventos, OperadorMapeamento];
    PutUserKeepsRole(s, caller.id, Some(all), i);
    var u := PutUser(s, caller.id, Some(all)).users[i];
    assert u.designations == all;
    assert RouteGuard.ManagePage[0] in DesignationsOf(AccountOf(u));
  }

  datatype PutResult = Updated | NotAdmin

  /** The user update as the access page means it: only an admin's token may
      change designations. */
  function AdminPutUser(s: Store, caller: TokenClaims, id: int, designations: Option<seq<string>>): (r: (PutResult, Store))
    ensures caller.role != "admin" ==> r == (NotAdmin, s)
    ensures caller.role == "admin" ==> r == (Updated, PutUser(s, id, designations))
  {
    if caller.role != "admin" then (NotAdmin, s) else (Updated, PutUser(s, id, designations))
  }

  /** With the check in place a non-admin changes nobody's designations, its
      own included. */
  lemma OnlyAdminsGrant(s: Store, caller: TokenClaims, id: int, designations: Option<seq<string>>, i: int)
    requires 0 <= i < |s.users|
    requires AdminPutUser(s, caller, id, designations).1.users[i].designations != s.users[i].designations
    ensures caller.role == "admin" && s.users[i].id == id
  {
  }

  const AdminEmail: string := "admin@admin.com"

  /** The administrator created at start-up when no user has its email;
      `hashed` is the bcrypt hash of its password. */
  function SeedAdmin(s: Store, hashed: string): (r: Store)
    ensures (exists i | 0 <= i < |s.users| :: s.users[i].email == AdminEmail) ==> r == s
    ensures (forall i | 0 <= i < |s.users| :: s.users[i].email != AdminEmail) ==>
      r == s.(users := s.users + [User(s.nextUserId, "Administrador", AdminEmail, hashed, "admin",
                                       [GestorEventos, VisualizadorEventos, OperadorMapeamento], "local", None)],
              nextUserId := s.nextUserId + 1)
  {
    if Find(s.users, EmailIs(AdminEmail)).Some? then s
    else
      var admin := User(s.nextUserId, "Administrador", AdminEmail, hashed, "admin",
                        [GestorEventos, VisualizadorEventos, OperadorMapeamento], "local", None);
      s.(users := s.users + [admin], nextUserId := s.nextUserId + 1)
  }

  /** Starting the server again adds no second administrator. */
  lemma SeedIdempotent(s: Store, h1: string, h2: string)
    ensures SeedAdmin(SeedAdmin(s, h1), h2) == SeedAdmin(s, h1)
  {
    var t := SeedAdmin(s, h1);
    if forall i | 0 <= i < |s.users| :: s.users[i].email != AdminEmail {
      assert t.users[|s.users|].email == AdminEmail;
    } else {
      var i :| 0 <= i < |s.users| && s.users[i].email == AdminEmail;
      assert t.users[i].email == AdminEmail;
    }
  }

  // ---------------------------------------------------------------------------
  // Events

  function ReplaceEvent(events: seq<Event>, id: int, d: EventData): (r: seq<Event>)
    ensures |r| == |events|
    ensures forall i | 0 <= i < |events| :: r[i] == if events[i].id == id then EventWithId(id, d) else events[i]
  {
    seq(|events|, i requires 0 <= i < |events| => if events[i].id == id then EventWithId(id, d) else events[i])
  }

  /** POST of an event: appended under the next id. */
  function CreateEvent(s: Store, d: EventData): (r: (int, Store))
    ensures r.0 == s.nextEventId
    ensures r.1 == s.(events := s.events + [EventWithId(s.nextEventId, d)], nextEventId := s.nextEventId + 1)
  {
    (s.nextEventId, s.(events := s.events + [EventWithId(s.nextEventId, d)], nextEventId := s.nextEventId + 1))
  }

  /** PUT of an event: every column but the id is rewritten. */
  function UpdateEvent(s: Store, id: int, d: EventData): (r: Store)
    ensures r == s.(events := ReplaceEvent(s.events, id, d))
  {
    s.(events := ReplaceEvent(s.events, id, d))
  }

  function EventIdIsNot(id: int): Event -> bool
  {
    (e: Event) => e.id != id
  }

  function BookingEventIsNot(id: int): Booking -> bool
  {
    (b: Booking) => b.eventId != id
  }

  /** DELETE of an event; the foreign key cascades to its bookings. */
  function DeleteEvent(s: Store, id: int): (r: Store)
    ensures forall e :: e in r.events <==> e in s.events && e.id != id
    ensures forall b :: b in r.bookings <==> b in s.bookings && b.eventId != id
    ensures IsSubsequence(r.events, s.events)
    ensures IsSubsequence(r.bookings, s.bookings)
    ensures r.users == s.users
    ensures r.nextUserId == s.nextUserId && r.nextEventId == s.nextEventId && r.nextBookingId == s.nextBookingId
  {
    FilterIsSubsequence(s.events, EventIdIsNot(id));
    FilterIsSubsequence(s.bookings, BookingEventIsNot(id));
    s.(events := Filter(s.events, EventIdIsNot(id)), bookings := Filter(s.bookings, BookingEventIsNot(id)))
  }

  // ---------------------------------------------------------------------------
  // Bookings

  datatype InsertError = UnknownEvent

  function BookingOf(id: int, q: BookingRequest): Booking
  {
    Booking(id, q.eventId, q.card, q.trip, q.responsible, q.passengers, q.claims, q.status, q.notes)
  }

  /** POST of a booking: stored as sent, seat claims included, under the next id.
      Nothing is checked but the foreign key to the event. */
  function CreateBooking(s: Store, q: BookingRequest): (r: Result<(Booking, Store), InsertError>)
    ensures r.Err? <==> !EventExists(s.events, q.eventId)
    ensures r.Ok? ==> r.value.0 == BookingOf(s.nextBookingId, q) && r.value.0.claims == q.claims
    ensures r.Ok? ==> r.value.1 == s.(bookings := s.bookings + [r.value.0], nextBookingId := s.nextBookingId + 1)
  {
    if !EventExists(s.events, q.eventId) then Err(UnknownEvent)
    else
      var b := BookingOf(s.nextBookingId, q);
      Ok((b, s.(bookings := s.bookings + [b], nextBookingId := s.nextBookingId + 1)))
  }

  /** Two requests claiming the same seat of the same bus are both stored. */
  lemma DoubleBookingAccepted(s: Store, q1: BookingRequest, q2: BookingRequest, bus: int, seat: int)
    requires EventExists(s.events, q1.eventId) && q2.eventId == q1.eventId
    requires HasSeat(q1.claims, bus, seat) && HasSeat(q2.claims, bus, seat)
    ensures CreateBooking(s, q1).Ok?
    ensures CreateBooking(CreateBooking(s, q1).value.1, q2).Ok?
    ensures var t := CreateBooking(CreateBooking(s, q1).value.1, q2).value.1;
      |t.bookings| == |s.bookings| + 2 &&
      HasSeat(t.bookings[|s.bookings|].claims, bus, seat) && HasSeat(t.bookings[|s.bookings| + 1].claims, bus, seat)
  {
  }

  /** The columns a booking update rewrites; the event and the card number
      are not among them. */
  datatype BookingChanges = BookingChanges(
    trip: string,
    responsible: Responsible,
    passengers: seq<Passenger>,
    claims: seq<SeatClaim>,
    status: string,
    notes: string)

  function Changed(b: Booking, c: BookingChanges): Booking
  {
    Booking(b.id, b.eventId, b.card, c.trip, c.responsible, c.passengers, c.claims, c.status, c.notes)
  }

  /** PUT of a booking: the row with that id gets the new columns, keeping its
      event and card number. */
  function UpdateBooking(s: Store, id: int, c: BookingChanges): (r: Store)
    ensures r.users == s.users && r.events == s.events && |r.bookings| == |s.bookings|
    ensures forall i | 0 <= i < |s.bookings| ::
      r.bookings[i] == if s.bookings[i].id == id then Changed(s.bookings[i], c) else s.bookings[i]
    ensures forall i | 0 <= i < |s.bookings| ::
      r.bookings[i].eventId == s.bookings[i].eventId && r.bookings[i].card == s.bookings[i].card
    ensures r.nextUserId == s.nextUserId && r.nextEventId == s.nextEventId && r.nextBookingId == s.nextBookingId
  {
    s.(bookings := seq(|s.bookings|, i requires 0 <= i < |s.bookings| =>
      if s.bookings[i].id == id then Changed(s.bookings[i], c) else s.bookings[i]))
  }

  function BookingIdIsNot(id: int): Booking -> bool
  {
    (b: Booking) => b.id != id
  }

  /** DELETE of a booking removes that row only. */
  function DeleteBooking(s: Store, id: int): (r: Store)
    ensures forall b :: b in r.bookings <==> b in s.bookings && b.id != id
    ensures IsSubsequence(r.bookings, s.bookings)
    ensures r.users == s.users && r.events == s.events
    ensures r.nextUserId == s.nextUserId && r.nextEventId == s.nextEventId && r.nextBookingId == s.nextBookingId
  {
    FilterIsSubsequence(s.bookings, BookingIdIsNot(id));
    s.(bookings := Filter(s.bookings, BookingIdIsNot(id)))
  }

  // ---------------------------------------------------------------------------
  // Every handler keeps the store valid

  /** Appending a user whose email is new and whose id is the next one keeps
      the user table's constraints and keys. */
  lemma {:induction false} AddUserKeepsValid(s: Store, u: User)
    requires Valid(s) && u.id == s.nextUserId
    requires forall i | 0 <= i < |s.users| :: s.users[i].email != u.email
    ensures Valid(s.(users := s.users + [u], nextUserId := s.nextUserId + 1))
  {
    var us := s.users + [u];
    forall i, j | 0 <= i < j < |us| ensures us[i].email != us[j].email && UserIdsDiffer()(us[i], us[j]) {
      if j == |s.users| {
        assert us[i] == s.users[i];
      } else {
        assert us[i] == s.users[i] && us[j] == s.users[j];
      }
    }
  }

  lemma RegisterKeepsValid(s: Store, fullName: Option<string>, name: Option<string>, email: Option<string>,
                           password: Option<string>, hash: string -> string)
    requires Valid(s)
    ensures Valid(Register(s, fullName, name, email, password, hash).1)
  {
    var r := Register(s, fullName, name, email, password, hash);
    if r.0.Registered? {
      AddUserKeepsValid(s, r.1.users[|s.users|]);
    }
  }

  lemma SeedKeepsValid(s: Store, hashed: string)
    requires Valid(s)
    ensures Valid(SeedAdmin(s, hashed))
  {
    if forall i | 0 <= i < |s.users| :: s.users[i].email != AdminEmail {
      AddUserKeepsValid(s, SeedAdmin(s, hashed).users[|s.users|]);
    }
  }

  /** Rewriting users in place without touching ids or emails keeps the
      constraints and keys. */
  lemma {:induction false} SameKeysKeepValid(s: Store, users: seq<User>)
    requires Valid(s) && |users| == |s.users|
    requires forall i | 0 <= i < |users| :: users[i].id == s.users[i].id && users[i].email == s.users[i].email
    ensures Valid(s.(users := users))
  {
    forall i, j | 0 <= i < j < |users| ensures UserIdsDiffer()(users[i], users[j]) {
      assert UserIdsDiffer()(s.users[i], s.users[j]);
    }
  }

  lemma GoogleKeepsValid(s: Store, code: Option<string>, p: GooglePayload)
    requires Valid(s)
    ensures Valid(GoogleCallback(s, code, p).1)
  {
    if Given(code) && Find(s.users, GoogleWithSub(p.sub)).None? {
      var byEmail := Find(s.users, EmailIs(p.email));
      if byEmail.Some? {
        SameKeysKeepValid(s, LinkById(s.users, byEmail.value.id, p.sub));
      } else {
        AddUserKeepsValid(s, GoogleCallback(s, code, p).1.users[|s.users|]);
      }
    }
  }

  lemma PutUserKeepsValid(s: Store, id: int, designations: Option<seq<string>>)
    requires Valid(s)
    ensures Valid(PutUser(s, id, designations))
  {
    SameKeysKeepValid(s, PutUser(s, id, designations).users);
  }

  lemma AdminPutUserKeepsValid(s: Store, caller: TokenClaims, id: int, designations: Option<seq<string>>)
    requires Valid(s)
    ensures Valid(AdminPutUser(s, caller, id, designations).1)
  {
    PutUserKeepsValid(s, id, designations);
  }

  /** After linking the only user with a given email, no local user has that
      email. */
  lemma {:induction false} NoLocalAfterLink(users: seq<User>, k: int, sub: string)
    requires UniqueEmails(users) && 0 <= k < |users|
    ensures forall i | 0 <= i < |users| ::
      !(LinkById(users, users[k].id, sub)[i].email == users[k].email && LinkById(users, users[k].id, sub)[i].provider == "local")
  {
    var t := LinkById(users, users[k].id, sub);
    forall i | 0 <= i < |users| ensures !(t[i].email == users[k].email && t[i].provider == "local") {
      if k < i {
        assert users[k].email != users[i].email;
      } else if i < k {
        assert users[i].email != users[k].email;
      }
    }
  }

  /** A user merged into a Google account can no longer sign in with a
      password: local login no longer finds the email. */
  lemma MergedAccountLosesPasswordLogin(s: Store, code: Option<string>, p: GooglePayload,
                                        password: string, matches: (string, string) -> bool)
    requires Valid(s) && Given(code)
    requires Find(s.users, GoogleWithSub(p.sub)).None? && Find(s.users, EmailIs(p.email)).Some?
    ensures LocalLogin(GoogleCallback(s, code, p).1, p.email, password, matches) == UserNotFound
  {
    var u := Find(s.users, EmailIs(p.email)).value;
    var k :| 0 <= k < |s.users| && s.users[k] == u;
    NoLocalAfterLink(s.users, k, p.sub);
  }

  lemma {:induction false} CreateEventKeepsValid(s: Store, d: EventData)
    requires Valid(s)
    ensures Valid(CreateEvent(s, d).1)
  {
    var t := CreateEvent(s, d).1;
    var es := t.events;
    forall i, j | 0 <= i < j < |es| ensures EventIdsDiffer()(es[i], es[j]) {
      assert es[i] == s.events[i];
      if j < |s.events| {
        assert es[j] == s.events[j];
      }
    }
    forall i | 0 <= i < |t.bookings| ensures EventExists(t.events, t.bookings[i].eventId) {
      var j :| 0 <= j < |s.events| && s.events[j].id == s.bookings[i].eventId;
      assert t.events[j] == s.events[j];
    }
  }

  lemma {:induction false} UpdateEventKeepsValid(s: Store, id: int, d: EventData)
    requires Valid(s)
    ensures Valid(UpdateEvent(s, id, d))
  {
    var t := UpdateEvent(s, id, d);
    forall i | 0 <= i < |t.events| ensures t.events[i].id == s.events[i].id {
    }
    forall i, j | 0 <= i < j < |t.events| ensures EventIdsDiffer()(t.events[i], t.events[j]) {
      assert EventIdsDiffer()(s.events[i], s.events[j]);
    }
    forall i | 0 <= i < |t.bookings| ensures EventExists(t.events, t.bookings[i].eventId) {
      var j :| 0 <= j < |s.events| && s.events[j].id == s.bookings[i].eventId;
      assert t.events[j].id == s.events[j].id;
    }
  }

  /** Deleting an event leaves no booking pointing at it, thanks to the
      cascade. */
  lemma {:induction false} DeleteEventKeepsValid(s: Store, id: int)
    requires Valid(s)
    ensures Valid(DeleteEvent(s, id))
    ensures forall i | 0 <= i < |DeleteEvent(s, id).bookings| :: DeleteEvent(s, id).bookings[i].eventId != id
  {
    var t := DeleteEvent(s, id);
    FilterPairwise(s.events, EventIdIsNot(id), EventIdsDiffer());
    FilterPairwise(s.bookings, BookingEventIsNot(id), BookingIdsDiffer());
    forall i | 0 <= i < |t.events| ensures t.events[i].id < t.nextEventId {
      assert t.events[i] in s.events;
    }
    forall i | 0 <= i < |t.bookings| ensures t.bookings[i].id < t.nextBookingId {
      assert t.bookings[i] in s.bookings;
    }
    forall i | 0 <= i < |t.bookings| ensures EventExists(t.events, t.bookings[i].eventId) {
      var b := t.bookings[i];
      assert b in s.bookings && b.eventId != id;
      var k :| 0 <= k < |s.bookings| && s.bookings[k] == b;
      var j :| 0 <= j < |s.events| && s.events[j].id == b.eventId;
      assert s.events[j] in t.events;
    }
  }

  lemma {:induction false} CreateBookingKeepsValid(s: Store, q: BookingRequest)
    requires Valid(s)
    ensures CreateBooking(s, q).Ok? ==> Valid(CreateBooking(s, q).value.1)
  {
    if CreateBooking(s, q).Ok? {
      var t := CreateBooking(s, q).value.1;
      var bs := t.bookings;
      forall i, j | 0 <= i < j < |bs| ensures BookingIdsDiffer()(bs[i], bs[j]) {
        assert bs[i] == s.bookings[i];
        if j < |s.bookings| {
          assert bs[j] == s.bookings[j];
        }
      }
      forall i | 0 <= i < |bs| ensures EventExists(t.events, bs[i].eventId) {
        if i < |s.bookings| {
          assert bs[i] == s.bookings[i];
        }
      }
    }
  }

  lemma {:induction false} UpdateBookingKeepsValid(s: Store, id: int, c: BookingChanges)
    requires Valid(s)
    ensures Valid(UpdateBooking(s, id, c))
  {
    var t := UpdateBooking(s, id, c);
    forall i, j | 0 <= i < j < |t.bookings| ensures BookingIdsDiffer()(t.bookings[i], t.bookings[j]) {
      assert BookingIdsDiffer()(s.bookings[i], s.bookings[j]);
    }
    forall i | 0 <= i < |t.bookings| ensures EventExists(t.events, t.bookings[i].eventId) {
      assert EventExists(s.events, s.bookings[i].eventId);
    }
  }

  lemma {:induction false} DeleteBookingKeepsValid(s: Store, id: int)
    requires Valid(s)
    ensures Valid(DeleteBooking(s, id))
  {
    var t := DeleteBooking(s, id);
    FilterPairwise(s.bookings, BookingIdIsNot(id), BookingIdsDiffer());
    forall i | 0 <= i < |t.bookings| ensures t.bookings[i].id < t.nextBookingId && EventExists(t.events, t.bookings[i].eventId) {
      var k :| 0 <= k < |s.bookings| && s.bookings[k] == t.bookings[i];
      assert EventExists(s.events, s.bookings[k].eventId);
    }
  }

  /** In any valid store the dashboard's occupied total equals the sum of the
      event cards' occupied counts. */
  lemma DashboardAgreesWithCards(s: Store)
    requires Valid(s)
    ensures Dashboard.Summary(s.events, s.bookings).occupied == SumBy(s.events, EventCard.CardOccupied(s.bookings))
  {
    assert Dashboard.DistinctIds(s.events) by {
      forall i, j | 0 <= i < j < |s.events| ensures s.events[i].id != s.events[j].id {
        assert EventIdsDiffer()(s.events[i], s.events[j]);
      }
    }
    Dashboard.OccupiedSplitsByEvent(s.events, s.bookings);
  }
}
