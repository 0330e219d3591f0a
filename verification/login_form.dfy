/** The sign-in page (client/src/pages/Login.jsx): the password strength
    score, when the form may be submitted, and the mismatch warning. */
module LoginForm {
  import opened Wrappers
  import opened Text
  import Server
  import Domain

  /** Sign in, create an account, or ask for a password reset. */
  datatype Mode = SignIn | SignUp | Forgot

  predicate HasUpper(p: string) { exists i | 0 <= i < |p| :: IsUpper(p[i]) }
  predicate HasLower(p: string) { exists i | 0 <= i < |p| :: IsLower(p[i]) }
  predicate HasDigit(p: string) { exists i | 0 <= i < |p| :: IsDigit(p[i]) }

  /** A character outside `[A-Za-z0-9]`. */
  predicate IsSymbol(c: char) { !IsUpper(c) && !IsLower(c) && !IsDigit(c) }
  predicate HasSymbol(p: string) { exists i | 0 <= i < |p| :: IsSymbol(p[i]) }

  function Point(b: bool): int { if b then 1 else 0 }

  /** How many of the four kinds of character the password contains. */
  function Kinds(p: string): int
  {
    Point(HasUpper(p)) + Point(HasLower(p)) + Point(HasDigit(p)) + Point(HasSymbol(p))
  }

  /** `passwordScore`: one point per criterion met (a `length` of at least
      eight UTF-16 code units, an upper-case letter, a lower-case letter, a
      digit, another character), capped at four. */
  function PasswordScore(p: string): (r: int)
    ensures 0 <= r <= 4
    ensures r == 0 <==> p == ""
    ensures r == 4 <==> (Utf16Length(p) >= 8 && Kinds(p) >= 3) || Kinds(p) == 4
    ensures Utf16Length(p) < 8 ==> r == Kinds(p)
    ensures Utf16Length(p) >= 8 ==> r == if Kinds(p) == 4 then 4 else Kinds(p) + 1
  {
    var s := Point(Utf16Length(p) >= 8) + Point(HasUpper(p)) + Point(HasLower(p)) + Point(HasDigit(p)) + Point(HasSymbol(p));
    assert p != "" ==> HasUpper(p) || HasLower(p) || HasDigit(p) || HasSymbol(p) by {
      if p != "" {
        assert IsUpper(p[0]) || IsLower(p[0]) || IsDigit(p[0]) || IsSymbol(p[0]);
      }
    }
    if s < 4 then s else 4
  }

  /** Four characters outside the BMP have a `length` of eight: the score
      counts the length and the symbols. */
  lemma SupplementaryCharactersCountTwice()
    ensures Utf16Length("\U{1F600}\U{1F600}\U{1F600}\U{1F600}") == 8
    ensures PasswordScore("\U{1F600}\U{1F600}\U{1F600}\U{1F600}") == 2
  {
    var p := "\U{1F600}\U{1F600}\U{1F600}\U{1F600}";
    FourEmojiLength(p);
    OnlySymbols(p);
  }

  lemma FourEmojiLength(p: string)
    requires p == "\U{1F600}\U{1F600}\U{1F600}\U{1F600}"
    ensures Utf16Length(p) == 8
  {
    assert forall i | 0 <= i < |p| :: p[i] == '\U{1F600}';
    AllSupplementary(p);
  }

  lemma OnlySymbols(p: string)
    requires p == "\U{1F600}\U{1F600}\U{1F600}\U{1F600}"
    ensures Kinds(p) == 1
  {
    assert IsSymbol(p[0]);
    assert !HasUpper(p) && !HasLower(p) && !HasDigit(p) by {
      forall i | 0 <= i < |p| ensures !IsUpper(p[i]) && !IsLower(p[i]) && !IsDigit(p[i]) {
      }
    }
  }

  lemma {:induction false} CriteriaSurviveAppend(p: string, c: char)
    ensures HasUpper(p) ==> HasUpper(p + [c])
    ensures HasLower(p) ==> HasLower(p + [c])
    ensures HasDigit(p) ==> HasDigit(p + [c])
    ensures HasSymbol(p) ==> HasSymbol(p + [c])
  {
    var q := p + [c];
    if HasUpper(p) { var i :| 0 <= i < |p| && IsUpper(p[i]); assert q[i] == p[i]; }
    if HasLower(p) { var i :| 0 <= i < |p| && IsLower(p[i]); assert q[i] == p[i]; }
    if HasDigit(p) { var i :| 0 <= i < |p| && IsDigit(p[i]); assert q[i] == p[i]; }
    if HasSymbol(p) { var i :| 0 <= i < |p| && IsSymbol(p[i]); assert q[i] == p[i]; }
  }

  /** Typing one more character never lowers the score. */
  lemma ScoreNeverDrops(p: string, c: char)
    ensures PasswordScore(p + [c]) >= PasswordScore(p)
  {
    CriteriaSurviveAppend(p, c);
    Utf16Append(p, c);
  }

  /** The colour of the strength bar shown while creating an account. */
  datatype Strength = Weak | Fair | Good | Strong

  function StrengthOf(score: int): (r: Strength)
    ensures r == Weak <==> score <= 1
    ensures r == Strong <==> score >= 4
  {
    if score <= 1 then Weak else if score == 2 then Fair else if score == 3 then Good else Strong
  }

  /** A password shorter than eight characters made of one kind of character
      is shown as weak. */
  lemma OneKindIsWeak(p: string)
    requires |p| < 8 && forall i | 0 <= i < |p| :: IsLower(p[i])
    ensures StrengthOf(PasswordScore(p)) == Weak
  {
    assert Utf16Length(p) == |p| by {
      assert forall i | 0 <= i < |p| :: InBmp(p[i]);
    }
    assert !HasUpper(p) && !HasDigit(p) && !HasSymbol(p) by {
      forall i | 0 <= i < |p| ensures !IsUpper(p[i]) && !IsDigit(p[i]) && !IsSymbol(p[i]) {
      }
    }
  }

  /** The fields of the form. */
  datatype Fields = Fields(email: string, name: string, password: string, confirm: string)

  /** `canSubmit`: a non-empty email everywhere; a password to sign in; a name,
      a password and an equal confirmation to create an account. */
  function CanSubmit(mode: Mode, f: Fields): (r: bool)
    ensures r ==> f.email != ""
    ensures mode == SignIn ==> (r <==> f.email != "" && f.password != "")
    ensures mode == SignUp ==> (r <==> f.email != "" && f.name != "" && f.password != "" && f.confirm == f.password)
    ensures mode == Forgot ==> (r <==> f.email != "")
  {
    match mode
    case SignIn => f.email != "" && f.password != ""
    case SignUp => f.email != "" && f.name != "" && f.password != "" && f.confirm != "" && f.password == f.confirm
    case Forgot => f.email != ""
  }

  /** The API client call `handleSubmit` makes, with the arguments it passes,
      or nothing. */
  datatype Request = NoRequest | LoginRequest(email: string, password: string)
                   | RegisterRequest(name: string, email: string, password: string) | ResetRequest(email: string)

  function Submit(mode: Mode, f: Fields): (r: Request)
    ensures r == NoRequest <==> !CanSubmit(mode, f)
    ensures r.LoginRequest? <==> mode == SignIn && CanSubmit(mode, f)
    ensures r.RegisterRequest? <==> mode == SignUp && CanSubmit(mode, f)
    ensures r.ResetRequest? <==> mode == Forgot && CanSubmit(mode, f)
    ensures r != NoRequest ==> r.email == f.email
    ensures r.LoginRequest? || r.RegisterRequest? ==> r.password == f.password
    ensures r.RegisterRequest? ==> r.name == f.name
  {
    if !CanSubmit(mode, f) then NoRequest
    else match mode
      case SignIn => LoginRequest(f.email, f.password)
      case SignUp => RegisterRequest(f.name, f.email, f.password)
      case Forgot => ResetRequest(f.email)
  }

  /** The submit button is enabled only when the form may be submitted and no
      request is under way. */
  function SubmitEnabled(mode: Mode, f: Fields, loading: bool): (r: bool)
    ensures loading ==> !r
    ensures !loading ==> (r <==> Submit(mode, f) != NoRequest)
  {
    !loading && CanSubmit(mode, f)
  }

  /** "As senhas não coincidem": a confirmation has been typed and differs. */
  function ShowMismatch(f: Fields): (r: bool)
    ensures r ==> !CanSubmit(SignUp, f)
    ensures f.confirm != "" ==> (r <==> f.confirm != f.password)
    ensures f.confirm == "" ==> !r
  {
    f.confirm != "" && f.confirm != f.password
  }

  /** A form that may create an account never shows the mismatch warning. */
  lemma SubmittableShowsNoMismatch(f: Fields)
    requires CanSubmit(SignUp, f)
    ensures !ShowMismatch(f)
  {
  }

  // ---------------------------------------------------------------------------
  // What reaches the server

  /** The JSON body of `POST /api/auth/register`. The API client's
      `register(full_name, email, password)` posts its three arguments under
      those keys; an undefined argument is left out of the JSON. */
  datatype RegisterBody = RegisterBody(fullName: Option<string>, email: Option<string>, password: Option<string>)

  /** A value standing for the object `{ name, email, password }` under
      `full_name`: the server only tests that field for truthiness, and an
      object is truthy. */
  const ObjectArgument: string := "[object Object]"

  /** The body the page sends: `api.register({ name, email, password })` hands
      a single object to the three-argument client function, so the object
      lands under `full_name` and the email and password are undefined. */
  function SentRegisterBody(q: Request): (b: RegisterBody)
    requires q.RegisterRequest?
    ensures Server.Given(b.fullName) && b.email.None? && b.password.None?
  {
    RegisterBody(Some(ObjectArgument), None, None)
  }

  /** The body of the evidently intended call `api.register(name, email,
      password)`. */
  function CorrectedRegisterBody(q: Request): (b: RegisterBody)
    requires q.RegisterRequest?
    ensures b.fullName == Some(q.name) && b.email == Some(q.email) && b.password == Some(q.password)
  {
    RegisterBody(Some(q.name), Some(q.email), Some(q.password))
  }

  /** The server's registration on a body; the body has no `name` key. */
  function RegisterOn(s: Server.Store, b: RegisterBody, hash: string -> string): (Server.RegisterResult, Server.Store)
  {
    Server.Register(s, b.fullName, None, b.email, b.password, hash)
  }

  /** As the page is written, every sign-up is refused as incomplete ("Dados
      incompletos") and the store is left unchanged. */
  lemma EverySignUpIsIncomplete(s: Server.Store, f: Fields, hash: string -> string)
    requires Submit(SignUp, f).RegisterRequest?
    ensures RegisterOn(s, SentRegisterBody(Submit(SignUp, f)), hash) == (Server.Incomplete, s)
  {
  }

  /** With the corrected call, a sign-up the form lets through is never refused
      as incomplete: it is refused exactly when the email is already taken and
      stored otherwise. */
  lemma RegistrationIsComplete(s: Server.Store, f: Fields, hash: string -> string)
    requires Submit(SignUp, f).RegisterRequest?
    ensures var r := RegisterOn(s, CorrectedRegisterBody(Submit(SignUp, f)), hash).0;
      && r != Server.Incomplete
      && (r == Server.EmailTaken <==> exists i | 0 <= i < |s.users| :: s.users[i].email == f.email)
      && (r.Registered? <==> forall i | 0 <= i < |s.users| :: s.users[i].email != f.email)
  {
    var r := RegisterOn(s, CorrectedRegisterBody(Submit(SignUp, f)), hash).0;
    if exists i | 0 <= i < |s.users| :: s.users[i].email == f.email {
      var i :| 0 <= i < |s.users| && s.users[i].email == f.email;
      assert !r.Registered?;
    }
  }

  // ---------------------------------------------------------------------------
  // How a submission ends

  /** Nothing happens, the page moves on to the dashboard, or the `catch`
      shows an error text and the mode is kept. */
  datatype Outcome = Ignored | ToDashboard | ErrorShown(text: string)

  const FallbackError: string := "Falha na operação. Verifique os dados e tente novamente."

  /** `error?.message || fallback`. */
  function ErrorText(message: string): (r: string)
    ensures r != ""
    ensures message != "" ==> r == message
  {
    if message != "" then message else FallbackError
  }

  /** `handleSubmit` against the server. A refused login or registration
      rejects the request with the HTTP client's error `failure`; the API
      client defines no `requestPasswordReset`, so that call throws a type
      error whose message is also `failure`. */
  function HandleSubmit(mode: Mode, f: Fields, s: Server.Store, hash: string -> string,
                        matches: (string, string) -> bool, failure: string): (r: Outcome)
    ensures r == Ignored <==> !CanSubmit(mode, f)
    ensures r.ErrorShown? ==> r.text == ErrorText(failure)
    ensures mode == Forgot && CanSubmit(mode, f) ==> r == ErrorShown(ErrorText(failure))
  {
    var q := Submit(mode, f);
    if q.NoRequest? then Ignored
    else if q.LoginRequest? then
      if Server.LocalLogin(s, q.email, q.password, matches).LoggedIn? then ToDashboard else ErrorShown(ErrorText(failure))
    else if q.RegisterRequest? then
      if RegisterOn(s, SentRegisterBody(q), hash).0.Registered? then ToDashboard else ErrorShown(ErrorText(failure))
    else ErrorShown(ErrorText(failure))
  }

  /** The browser's constraint validation, which runs before the form's
      `submit` event: each `required` field shown in the mode is non-empty,
      the password (shown outside the reset mode) has a `length` of at least
      `minLength={8}`, and the `type="email"` field passes the browser's email
      check, given as `emailOk`. */
  function BrowserAccepts(mode: Mode, f: Fields, emailOk: string -> bool): (r: bool)
    ensures r ==> f.email != "" && emailOk(f.email)
    ensures r && mode != Forgot ==> Utf16Length(f.password) >= 8
    ensures r && mode == SignUp ==> f.name != "" && f.confirm != ""
    ensures mode == Forgot ==> (r <==> f.email != "" && emailOk(f.email))
  {
    && f.email != "" && emailOk(f.email)
    && (mode == Forgot || Utf16Length(f.password) >= 8)
    && (mode != SignUp || (f.name != "" && f.confirm != ""))
  }

  /** What pressing the submit button leads to: nothing while it is disabled,
      nothing when the browser refuses the fields, otherwise `handleSubmit`. */
  datatype Press = Disabled | Blocked | Handled(outcome: Outcome)

  function PressSubmit(mode: Mode, f: Fields, loading: bool, emailOk: string -> bool, s: Server.Store,
                       hash: string -> string, matches: (string, string) -> bool, failure: string): (r: Press)
    ensures r == Disabled <==> !SubmitEnabled(mode, f, loading)
    ensures r == Blocked <==> SubmitEnabled(mode, f, loading) && !BrowserAccepts(mode, f, emailOk)
    ensures r.Handled? ==> r.outcome == HandleSubmit(mode, f, s, hash, matches, failure) && r.outcome != Ignored
  {
    if !SubmitEnabled(mode, f, loading) then Disabled
    else if !BrowserAccepts(mode, f, emailOk) then Blocked
    else Handled(HandleSubmit(mode, f, s, hash, matches, failure))
  }

  /** With no request under way, the button is enabled exactly when the
      submit handler would not ignore the form; a press reaches the handler
      exactly when the button is enabled and the browser accepts the fields. */
  lemma EnabledButtonIsHandled(mode: Mode, f: Fields, emailOk: string -> bool, s: Server.Store,
                               hash: string -> string, matches: (string, string) -> bool, failure: string)
    ensures SubmitEnabled(mode, f, false) <==> HandleSubmit(mode, f, s, hash, matches, failure) != Ignored
    ensures !SubmitEnabled(mode, f, true)
    ensures PressSubmit(mode, f, false, emailOk, s, hash, matches, failure).Handled? <==>
      SubmitEnabled(mode, f, false) && BrowserAccepts(mode, f, emailOk)
  {
  }

  /** A password whose `length` is under eight never reaches `handleSubmit`
      when signing in or creating an account, however the button looks. */
  lemma ShortPasswordBlocked(mode: Mode, f: Fields, loading: bool, emailOk: string -> bool, s: Server.Store,
                             hash: string -> string, matches: (string, string) -> bool, failure: string)
    requires mode != Forgot && Utf16Length(f.password) < 8
    ensures !PressSubmit(mode, f, loading, emailOk, s, hash, matches, failure).Handled?
  {
  }

  /** No sign-up ever reaches the dashboard: every submitted one ends in the
      error message, and so does every press the browser lets through. */
  lemma SignUpAlwaysFails(f: Fields, emailOk: string -> bool, s: Server.Store, hash: string -> string,
                          matches: (string, string) -> bool, failure: string)
    requires CanSubmit(SignUp, f)
    ensures HandleSubmit(SignUp, f, s, hash, matches, failure) == ErrorShown(ErrorText(failure))
    ensures BrowserAccepts(SignUp, f, emailOk) ==>
      PressSubmit(SignUp, f, false, emailOk, s, hash, matches, failure) == Handled(ErrorShown(ErrorText(failure)))
  {
    EverySignUpIsIncomplete(s, f, hash);
  }

  /** Signing in with the email and password of a local account that has one
      reaches the dashboard; a wrong password shows the error. A press gets
      there only when the password has a `length` of eight or more and the
      browser accepts the email; a shorter password is stopped by the browser. */
  lemma SignInWithRightPassword(f: Fields, emailOk: string -> bool, s: Server.Store, u: Domain.User,
                                hash: string -> string, matches: (string, string) -> bool, failure: string)
    requires Server.UniqueEmails(s.users) && u in s.users && u.provider == "local" && u.password != ""
    requires f.email == u.email && f.email != "" && f.password != ""
    ensures matches(f.password, u.password) ==> HandleSubmit(SignIn, f, s, hash, matches, failure) == ToDashboard
    ensures !matches(f.password, u.password) ==> HandleSubmit(SignIn, f, s, hash, matches, failure) == ErrorShown(ErrorText(failure))
    ensures matches(f.password, u.password) && Utf16Length(f.password) >= 8 && emailOk(f.email) ==>
      PressSubmit(SignIn, f, false, emailOk, s, hash, matches, failure) == Handled(ToDashboard)
    ensures Utf16Length(f.password) < 8 || !emailOk(f.email) ==>
      PressSubmit(SignIn, f, false, emailOk, s, hash, matches, failure) == Blocked
  {
    Server.LocalAccountLogin(s, u, f.password, matches);
  }
}
