/** The sign-in page (`frontend/app/auth/page.tsx`): where a signed-in user is sent, and
    how the form becomes a login or registration call. */
module AuthPage {
  import opened Wrappers
  import Text
  import Store
  import Auth
  import SellerPage

  datatype Role = Customer | Seller | Admin

  /** The role as the server stores it. */
  function RoleName(r: Role): string {
    match r
    case Customer => Store.CustomerRole
    case Seller => Store.SellerRole
    case Admin => Store.AdminRole
  }

  /** `ROLE_PATHS`: each role's home. */
  function RolePath(r: Role): (path: string)
    ensures path == "/" <==> r == Customer
  {
    match r
    case Customer => "/"
    case Seller => "/seller"
    case Admin => "/admin"
  }

  /** Where to go after signing in: the `redirect` parameter when it is non-empty, else the
      role's home. */
  function Destination(redirect: Option<string>, role: Role): (path: string)
    ensures Text.Given(redirect) ==> path == redirect.value
    ensures !Text.Given(redirect) ==> path == RolePath(role)
  {
    if Text.Given(redirect) then redirect.value else RolePath(role)
  }

  /** `redirectPath`, used for a user who arrives already signed in; with no user it is "/". */
  function RedirectPath(redirect: Option<string>, user: Option<Role>): (path: string)
    ensures user.Some? ==> path == Destination(redirect, user.value)
    ensures user.None? && !Text.Given(redirect) ==> path == "/"
  {
    if Text.Given(redirect) then redirect.value
    else if user.Some? then RolePath(user.value) else "/"
  }

  /** The effect: once the session is known, a signed-in user leaves the page. */
  function Leave(loading: bool, user: Option<Role>, redirect: Option<string>): (r: Option<string>)
    ensures r.Some? <==> !loading && user.Some?
    ensures r.Some? ==> r.value == Destination(redirect, user.value)
  {
    if !loading && user.Some? then Some(RedirectPath(redirect, user)) else None
  }

  datatype Mode = Login | Register

  datatype Form = Form(mode: Mode, name: string, email: string, phone: string, password: string, referralCode: string)

  /** Why the form was not sent. */
  datatype Problem = CredentialsRequired | NameRequired

  /** The error text shown for each. */
  function Message(p: Problem): string {
    match p
    case CredentialsRequired => "ایمیل و رمز عبور الزامی است."
    case NameRequired => "نام و نام خانوادگی الزامی است."
  }

  /** What `submit` does before any response: show an error, or call login or register. */
  datatype Submission = Refused(problem: Problem) | LoginCall(email: string, password: string) | RegisterCall(req: Auth.Registration)

  /** `value.trim() || undefined`. */
  function OptionalField(text: string): (r: Option<string>)
    ensures r.None? <==> Text.IsBlank(text)
    ensures r.Some? ==> r.value == Text.Trim(text) && r.value != ""
  {
    Text.TrimEmptyIff(text);
    var t := Text.Trim(text);
    if t == "" then None else Some(t)
  }

  /** `submit`: credentials first, then (for registration) the name. The e-mail is trimmed,
      the password is sent exactly as typed. */
  function Submit(form: Form): (r: Submission)
    ensures r == Refused(CredentialsRequired) <==> Text.Trim(form.email) == "" || form.password == ""
    ensures r == Refused(NameRequired) <==>
      (Text.Trim(form.email) != "" && form.password != "" && form.mode.Register? && Text.Trim(form.name) == "")
    ensures r.LoginCall? <==> form.mode.Login? && Text.Trim(form.email) != "" && form.password != ""
    ensures r.LoginCall? ==> r.email == Text.Trim(form.email) && r.password == form.password
    ensures r.RegisterCall? ==>
      && r.req.email == Text.Trim(form.email) && r.req.email != ""
      && r.req.password == form.password && r.req.password != ""
      && r.req.name == Text.Trim(form.name) && r.req.name != ""
      && r.req.phone == OptionalField(form.phone)
      && r.req.referralCode == OptionalField(form.referralCode)
  {
    var email := Text.Trim(form.email);
    if email == "" || form.password == "" then Refused(CredentialsRequired)
    else if form.mode.Login? then LoginCall(email, form.password)
    else
      var name := Text.Trim(form.name);
      if name == "" then Refused(NameRequired)
      else RegisterCall(Auth.Registration(name, email, form.password,
                                          OptionalField(form.phone), OptionalField(form.referralCode)))
  }

  /** Only a blank e-mail or an empty password stops a login. */
  lemma BlankCredentialsRefused(form: Form)
    ensures Submit(form) == Refused(CredentialsRequired) <==> Text.IsBlank(form.email) || form.password == ""
  {
    Text.TrimEmptyIff(form.email);
  }

  /** The form with its text fields trimmed (the password is left alone). */
  function Trimmed(form: Form): Form {
    form.(name := Text.Trim(form.name), email := Text.Trim(form.email), phone := Text.Trim(form.phone),
          referralCode := Text.Trim(form.referralCode))
  }

  /** White space around the name, e-mail, phone or referral code changes nothing. */
  lemma SurroundingSpaceIgnored(form: Form)
    ensures Submit(Trimmed(form)) == Submit(form)
  {
    var t := Trimmed(form);
    assert Text.Trim(t.email) == Text.Trim(form.email) by { Text.TrimIdempotent(form.email); }
    assert Text.Trim(t.name) == Text.Trim(form.name) by { Text.TrimIdempotent(form.name); }
    assert OptionalField(t.phone) == OptionalField(form.phone) by { TrimmedOptional(form.phone); }
    assert OptionalField(t.referralCode) == OptionalField(form.referralCode) by {
      TrimmedOptional(form.referralCode);
    }
    SameFieldsSameSubmission(t, form);
  }

  lemma TrimmedOptional(text: string)
    ensures OptionalField(Text.Trim(text)) == OptionalField(text)
  {
    Text.TrimIdempotent(text);
    Text.TrimEmptyIff(text);
    Text.TrimEmptyIff(Text.Trim(text));
  }

  /** `Submit` reads only the trimmed text fields, the mode and the password. */
  lemma SameFieldsSameSubmission(a: Form, b: Form)
    requires a.mode == b.mode && a.password == b.password
    requires Text.Trim(a.email) == Text.Trim(b.email) && Text.Trim(a.name) == Text.Trim(b.name)
    requires OptionalField(a.phone) == OptionalField(b.phone)
    requires OptionalField(a.referralCode) == OptionalField(b.referralCode)
    ensures Submit(a) == Submit(b)
  {
  }

  /** A visitor the dashboard turned away comes back to the dashboard after signing in,
      whatever the role (reading the `redirect` parameter of its sign-in link). */
  lemma DashboardRoundTrip(role: Role)
    ensures SellerPage.SignInPath == "/auth?redirect=" + SellerPage.DashboardPath
    ensures Destination(Some(SellerPage.DashboardPath), role) == "/seller"
  {
  }

  /** A seller who signs in with no `redirect` is admitted by the dashboard it lands on. */
  lemma SellerLandsOnDashboard(token: string)
    requires token != ""
    ensures Destination(None, Seller) == SellerPage.DashboardPath
    ensures SellerPage.Admit(false, Some(RoleName(Seller)), Some(token)) == SellerPage.Load
  {
  }
}
