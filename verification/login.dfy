/** The login page: its form, the field validator, the demo-credentials
    button and the submit step with the response of the remote API as an
    input. */
module Login {
  import opened Text
  import opened Patterns
  import opened Forms
  import opened Rules

  datatype Field = Email | Password

  function Key(f: Field): string {
    match f
    case Email => "email"
    case Password => "password"
  }

  datatype Form = Form(email: string, password: string)

  const EmptyForm := Form("", "")

  function Get(form: Form, f: Field): string {
    match f
    case Email => form.email
    case Password => form.password
  }

  /** `{ ...form, [field]: value }`. */
  function Put(form: Form, f: Field, value: string): (r: Form)
    ensures Get(r, f) == value
    ensures forall g | g != f :: Get(r, g) == Get(form, g)
  {
    match f
    case Email => form.(email := value)
    case Password => form.(password := value)
  }

  /** A form both rules accept, stated without the messages. */
  predicate Acceptable(form: Form) {
    MatchesEmail(form.email) && |form.password| >= 6
  }

  /** `validateForm`: the e-mail rule, then the password rule without any
      composition check. The form is valid when the map is empty. */
  function Validate(form: Form): (errors: Errors)
    ensures errors.Keys <= {"email", "password"}
    ensures "email" in errors <==> !MatchesEmail(form.email)
    ensures "email" in errors ==> errors["email"] == (if IsBlank(form.email) then EmailRequired else EmailInvalid)
    ensures "password" in errors <==> |form.password| < 6
    ensures "password" in errors ==> errors["password"] == (if form.password == [] then PasswordRequired else PasswordTooShort)
    ensures errors == map[] <==> Acceptable(form)
  {
    var email := EmailError(form.email);
    var password := PasswordLengthError(form.password);
    ChainFacts(email, password);
    Chain(email, password)
  }

  /** The two `if (...) newErrors.key = message` steps. */
  function Chain(email: Option<string>, password: Option<string>): Errors {
    var e1 := Report(map[], "email", email);
    Report(e1, "password", password)
  }

  /** Each field's key is present exactly when its step had a message, and
      then holds that message; no key means no message at all. */
  lemma ChainFacts(email: Option<string>, password: Option<string>)
    ensures var e := Chain(email, password);
      && e.Keys <= {"email", "password"}
      && ("email" in e <==> email.Some?) && (email.Some? ==> e["email"] == email.value)
      && ("password" in e <==> password.Some?) && (password.Some? ==> e["password"] == password.value)
      && (e == map[] <==> email.None? && password.None?)
  {
    var e := Chain(email, password);
    assert e == map[] <==> "email" !in e && "password" !in e;
  }

  datatype State = State(form: Form, errors: Errors)

  const Initial := State(EmptyForm, map[])

  /** `handleInputChange(field, value)`: only that field changes, and only
      that field's shown error is blanked. */
  function HandleInputChange(st: State, f: Field, value: string): (r: State)
    ensures Get(r.form, f) == value
    ensures forall g | g != f :: Get(r.form, g) == Get(st.form, g)
    ensures r.errors.Keys == st.errors.Keys
    ensures forall k | k in st.errors && k != Key(f) :: r.errors[k] == st.errors[k]
    ensures !HasError(r.errors, Key(f))
    ensures !HasError(st.errors, Key(f)) ==> r.errors == st.errors
  {
    State(Put(st.form, f, value), ClearError(st.errors, Key(f)))
  }

  const DemoEmail := "demo@example.com"
  const DemoPassword := "demopassword"

  /** `handleDemoLogin`: the whole form is replaced by the demo credentials;
      the error map is left as it was. */
  function DemoLogin(st: State): (r: State)
    ensures r.errors == st.errors
    ensures Acceptable(r.form)
  {
    DemoCredentialsValid();
    st.(form := Form(DemoEmail, DemoPassword))
  }

  /** The demo credentials pass the validator. */
  lemma DemoCredentialsValid()
    ensures MatchesEmail(DemoEmail) && |DemoPassword| >= 6
  {
    assert EmailMatchAt(DemoEmail, 4, 12);
  }

  /** The body of the login request: the form itself. */
  datatype Request = Request(email: string, password: string)

  /** What a submit attempt leaves behind: the error map, the request sent
      (if any), whether the success screen shows, the user record set on
      success (whatever the response carried, possibly nothing) and the page
      reached after the delay. */
  datatype Outcome = Outcome(errors: Errors, request: Option<Request>, succeeded: bool, user: Option<User>, next: Option<Page>)

  const LoginFailed := "Login failed. Please check your credentials."

  /** `submit`: a form that fails validation sends nothing and shows the
      field errors; a valid form sends its fields as they are. A success
      sets the user to the response's `user` field, which may be missing,
      shows the success screen and later goes home; a failure replaces the
      error map with the server's message or the fixed fallback. */
  function Submit(form: Form, response: Response<Option<User>>): (r: Outcome)
    ensures r.request.None? <==> !Acceptable(form)
    ensures r.request.None? ==> r.errors == Validate(form) && !r.succeeded && r.user == None && r.next == None
    ensures r.request.Some? ==> r.request.value == Request(form.email, form.password)
    ensures r.request.Some? && response.Failed? ==>
      && r.errors == map[SubmitKey := FailureText(response.serverMessage, LoginFailed)]
      && !r.succeeded && r.user == None && r.next == None
    ensures r.request.Some? && response.Delivered? ==>
      r.errors == map[] && r.succeeded && r.user == response.data && r.next == Some(HomePage)
  {
    var errors := Validate(form);
    if errors != map[] then Outcome(errors, None, false, None, None)
    else
      var request := Request(form.email, form.password);
      match response
      case Delivered(user) => Outcome(map[], Some(request), true, user, Some(HomePage))
      case Failed(message) => Outcome(map[SubmitKey := FailureText(message, LoginFailed)], Some(request), false, None, None)
  }

  /** After the demo button, a submit always sends the demo credentials. */
  lemma DemoLoginSends(st: State, response: Response<Option<User>>)
    ensures Submit(DemoLogin(st).form, response).request == Some(Request(DemoEmail, DemoPassword))
  {
  }

  /** The login rule is weaker than the sign-up rule: a password with no
      upper-case letter or digit passes here. */
  lemma LoginAcceptsPlainPassword()
    ensures Acceptable(Form(DemoEmail, "abcdef"))
    ensures !MatchesComposition("abcdef")
  {
    DemoCredentialsValid();
    NoUpperInPlain();
    if MatchesComposition("abcdef") {
      CompositionHasEach("abcdef");
    }
  }

  lemma NoUpperInPlain()
    ensures !HasChar("abcdef", IsUpper)
  {
    var s := "abcdef";
    forall i | 0 <= i < |s| ensures !IsUpper(s[i]) {
      assert 'a' <= s[i] <= 'f';
    }
  }
}
