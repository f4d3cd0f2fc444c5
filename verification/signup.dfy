/** The sign-up page: its form, the field validator, the phone formatter
    applied while typing, the password strength meter, and the submit step
    with the response of the remote API as an input. */
module Signup {
  import opened Text
  import opened Patterns
  import opened Forms
  import opened Rules

  datatype Field = Name | Email | Phone | Password | ConfirmPassword

  /** The property name of a field in the form and error objects. */
  function Key(f: Field): string {
    match f
    case Name => "name"
    case Email => "email"
    case Phone => "phone"
    case Password => "password"
    case ConfirmPassword => "confirmPassword"
  }

  const FieldKeys: set<string> := {"name", "email", "phone", "password", "confirmPassword"}

  datatype Form = Form(name: string, email: string, phone: string, password: string, confirmPassword: string)

  const EmptyForm := Form("", "", "", "", "")

  function Get(form: Form, f: Field): string {
    match f
    case Name => form.name
    case Email => form.email
    case Phone => form.phone
    case Password => form.password
    case ConfirmPassword => form.confirmPassword
  }

  /** `{ ...form, [field]: value }`. */
  function Put(form: Form, f: Field, value: string): (r: Form)
    ensures Get(r, f) == value
    ensures forall g | g != f :: Get(r, g) == Get(form, g)
  {
    match f
    case Name => form.(name := value)
    case Email => form.(email := value)
    case Phone => form.(phone := value)
    case Password => form.(password := value)
    case ConfirmPassword => form.(confirmPassword := value)
  }

  const NameRequired := "Full name is required"
  const NameTooShort := "Name must be at least 2 characters"
  const PhoneRequired := "Phone number is required"
  const PhoneInvalid := "Please enter a valid phone number"
  const PasswordWeak := "Password must contain uppercase, lowercase, and numbers"
  const ConfirmRequired := "Please confirm your password"
  const ConfirmMismatch := "Passwords do not match"

  /** Blank after trimming is "required"; otherwise the digits of the text,
      with all punctuation dropped, must number 10 to 15. */
  function PhoneError(phone: string): (r: Option<string>)
    ensures IsBlank(phone) ==> r == Some(PhoneRequired)
    ensures !IsBlank(phone) && r != None ==> r == Some(PhoneInvalid)
    ensures r == None <==> 10 <= |Digits(phone)| <= 15
  {
    BlankHasNoDigits(phone);
    if Trim(phone) == [] then Some(PhoneRequired)
    else if !MatchesPhoneDigits(Digits(phone)) then Some(PhoneInvalid)
    else None
  }

  /** Empty, then shorter than six, then failing the composition pattern. */
  function PasswordError(password: string): (r: Option<string>)
    ensures password == [] ==> r == Some(PasswordRequired)
    ensures 0 < |password| < 6 ==> r == Some(PasswordTooShort)
    ensures |password| >= 6 && !MatchesComposition(password) ==> r == Some(PasswordWeak)
    ensures r == None <==> |password| >= 6 && MatchesComposition(password)
  {
    match PasswordLengthError(password)
    case Some(m) => Some(m)
    case None => if !MatchesComposition(password) then Some(PasswordWeak) else None
  }

  /** Empty is "please confirm"; otherwise any difference from the password
      is a mismatch. */
  function ConfirmError(password: string, confirm: string): (r: Option<string>)
    ensures confirm == [] ==> r == Some(ConfirmRequired)
    ensures confirm != [] && confirm != password ==> r == Some(ConfirmMismatch)
    ensures r == None <==> confirm == password && password != []
  {
    if confirm == [] then Some(ConfirmRequired)
    else if password != confirm then Some(ConfirmMismatch)
    else None
  }

  /** The message the validator records for one field, if any. */
  function FieldError(form: Form, f: Field): Option<string> {
    match f
    case Name => NameError(form.name, NameRequired, NameTooShort)
    case Email => EmailError(form.email)
    case Phone => PhoneError(form.phone)
    case Password => PasswordError(form.password)
    case ConfirmPassword => ConfirmError(form.password, form.confirmPassword)
  }

  /** A form every rule accepts, stated without the messages. */
  predicate Acceptable(form: Form) {
    && HasTwoNonSpace(form.name)
    && MatchesEmail(form.email)
    && 10 <= |Digits(form.phone)| <= 15
    && |form.password| >= 6 && MatchesComposition(form.password)
    && form.confirmPassword == form.password
  }

  /** `validateForm`: the map of the fields that fail, each with the message
      of its first failing check. The form is valid when the map is empty. */
  function Validate(form: Form): (errors: Errors)
    ensures errors.Keys <= FieldKeys
    ensures forall f :: Key(f) in errors <==> FieldError(form, f).Some?
    ensures forall f | Key(f) in errors :: errors[Key(f)] == FieldError(form, f).value
    ensures errors == map[] <==> Acceptable(form)
  {
    CollectByField(form);
    AcceptableIffNoFieldError(form);
    Collect(form)
  }

  /** The checks of `validateForm`, field by field in source order. */
  function Collect(form: Form): Errors {
    Chain(FieldError(form, Name), FieldError(form, Email), FieldError(form, Phone),
          FieldError(form, Password), FieldError(form, ConfirmPassword))
  }

  /** The five `if (...) newErrors.key = message` steps, one per field. */
  function Chain(name: Option<string>, email: Option<string>, phone: Option<string>,
                 password: Option<string>, confirm: Option<string>): Errors
  {
    var e1 := Report(map[], "name", name);
    var e2 := Report(e1, "email", email);
    var e3 := Report(e2, "phone", phone);
    var e4 := Report(e3, "password", password);
    Report(e4, "confirmPassword", confirm)
  }

  /** Each field's key is present exactly when its step had a message, and
      then holds that message. */
  lemma ChainFacts(name: Option<string>, email: Option<string>, phone: Option<string>,
                   password: Option<string>, confirm: Option<string>)
    ensures var e := Chain(name, email, phone, password, confirm);
      && e.Keys <= FieldKeys
      && ("name" in e <==> name.Some?) && (name.Some? ==> e["name"] == name.value)
      && ("email" in e <==> email.Some?) && (email.Some? ==> e["email"] == email.value)
      && ("phone" in e <==> phone.Some?) && (phone.Some? ==> e["phone"] == phone.value)
      && ("password" in e <==> password.Some?) && (password.Some? ==> e["password"] == password.value)
      && ("confirmPassword" in e <==> confirm.Some?) && (confirm.Some? ==> e["confirmPassword"] == confirm.value)
  {
  }

  lemma CollectByField(form: Form)
    ensures Collect(form).Keys <= FieldKeys
    ensures forall f :: Key(f) in Collect(form) <==> FieldError(form, f).Some?
    ensures forall f | Key(f) in Collect(form) :: Collect(form)[Key(f)] == FieldError(form, f).value
  {
    var e := Collect(form);
    ChainFacts(FieldError(form, Name), FieldError(form, Email), FieldError(form, Phone),
               FieldError(form, Password), FieldError(form, ConfirmPassword));
    forall f
      ensures Key(f) in e <==> FieldError(form, f).Some?
      ensures Key(f) in e ==> e[Key(f)] == FieldError(form, f).value
    {
      match f
      case Name =>
      case Email =>
      case Phone =>
      case Password =>
      case ConfirmPassword =>
    }
  }

  /** The form is acceptable exactly when no field has a message. */
  lemma AcceptableIffNoFieldError(form: Form)
    ensures Acceptable(form) <==> forall f :: FieldError(form, f).None?
  {
    var name := FieldError(form, Name).None?;
    var email := FieldError(form, Email).None?;
    var phone := FieldError(form, Phone).None?;
    var password := FieldError(form, Password).None?;
    var confirm := FieldError(form, ConfirmPassword).None?;
    assert Acceptable(form) <==> name && email && phone && password && confirm;
    assert (forall f :: FieldError(form, f).None?) <==> name && email && phone && password && confirm by {
      if name && email && phone && password && confirm {
        forall f ensures FieldError(form, f).None? {
          match f
          case Name =>
          case Email =>
          case Phone =>
          case Password =>
          case ConfirmPassword =>
        }
      }
    }
  }

  /** The phone formatting of `handleInputChange`: keep only the digits and,
      when there are at least ten, write the first ten as `(ddd) ddd-dddd`
      followed by the rest. */
  function FormatPhone(value: string): (r: string)
    ensures Digits(r) == Digits(value)
    ensures |Digits(value)| < 10 ==> r == Digits(value)
    ensures |Digits(value)| >= 10 ==>
      && |r| == |Digits(value)| + 4
      && r[0] == '(' && r[4] == ')' && r[5] == ' ' && r[9] == '-'
  {
    var d := Digits(value);
    if |d| >= 10 then
      var r := "(" + d[..3] + ") " + d[3..6] + "-" + d[6..10] + d[10..];
      FormattedDigits(d);
      r
    else d
  }

  /** Stripping the punctuation of a formatted number gives back its digits. */
  lemma FormattedDigits(d: string)
    requires |d| >= 10 && forall i | 0 <= i < |d| :: IsDigit(d[i])
    ensures Digits("(" + d[..3] + ") " + d[3..6] + "-" + d[6..10] + d[10..]) == d
  {
    var a, b, c, rest := d[..3], d[3..6], d[6..10], d[10..];
    AllDigitsKept(d, 0, 3);
    AllDigitsKept(d, 3, 6);
    AllDigitsKept(d, 6, 10);
    AllDigitsKept(d, 10, |d|);
    assert d[10..|d|] == rest;
    var s1 := "(" + a;
    var s2 := s1 + ") ";
    var s3 := s2 + b;
    var s4 := s3 + "-";
    var s5 := s4 + c;
    assert Digits("(") == [] && Digits(") ") == [] && Digits("-") == [];
    DigitsAppend("(", a);
    assert Digits(s1) == a;
    DigitsAppend(s1, ") ");
    assert Digits(s2) == a;
    DigitsAppend(s2, b);
    assert Digits(s3) == a + b;
    DigitsAppend(s3, "-");
    assert Digits(s4) == a + b;
    DigitsAppend(s4, c);
    assert Digits(s5) == a + b + c;
    DigitsAppend(s5, rest);
    assert Digits(s5 + rest) == a + b + c + rest;
    SplitPhone(d);
  }

  lemma SplitPhone(d: string)
    requires |d| >= 10
    ensures d == d[..3] + d[3..6] + d[6..10] + d[10..]
  {
    assert d == d[..3] + d[3..];
    assert d[3..] == d[3..6] + d[6..];
    assert d[6..] == d[6..10] + d[10..];
  }

  /** A slice of an all-digit string strips to itself. */
  lemma AllDigitsKept(d: string, lo: int, hi: int)
    requires 0 <= lo <= hi <= |d|
    requires forall i | 0 <= i < |d| :: IsDigit(d[i])
    ensures Digits(d[lo..hi]) == d[lo..hi]
  {
    assert forall i | 0 <= i < hi - lo :: d[lo..hi][i] == d[lo + i];
  }

  /** Formatting an already formatted number changes nothing. */
  lemma FormatPhoneIdempotent(value: string)
    ensures FormatPhone(FormatPhone(value)) == FormatPhone(value)
  {
  }

  /** The page state the handlers change. */
  datatype State = State(form: Form, errors: Errors)

  const Initial := State(EmptyForm, map[])

  /** `handleInputChange(field, value)`: the field takes the value (a phone
      number formatted first) and a shown error of that field is blanked;
      every other field and error is untouched. */
  function HandleInputChange(st: State, f: Field, value: string): (r: State)
    ensures Get(r.form, f) == (if f == Phone then FormatPhone(value) else value)
    ensures forall g | g != f :: Get(r.form, g) == Get(st.form, g)
    ensures r.errors.Keys == st.errors.Keys
    ensures forall k | k in st.errors && k != Key(f) :: r.errors[k] == st.errors[k]
    ensures !HasError(r.errors, Key(f))
    ensures !HasError(st.errors, Key(f)) ==> r.errors == st.errors
  {
    var v := if f == Phone then FormatPhone(value) else value;
    State(Put(st.form, f, v), ClearError(st.errors, Key(f)))
  }

  /** The result of `getPasswordStrength`: the count and the meter's label. */
  datatype Strength = Strength(score: nat, text: string, color: string)

  /** The meter's labels, weakest first. */
  const Levels: seq<(string, string)> := [
    ("Very Weak", "bg-red-500"),
    ("Weak", "bg-orange-500"),
    ("Fair", "bg-yellow-500"),
    ("Good", "bg-blue-500"),
    ("Strong", "bg-green-500")
  ]

  /** The five strength criteria, in the order the meter tests them. */
  function Criteria(password: string): seq<bool> {
    [ |password| >= 6,
      HasChar(password, IsLower),
      HasChar(password, IsUpper),
      HasChar(password, IsDigit),
      HasChar(password, IsStrengthSymbol) ]
  }

  function CountTrue(bs: seq<bool>): (n: nat)
    ensures n <= |bs|
  {
    if bs == [] then 0 else (if bs[0] then 1 else 0) + CountTrue(bs[1..])
  }

  function Bit(b: bool): nat {
    if b then 1 else 0
  }

  lemma CountFive(a: bool, b: bool, c: bool, d: bool, e: bool)
    ensures CountTrue([a, b, c, d, e]) == Bit(a) + Bit(b) + Bit(c) + Bit(d) + Bit(e)
  {
    assert [a, b, c, d, e][1..] == [b, c, d, e];
    assert [b, c, d, e][1..] == [c, d, e];
    assert [c, d, e][1..] == [d, e];
    assert [d, e][1..] == [e];
    assert [e][1..] == [];
    assert CountTrue([e]) == Bit(e);
    assert CountTrue([d, e]) == Bit(d) + Bit(e);
    assert CountTrue([c, d, e]) == Bit(c) + Bit(d) + Bit(e);
    assert CountTrue([b, c, d, e]) == Bit(b) + Bit(c) + Bit(d) + Bit(e);
  }

  /** `strengths[i]`, undefined outside the array. */
  function LevelAt(i: int): Option<(string, string)> {
    if 0 <= i < |Levels| then Some(Levels[i]) else None
  }

  /** `getPasswordStrength`: an empty password has strength 0 and no label;
      otherwise the strength is the number of criteria met and the label is
      `strengths[strength - 1] || strengths[0]`. */
  function PasswordStrength(password: string): (r: Strength)
    ensures password == [] ==> r == Strength(0, "", "")
    ensures password != [] ==> r.score == CountTrue(Criteria(password))
    ensures r.score <= 5
    ensures password != [] ==> (r.text, r.color) == Levels[if r.score == 0 then 0 else r.score - 1]
  {
    if password == [] then Strength(0, "", "")
    else
      var strength :=
        Bit(|password| >= 6)
        + Bit(HasChar(password, IsLower))
        + Bit(HasChar(password, IsUpper))
        + Bit(HasChar(password, IsDigit))
        + Bit(HasChar(password, IsStrengthSymbol));
      var criteria := Criteria(password);
      CountFive(criteria[0], criteria[1], criteria[2], criteria[3], criteria[4]);
      assert criteria == [criteria[0], criteria[1], criteria[2], criteria[3], criteria[4]];
      var level := match LevelAt(strength - 1)
        case Some(l) => l
        case None => Levels[0];
      Strength(strength, level.0, level.1)
  }

  lemma HasCharExtend(s: string, more: string, cls: char -> bool)
    requires HasChar(s, cls)
    ensures HasChar(s + more, cls)
  {
    var i :| 0 <= i < |s| && cls(s[i]);
    assert (s + more)[i] == s[i];
  }

  /** Typing more characters never lowers the strength. */
  lemma StrengthMonotone(password: string, more: string)
    ensures PasswordStrength(password).score <= PasswordStrength(password + more).score
  {
    var longer := password + more;
    if HasChar(password, IsLower) { HasCharExtend(password, more, IsLower); }
    if HasChar(password, IsUpper) { HasCharExtend(password, more, IsUpper); }
    if HasChar(password, IsDigit) { HasCharExtend(password, more, IsDigit); }
    if HasChar(password, IsStrengthSymbol) { HasCharExtend(password, more, IsStrengthSymbol); }
  }

  /** A password the validator accepts shows as "Good" or "Strong". */
  lemma AcceptedPasswordIsStrong(password: string)
    requires PasswordError(password) == None
    ensures PasswordStrength(password).score >= 4
    ensures PasswordStrength(password).text in {"Good", "Strong"}
  {
    CompositionHasEach(password);
  }

  /** The body of the sign-up request: the form as typed, except that the
      phone number is sent as its digits only. */
  datatype Request = Request(name: string, email: string, phone: string, password: string, confirmPassword: string)

  /** What a submit attempt leaves behind: the error map, the request sent
      (if any), whether the success screen shows, the user signed in and the
      page the success screen later navigates to. */
  datatype Outcome = Outcome(errors: Errors, request: Option<Request>, succeeded: bool, user: Option<User>, next: Option<Page>)

  const SignupFailed := "Signup failed. Please try again."

  /** `submit`: validation replaces the error map; a failing form sends
      nothing. A valid form sends its request; a success shows the success
      screen and signs the returned user in (or, with no user in the
      response, goes to the login page); a failure replaces the error map
      with one submit message. */
  function Submit(form: Form, response: Response<Option<User>>): (r: Outcome)
    ensures r.request.None? <==> !Acceptable(form)
    ensures r.request.None? ==> r.errors == Validate(form) && !r.succeeded && r.user == None && r.next == None
    ensures r.request.Some? ==>
      && r.request.value.phone == Digits(form.phone)
      && (forall i | 0 <= i < |r.request.value.phone| :: IsDigit(r.request.value.phone[i]))
      && r.request.value.name == form.name && r.request.value.email == form.email
      && r.request.value.password == form.password
      && r.request.value.confirmPassword == form.confirmPassword
    ensures r.request.Some? && response.Failed? ==>
      && r.errors == map[SubmitKey := FailureText(response.serverMessage, SignupFailed)]
      && !r.succeeded && r.user == None && r.next == None
    ensures r.request.Some? && response.Delivered? ==>
      && r.errors == map[] && r.succeeded && r.user == response.data
      && r.next == Some(if response.data.Some? then HomePage else LoginPage)
  {
    var errors := Validate(form);
    if errors != map[] then Outcome(errors, None, false, None, None)
    else
      var request := Request(form.name, form.email, Digits(form.phone), form.password, form.confirmPassword);
      match response
      case Delivered(user) =>
        Outcome(map[], Some(request), true, user, Some(if user.Some? then HomePage else LoginPage))
      case Failed(message) =>
        Outcome(map[SubmitKey := FailureText(message, SignupFailed)], Some(request), false, None, None)
  }

  /** The digits a user types into the phone field are exactly the digits
      the request carries, whatever formatting was shown in between. */
  lemma TypedPhoneIsSent(st: State, typed: string, response: Response<Option<User>>)
    ensures var r := Submit(HandleInputChange(st, Phone, typed).form, response);
      r.request.Some? ==> r.request.value.phone == Digits(typed)
  {
    var form := HandleInputChange(st, Phone, typed).form;
    assert form.phone == FormatPhone(typed) by {
      assert Get(form, Phone) == FormatPhone(typed);
    }
  }
}
