/** Field rules used by more than one form: each maps a field's text to the
    message of the first check it fails, in the order the page tests them,
    or to nothing when it passes. */
module Rules {
  import opened Text
  import opened Patterns
  import opened Forms

  /** The name rule of the sign-up and listing forms (only the messages
      differ): blank after trimming is "required", otherwise fewer than two
      characters between the first and last non-space is "too short". */
  function NameError(name: string, required: string, tooShort: string): (r: Option<string>)
    ensures IsBlank(name) ==> r == Some(required)
    ensures !IsBlank(name) && !HasTwoNonSpace(name) ==> r == Some(tooShort)
    ensures r == None <==> HasTwoNonSpace(name)
  {
    TrimLength(name);
    var t := Trim(name);
    if t == [] then Some(required)
    else if |t| < 2 then Some(tooShort)
    else None
  }

  const EmailRequired := "Email is required"
  const EmailInvalid := "Please enter a valid email address"

  /** The e-mail rule of the sign-up and login forms: blank after trimming
      is "required"; otherwise the untrimmed text must match the pattern. */
  function EmailError(email: string): (r: Option<string>)
    ensures IsBlank(email) ==> r == Some(EmailRequired)
    ensures !IsBlank(email) && !MatchesEmail(email) ==> r == Some(EmailInvalid)
    ensures r == None <==> MatchesEmail(email)
  {
    EmailMatchNotBlank(email);
    if Trim(email) == [] then Some(EmailRequired)
    else if !MatchesEmail(email) then Some(EmailInvalid)
    else None
  }

  const PasswordRequired := "Password is required"
  const PasswordTooShort := "Password must be at least 6 characters"

  /** The first two password checks of the sign-up and login forms: empty is
      "required", fewer than six characters is "too short". The password is
      not trimmed. */
  function PasswordLengthError(password: string): (r: Option<string>)
    ensures password == [] ==> r == Some(PasswordRequired)
    ensures 0 < |password| < 6 ==> r == Some(PasswordTooShort)
    ensures r == None <==> |password| >= 6
  {
    if password == [] then Some(PasswordRequired)
    else if |password| < 6 then Some(PasswordTooShort)
    else None
  }
}
