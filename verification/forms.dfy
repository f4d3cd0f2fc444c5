/** What the three form pages share: optional values, the field-to-message
    error map, the outcome of a request to the remote API, and the user
    record the API hands back. */
module Forms {

  datatype Option<T> = None | Some(value: T)

  /** The `errors` state of a page: a plain object from field name to
      message. A key whose message is `""` is present but shows nothing. */
  type Errors = map<string, string>

  /** The key under which a failed request's message is shown. */
  const SubmitKey := "submit"

  /** `errors[key]` is truthy: present with a non-empty message. */
  predicate HasError(errors: Errors, key: string) {
    key in errors && errors[key] != ""
  }

  /** Adds `message`, when there is one, under `key`. */
  function Report(errors: Errors, key: string, message: Option<string>): (r: Errors)
    ensures r.Keys == errors.Keys + (if message.Some? then {key} else {})
    ensures message.Some? ==> r[key] == message.value
    ensures forall k | k in errors && k != key :: r[k] == errors[k]
  {
    if message.Some? then errors[key := message.value] else errors
  }

  /** The error half of `handleInputChange`: a shown message under `key` is
      blanked (the key stays, holding `""`); otherwise nothing changes. */
  function ClearError(errors: Errors, key: string): (r: Errors)
    ensures r.Keys == errors.Keys
    ensures forall k | k in errors && k != key :: r[k] == errors[k]
    ensures !HasError(r, key)
    ensures HasError(errors, key) ==> r[key] == ""
    ensures !HasError(errors, key) ==> r == errors
  {
    if HasError(errors, key) then errors[key := ""] else errors
  }

  /** A request to the remote API either delivers its response data or fails,
      perhaps with a message from the server. */
  datatype Response<T> = Delivered(data: T) | Failed(serverMessage: Option<string>)

  /** `error.response?.data?.message || fallback`: the server's message
      when it is a non-empty string, the fixed text otherwise. */
  function FailureText(serverMessage: Option<string>, fallback: string): (r: string)
    ensures fallback != "" ==> r != ""
    ensures r == fallback || (serverMessage.Some? && r == serverMessage.value)
    ensures serverMessage.Some? && serverMessage.value != "" ==> r == serverMessage.value
  {
    match serverMessage
    case Some(m) => if m != "" then m else fallback
    case None => fallback
  }

  /** The user record the API returns on login or signup. */
  datatype User = User(id: int, name: string, email: string)

  /** Where a page navigates after a successful request. */
  datatype Page = HomePage | LoginPage
}
