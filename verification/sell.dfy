/** The listing page: without a user only the login prompt exists; with a
    user, a three-field form whose validator reads the price with
    `parseFloat` and the image with a URL test, and a submit step with the
    response of the remote API as an input. */
module Sell {
  import opened Text
  import opened JsNumber
  import opened Forms
  import opened Rules

  /** What the page shows: the login prompt when nobody is signed in, the
      listing form for the signed-in user otherwise. */
  datatype View = LoginRequired | ListingForm(seller: User)

  /** The `if (!user)` guard that precedes every other part of the page. */
  function Render(user: Option<User>): (v: View)
    ensures v.LoginRequired? <==> user.None?
    ensures v.ListingForm? ==> user == Some(v.seller)
  {
    match user
    case None => LoginRequired
    case Some(u) => ListingForm(u)
  }

  datatype Field = Name | Price | Image

  function Key(f: Field): string {
    match f
    case Name => "name"
    case Price => "price"
    case Image => "image"
  }

  /** The form holds text as typed; the price is a string too. */
  datatype Form = Form(name: string, price: string, image: string)

  const EmptyForm := Form("", "", "")

  function Get(form: Form, f: Field): string {
    match f
    case Name => form.name
    case Price => form.price
    case Image => form.image
  }

  /** `{ ...form, [field]: value }`. */
  function Put(form: Form, f: Field, value: string): (r: Form)
    ensures Get(r, f) == value
    ensures forall g | g != f :: Get(r, g) == Get(form, g)
  {
    match f
    case Name => form.(name := value)
    case Price => form.(price := value)
    case Image => form.(image := value)
  }

  const NameRequired := "Product name is required"
  const NameTooShort := "Product name must be at least 2 characters"
  const PriceRequired := "Price is required"
  const PriceNotPositive := "Price must be greater than 0"
  const ImageRequired := "Image URL is required"
  const ImageInvalid := "Please enter a valid image URL"

  /** The number `price` reads as passes `parseFloat(price) <= 0` as false:
      it is positive, or it is NaN. */
  predicate PriceAccepted(price: string) {
    price != [] && !AtMostZero(ParseFloat(price))
  }

  /** The empty string is "required"; otherwise the price is rejected
      exactly when `parseFloat` reads a number at most zero. Text that does
      not start with a number reads as NaN and is accepted. */
  function PriceError(price: string): (r: Option<string>)
    ensures price == [] ==> r == Some(PriceRequired)
    ensures price != [] && r != None ==> r == Some(PriceNotPositive)
    ensures r == None <==> PriceAccepted(price)
    ensures price != [] && !StartsNumeric(Unsigned(price)) ==> r == None
    ensures price != [] && HasMinus(price) && StartsNumeric(Unsigned(price)) ==> r == Some(PriceNotPositive)
  {
    if price == [] then Some(PriceRequired)
    else if AtMostZero(ParseFloat(price)) then Some(PriceNotPositive)
    else None
  }

  /** Which non-empty prices pass, by the shape of the text after white
      space and sign: text that is not a number at all; a positive
      `Infinity`; or an unsigned literal with a digit other than `0`. Every
      number written with a minus sign, and every literal of zeros, is
      rejected. */
  lemma PriceAcceptedExactly(price: string)
    requires price != []
    ensures var u := Unsigned(price);
      PriceError(price) == None
      <==> || !StartsNumeric(u)
           || (!HasMinus(price) && (StartsWithInfinity(u) || !ZeroMantissa(u)))
  {
  }

  /** A price of plain digits is accepted exactly when some digit is not
      `0`. */
  lemma DigitPrice(d: string)
    requires d != [] && forall i | 0 <= i < |d| :: IsDigit(d[i])
    ensures PriceError(d) == None <==> exists i | 0 <= i < |d| :: d[i] != '0'
  {
    ParseDigitString(d);
  }

  /** Blank after trimming is "required"; otherwise the untrimmed text must
      satisfy the URL test. */
  function ImageError(image: string, isValidUrl: string -> bool): (r: Option<string>)
    ensures IsBlank(image) ==> r == Some(ImageRequired)
    ensures !IsBlank(image) && !isValidUrl(image) ==> r == Some(ImageInvalid)
    ensures r == None <==> !IsBlank(image) && isValidUrl(image)
  {
    if Trim(image) == [] then Some(ImageRequired)
    else if !isValidUrl(image) then Some(ImageInvalid)
    else None
  }

  /** A form every rule accepts, stated without the messages. */
  predicate Acceptable(form: Form, isValidUrl: string -> bool) {
    && HasTwoNonSpace(form.name)
    && PriceAccepted(form.price)
    && !IsBlank(form.image) && isValidUrl(form.image)
  }

  /** `validateForm`, with `isValidUrl` (a `new URL(...)` that does not
      throw) as a parameter. The form is valid when the map is empty. */
  function Validate(form: Form, isValidUrl: string -> bool): (errors: Errors)
    ensures errors.Keys <= {"name", "price", "image"}
    ensures "name" in errors <==> !HasTwoNonSpace(form.name)
    ensures "name" in errors ==> errors["name"] == (if IsBlank(form.name) then NameRequired else NameTooShort)
    ensures "price" in errors <==> !PriceAccepted(form.price)
    ensures "price" in errors ==> errors["price"] == (if form.price == [] then PriceRequired else PriceNotPositive)
    ensures "image" in errors <==> IsBlank(form.image) || !isValidUrl(form.image)
    ensures "image" in errors ==> errors["image"] == (if IsBlank(form.image) then ImageRequired else ImageInvalid)
    ensures errors == map[] <==> Acceptable(form, isValidUrl)
  {
    CollectFacts(form, isValidUrl);
    Collect(form, isValidUrl)
  }

  /** The checks of `validateForm`, field by field in source order. */
  function Collect(form: Form, isValidUrl: string -> bool): Errors {
    Chain(NameError(form.name, NameRequired, NameTooShort), PriceError(form.price), ImageError(form.image, isValidUrl))
  }

  /** The three `if (...) newErrors.key = message` steps, one per field. */
  function Chain(name: Option<string>, price: Option<string>, image: Option<string>): Errors {
    var e1 := Report(map[], "name", name);
    var e2 := Report(e1, "price", price);
    Report(e2, "image", image)
  }

  /** Each field's key is present exactly when its step had a message, and
      then holds that message; no key means no message at all. */
  lemma ChainFacts(name: Option<string>, price: Option<string>, image: Option<string>)
    ensures var e := Chain(name, price, image);
      && e.Keys <= {"name", "price", "image"}
      && ("name" in e <==> name.Some?) && (name.Some? ==> e["name"] == name.value)
      && ("price" in e <==> price.Some?) && (price.Some? ==> e["price"] == price.value)
      && ("image" in e <==> image.Some?) && (image.Some? ==> e["image"] == image.value)
      && (e == map[] <==> name.None? && price.None? && image.None?)
  {
    var e := Chain(name, price, image);
    assert e == map[] <==> "name" !in e && "price" !in e && "image" !in e;
  }

  lemma CollectFacts(form: Form, isValidUrl: string -> bool)
    ensures var e := Collect(form, isValidUrl);
      && e.Keys <= {"name", "price", "image"}
      && ("name" in e <==> !HasTwoNonSpace(form.name))
      && ("name" in e ==> e["name"] == (if IsBlank(form.name) then NameRequired else NameTooShort))
      && ("price" in e <==> !PriceAccepted(form.price))
      && ("price" in e ==> e["price"] == (if form.price == [] then PriceRequired else PriceNotPositive))
      && ("image" in e <==> IsBlank(form.image) || !isValidUrl(form.image))
      && ("image" in e ==> e["image"] == (if IsBlank(form.image) then ImageRequired else ImageInvalid))
      && (e == map[] <==> Acceptable(form, isValidUrl))
  {
    var name := NameError(form.name, NameRequired, NameTooShort);
    var price := PriceError(form.price);
    var image := ImageError(form.image, isValidUrl);
    ChainFacts(name, price, image);
    assert name.Some? ==> name.value == (if IsBlank(form.name) then NameRequired else NameTooShort);
    assert image.Some? ==> image.value == (if IsBlank(form.image) then ImageRequired else ImageInvalid);
  }

  datatype State = State(form: Form, errors: Errors)

  const Initial := State(EmptyForm, map[])

  /** `handleInputChange(field, value)`: only that field changes, and only
      that field's shown error is blanked. */
  function HandleInputChange(st: State, f: Field, value: string): (r: State)
    ensures Get(r.form, f) == value
    ensures forall g | g != f :: Get(r.form, g) == Get(st.form, g)
    ensures r.errors.Keys == st.errors.Keys
    ensures forall k | k in st.errors && k != Key(f) :: r.errors[k] == st.errors[k]
    ensures !HasError(r.errors, Key(f))
    ensures !HasError(st.errors, Key(f)) ==> r.errors == st.errors
  {
    State(Put(st.form, f, value), ClearError(st.errors, Key(f)))
  }

  /** The body of the create request: the seller's id and the three fields
      exactly as typed (the price still a string). */
  datatype Listing = Listing(userId: int, name: string, price: string, image: string)

  /** What a submit attempt leaves behind: the error map, the request sent
      (if any), whether the success screen shows, and the page reached after
      the delay. */
  datatype Outcome = Outcome(errors: Errors, request: Option<Listing>, succeeded: bool, next: Option<Page>)

  const AddFailed := "Failed to add product. Please try again."

  /** `submit`, reachable only from the listing form, so only with a user:
      an invalid form sends nothing and shows the field errors; a valid one
      sends the listing; a failure shows one fixed submit message whatever
      the server said; a success shows the success screen and then goes
      home. */
  function Submit(seller: User, form: Form, isValidUrl: string -> bool, response: Response<()>): (r: Outcome)
    ensures r.request.None? <==> !Acceptable(form, isValidUrl)
    ensures r.request.None? ==> r.errors == Validate(form, isValidUrl) && !r.succeeded && r.next == None
    ensures r.request.Some? ==> r.request.value == Listing(seller.id, form.name, form.price, form.image)
    ensures r.request.Some? && response.Failed? ==>
      r.errors == map[SubmitKey := AddFailed] && !r.succeeded && r.next == None
    ensures r.request.Some? && response.Delivered? ==>
      r.errors == map[] && r.succeeded && r.next == Some(HomePage)
  {
    var errors := Validate(form, isValidUrl);
    if errors != map[] then Outcome(errors, None, false, None)
    else
      var listing := Listing(seller.id, form.name, form.price, form.image);
      match response
      case Delivered(_) => Outcome(map[], Some(listing), true, Some(HomePage))
      case Failed(_) => Outcome(map[SubmitKey := AddFailed], Some(listing), false, None)
  }

  /** An empty name is caught before any request is made. */
  lemma EmptyNameSendsNothing(seller: User, form: Form, isValidUrl: string -> bool, response: Response<()>)
    requires form.name == ""
    ensures Submit(seller, form, isValidUrl, response).request == None
    ensures Submit(seller, form, isValidUrl, response).errors["name"] == NameRequired
  {
  }

  /** A price that does not read as a number still passes: "abc" is NaN,
      and NaN is not at most zero. */
  lemma NonNumericPriceAccepted()
    ensures PriceError("abc") == None
  {
    var s := "abc";
    assert !IsSpace(s[0]);
    PlainStart(s);
    assert !StartsNumeric(s);
  }
}
