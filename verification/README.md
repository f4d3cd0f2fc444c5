# CircleMarket storefront: catalogue pipeline and form logic in Dafny

This project models the pure logic of the CircleMarket storefront's four
pages and proves properties of it:

- **Home**: the effect that turns the fetched product list into the
  displayed one. It keeps products whose lower-cased name contains the
  lower-cased search text and whose price lies in the inclusive range, then
  sorts stably by price (either way) or by creation time, newest first. The
  page's initial criteria and the Reset Filters button are modelled too.
- **Signup**:
  - the five-field validator;
  - the phone formatter applied while typing;
  - error clearing on input;
  - the password strength meter;
  - the submit step, which strips the phone number to its digits.
- **Login**: the two-field validator, input handling, the demo-credentials
  button and the submit step with its error-message choice.
- **Sell**:
  - the "login required" gate;
  - the three-field validator, where the price goes through `parseFloat` and
    the URL test is a parameter;
  - input handling;
  - the submit step with its payload and its single failure message.

Each request to the remote API becomes an input value (`Response`). A submit
step is a pure function from the form and that response to an `Outcome`.
On all three form pages it holds:

- the error map;
- the request sent (if any);
- whether the success screen shows (`succeeded`);
- the page reached after the delay (`next`).

Sign-up and login also record the user that is signed in.

Modules, one file each:

- `Text` (text.dfy): the ECMAScript white-space set shared by `trim`,
  `\s`/`\S` and `parseFloat`, plus ASCII case folding, trimming, substring
  search and the `\D` digit strip.
- `Patterns` (patterns.dfy): the regular expressions as predicates. These
  are the e-mail pattern (with a linear scanner proved equal to it), the
  password composition lookaheads, the phone digit count and the strength
  meter's symbol class.
- `JsNumber` (jsnumber.dfy): `parseFloat` over exact reals with NaN and
  ±Infinity, and JavaScript's `<= 0` comparison.
- `Forms` (forms.dfy): the error map (`map<string, string>`), reporting and
  clearing a message, the request outcome and the user record.
- `Rules` (rules.dfy): the name, e-mail and password-length rules that
  several forms share.
- `Signup`, `Login`, `Sell` (signup.dfy, login.dfy, sell.dfy): the three
  form pages.
- `Catalog` (catalog.dfy): the Home page's criteria, filter, stable sort and
  pipeline.

Where a JavaScript detail matters, the model follows the code. Some
examples:

- `trim()` and the `\S` class use the same white-space set.
- `.` in the composition lookaheads does not cross a line terminator.
- A price such as `"abc"` reads as NaN, and NaN is not `<= 0`, so it is
  accepted.
- Clearing an error stores `""` under the key rather than removing it.
- The "newest" order uses `created_at`, and every unrecognised sort key
  falls to it. Products with equal creation times keep their catalogue
  order, because the sort is stable.

## Model

| member | source | states |
|---|---|---|
| `Text.Lower` | src/pages/Home.jsx:34 | Case folding keeps the length, folds each character on its own, and leaves no upper-case ASCII letter. |
| `Text.LowerChar` | src/pages/Home.jsx:34 | An upper-case ASCII letter folds to the lower-case letter at the same place in the alphabet; every other character is unchanged; no upper-case letter remains. |
| `Text.LowerIdempotent` | src/pages/Home.jsx:34 | Folding an already folded string changes nothing. |
| `Text.ContainsEmpty` | src/pages/Home.jsx:34 | `includes("")` holds for every string. |
| `Text.Trim` | src/pages/Signup.jsx:22 | `trim()` gives the empty string exactly when every character is white space. The result is the slice of the input that starts after the leading white space, and everything after it is white space. A non-empty result starts and ends with a non-space character. |
| `Text.TrimLength` | src/pages/Signup.jsx:24 | A trimmed length of at least 2 is the same as the text holding two non-space characters. |
| `Text.Digits` | src/pages/Signup.jsx:36 | The `\D` strip yields only digits, is no longer than its input, and leaves a string of digits unchanged. |
| `Text.DigitsAppend` | src/pages/Signup.jsx:61 | The digit strip of a concatenation is the concatenation of the strips. |
| `Text.BlankHasNoDigits` | src/pages/Signup.jsx:34-36 | A phone entry that is blank has no digits, so the "required" check subsumes the digit-count check there. |
| `Patterns.EmailMatchNotBlank` | src/pages/Signup.jsx:28-31 | No blank string matches `\S+@\S+\.\S+`, so "required" and "invalid" never compete. |
| `Patterns.ScanEmail` | src/pages/Login.jsx:17 | A single left-to-right scan answers exactly the unanchored test of `\S+@\S+\.\S+`. |
| `Patterns.CompositionHasEach` | src/pages/Signup.jsx:44 | A password passing the three lookaheads has a lower-case letter, an upper-case letter and a digit. |
| `Patterns.CompositionOneLine` | src/pages/Signup.jsx:44 | Without line terminators, the lookahead test holds exactly when all three classes occur. |
| `Patterns.CompositionStopsAtLineBreak` | src/pages/Signup.jsx:44 | "aB", a line terminator, then "1" holds all three classes and still fails the test, because `.` does not cross the line terminator. This holds for U+2028 and U+2029 as well as for LF and CR, so the outcome is reachable from a single-line input, which strips only LF and CR. |
| `JsNumber.DigitsValue` | src/pages/Sell.jsx:45 | A digit run reads as zero exactly when every digit is `0`. |
| `JsNumber.Mantissa` | src/pages/Sell.jsx:45 | The digits before and after the point give a non-negative value, zero exactly when every one of them is `0`. |
| `JsNumber.Scaled` | src/pages/Sell.jsx:45 | Applying the exponent keeps a value non-negative and never turns a non-zero value into zero (underflow aside, see Left out). |
| `JsNumber.ParseUnsigned` | src/pages/Sell.jsx:45 | An unsigned literal is NaN exactly when the text starts with neither `Infinity`, nor a digit, nor a point followed by a digit. It is +Infinity exactly when the text starts with `Infinity`, and never -Infinity. A finite value is non-negative, and zero exactly when every digit before and after the point is `0`. |
| `JsNumber.ParseFraction` | src/pages/Sell.jsx:45 | With integer digits or a point followed by digits, the literal is a finite non-negative value; with neither it is NaN. The value is zero exactly when all those digits are `0`, whatever the exponent. |
| `JsNumber.ParseFloat` | src/pages/Sell.jsx:45 | `parseFloat` is NaN exactly when no numeric literal follows the white space and sign. It is +Infinity exactly for an unsigned or `+` `Infinity`, and -Infinity exactly for `-Infinity`. A leading minus gives a finite value at most zero, and no minus one at least zero. A finite value is zero exactly when every mantissa digit is `0`. |
| `JsNumber.ParseDigitString` | src/pages/Sell.jsx:45 | A string of digits parses to the integer it spells. |
| `JsNumber.PlainStart` | src/pages/Sell.jsx:45 | Text starting with neither white space nor a sign is parsed as it stands. |
| `Forms.Report` | src/pages/Signup.jsx:20-52 | Recording a message adds exactly its key, with that message. No message adds nothing. Other keys keep their values. |
| `Forms.ClearError` | src/pages/Signup.jsx:69-71 | Typing blanks a shown message of that field. The key stays, no other key changes, and with no shown message the map is untouched. |
| `Forms.FailureText` | src/pages/Login.jsx:55-57 | The submit message is the server's message when it is non-empty and the fixed fallback otherwise; it is never empty. |
| `Rules.NameError` | src/pages/Signup.jsx:22-26 | A blank name is "required"; a non-blank name without two non-space characters is "too short"; a name passes exactly when it has two non-space characters. |
| `Rules.EmailError` | src/pages/Login.jsx:15-19 | A blank e-mail is "required"; otherwise a failed pattern is "invalid"; an e-mail passes exactly when the untrimmed text matches the pattern. |
| `Rules.PasswordLengthError` | src/pages/Login.jsx:21-25 | An empty password is "required", one of 1 to 5 characters is "too short", and it passes exactly at length 6 or more. |
| `Signup.Put` | src/pages/Signup.jsx:66 | Setting one field changes that field and no other. |
| `Signup.PhoneError` | src/pages/Signup.jsx:34-38 | A blank phone entry is "required", any other failure is "invalid", and the entry passes exactly when it holds 10 to 15 digits, whatever the punctuation. |
| `Signup.PasswordError` | src/pages/Signup.jsx:40-46 | The priority is empty, then shorter than 6, then failed composition. The password passes exactly when it has 6 or more characters and passes the composition test. |
| `Signup.ConfirmError` | src/pages/Signup.jsx:48-52 | An empty confirmation is "please confirm", and a different one is "mismatch". It passes exactly when it equals a non-empty password. |
| `Signup.Validate` | src/pages/Signup.jsx:19-56 | Only the five field keys appear. A field's key is present exactly when its rule fails, and then holds that rule's first message. The map is empty exactly when the form meets every rule. |
| `Signup.ChainFacts` | src/pages/Signup.jsx:20-52 | After the five steps, each field's key is present exactly when its step had a message, and then holds that message. |
| `Signup.CollectByField` | src/pages/Signup.jsx:20-52 | The collected map has, per field, exactly that field's first failing message. |
| `Signup.AcceptableIffNoFieldError` | src/pages/Signup.jsx:55 | The form meets every rule exactly when no field has a message. |
| `Signup.FormatPhone` | src/pages/Signup.jsx:59-64 | Formatting keeps the digit sequence. Below ten digits it yields the bare digits; otherwise it yields `(ddd) ddd-dddd` followed by the extra digits, four characters longer than the digits. |
| `Signup.FormattedDigits` | src/pages/Signup.jsx:61-62 | Stripping the punctuation of `(ddd) ddd-dddd…` gives back the digits. |
| `Signup.FormatPhoneIdempotent` | src/pages/Signup.jsx:59-64 | Reformatting a formatted number changes nothing. |
| `Signup.HandleInputChange` | src/pages/Signup.jsx:58-72 | Only the edited field changes, and a phone entry is stored formatted. Only that field's shown error is blanked; the error keys and every other message stay. |
| `Signup.PasswordStrength` | src/pages/Signup.jsx:74-93 | An empty password has strength 0 and no label. Otherwise the strength counts the five criteria met, so it is at most 5, and the label is entry `max(strength - 1, 0)` of the five levels. |
| `Signup.StrengthMonotone` | src/pages/Signup.jsx:77-82 | Typing more characters never lowers the strength. |
| `Signup.AcceptedPasswordIsStrong` | src/pages/Signup.jsx:40-46 | A password the validator accepts meets at least four criteria and shows "Good" or "Strong". |
| `Signup.Submit` | src/pages/Signup.jsx:95-126 | A request is sent exactly when the form meets every rule; otherwise nothing is sent and the field errors show. The request is the form with the phone reduced to its digits. A failure leaves one submit message, the server's or the fallback. A success shows the success screen, signs the user in, and goes home (or to login when no user came back). |
| `Signup.TypedPhoneIsSent` | src/pages/Signup.jsx:102-105 | The phone number sent is exactly the digits typed, whatever formatting was shown in between. |
| `Login.Put` | src/pages/Login.jsx:32 | Setting one field changes that field and no other. |
| `Login.Validate` | src/pages/Login.jsx:12-29 | Only the two field keys appear, each present exactly when its rule fails and holding its first message. There is no composition check, and the map is empty exactly when the e-mail matches and the password has 6 or more characters. |
| `Login.ChainFacts` | src/pages/Login.jsx:13-25 | After the two steps, each key is present exactly when its step had a message, and then holds that message; the map is empty exactly when neither step had one. |
| `Login.HandleInputChange` | src/pages/Login.jsx:31-37 | Only the edited field changes and only its shown error is blanked. |
| `Login.DemoLogin` | src/pages/Login.jsx:63-68 | The demo button leaves the errors as they were and fills in a form the validator accepts. |
| `Login.DemoCredentialsValid` | src/pages/Login.jsx:63-68 | The demo e-mail matches the pattern and the demo password is long enough. |
| `Login.Submit` | src/pages/Login.jsx:39-61 | A request is sent exactly when the form passes, and it carries the form unchanged. A failure leaves one submit message, the server's or the fallback. A success shows the success screen, sets the returned user and goes home. A failure shows no success screen and goes nowhere. |
| `Login.DemoLoginSends` | src/pages/Login.jsx:63-68 | After the demo button, submitting always sends the demo credentials. |
| `Login.LoginAcceptsPlainPassword` | src/pages/Login.jsx:21-25 | A password with no upper-case letter or digit passes the login rules but not the sign-up composition test. |
| `Sell.Render` | src/pages/Sell.jsx:15-32 | Without a user only the login prompt exists; with one, the form belongs to that user. |
| `Sell.Put` | src/pages/Sell.jsx:69 | Setting one field changes that field and no other. |
| `Sell.PriceError` | src/pages/Sell.jsx:43-47 | An empty price is "required". Otherwise the price fails exactly when `parseFloat` gives a number at most zero. Text not starting with a number is NaN and passes; a minus before a number fails. |
| `Sell.PriceAcceptedExactly` | src/pages/Sell.jsx:43-47 | A non-empty price passes exactly when it is not a number at all, or carries no minus and is `Infinity` or has a mantissa digit other than `0` (underflow aside, see Left out: `"1e-400"` reads as 0 in JavaScript and fails, but passes here). |
| `Sell.DigitPrice` | src/pages/Sell.jsx:43-47 | A price of plain digits passes exactly when some digit is not `0`. |
| `Sell.NonNumericPriceAccepted` | src/pages/Sell.jsx:45 | "abc" is accepted as a price by the validator. The page's number input (src/pages/Sell.jsx:170) does not hand such text to the handler, so this branch is reached only by a caller that bypasses the input. |
| `Sell.ImageError` | src/pages/Sell.jsx:49-53 | A blank URL is "required" and a failed URL test is "invalid"; the image passes exactly when it is not blank and the untrimmed text passes the URL test. |
| `Sell.Validate` | src/pages/Sell.jsx:34-57 | Only the three field keys appear, each present exactly when its rule fails and holding its first message. The map is empty exactly when the form meets every rule. |
| `Sell.ChainFacts` | src/pages/Sell.jsx:35-53 | After the three steps, each key is present exactly when its step had a message, and then holds that message; the map is empty exactly when no step had one. |
| `Sell.CollectFacts` | src/pages/Sell.jsx:35-53 | The collected map states each field's rule in terms of the text: two non-space name characters, a price `parseFloat` does not put at or below zero, and a non-blank valid URL. |
| `Sell.HandleInputChange` | src/pages/Sell.jsx:68-74 | Only the edited field changes and only its shown error is blanked. |
| `Sell.Submit` | src/pages/Sell.jsx:76-91 | A request is sent exactly when the form passes. It carries the seller's id and the three fields exactly as typed. A failure replaces the error map with the one fixed submit message, and a success shows the success screen and goes home. A failure goes nowhere. |
| `Sell.EmptyNameSendsNothing` | src/pages/Sell.jsx:37-38 | An empty product name sends nothing and shows "Product name is required". |
| `Catalog.ResetFilters` | src/pages/Home.jsx:204-207 | Reset Filters restores the initial price range and search text and keeps the sort key. |
| `Catalog.ResetIdempotent` | src/pages/Home.jsx:12-14 | Resetting twice equals resetting once, and the initial criteria are already reset. |
| `Catalog.EmptySearchMatchesAll` | src/pages/Home.jsx:33-35 | An empty search matches every product. |
| `Catalog.Filter` | src/pages/Home.jsx:33-40 | Filtering yields only accepted elements of the input, never more than it holds, and everything when all are accepted. |
| `Catalog.FilterCount` | src/pages/Home.jsx:33-40 | Filtering keeps every copy of an accepted product and none of a rejected one. |
| `Catalog.FilterAppend` | src/pages/Home.jsx:38-40 | Filtering distributes over concatenation. |
| `Catalog.Compare` | src/pages/Home.jsx:43-53 | The comparator is negative exactly when the first product ranks strictly before the second under the chosen key. |
| `Catalog.Insert` | src/pages/Home.jsx:43 | Insertion adds exactly one copy of the product. |
| `Catalog.InsertSorted` | src/pages/Home.jsx:43-53 | Inserting into a sorted list keeps it sorted. |
| `Catalog.InsertTies` | src/pages/Home.jsx:43 | An inserted product goes to the front of its tie group and leaves every other tie group unchanged. |
| `Catalog.Sort` | src/pages/Home.jsx:43-53 | The sort is a permutation whose ranks never decrease. |
| `Catalog.SortStable` | src/pages/Home.jsx:43-53 | Each group of equally ranked products keeps its input order. |
| `Catalog.SortOfSorted` | src/pages/Home.jsx:43-53 | Sorting an already sorted list returns it unchanged. |
| `Catalog.Pipeline` | src/pages/Home.jsx:32-56 | Every displayed product matches the search and lies in the price range, and the list is ordered by the chosen key. |
| `Catalog.PipelineCount` | src/pages/Home.jsx:33-40 | The displayed list is a permutation of exactly the products passing both tests, copies included. |
| `Catalog.FilterTwiceIsKept` | src/pages/Home.jsx:33-40 | Filtering by name and then by price is the same as one filter by both tests: the products passing both, in catalogue order. |
| `Catalog.PipelineStable` | src/pages/Home.jsx:43-55 | Products that tie under the sort key appear in catalogue order. |
| `Catalog.PriceLowAscending` | src/pages/Home.jsx:45-46 | With "price-low", prices never decrease. |
| `Catalog.PriceHighDescending` | src/pages/Home.jsx:47-48 | With "price-high", prices never increase. |
| `Catalog.NewestFirst` | src/pages/Home.jsx:49-51 | With "newest" or any unrecognised key, creation times never increase. |
| `Catalog.Idempotent` | src/pages/Home.jsx:32-56 | Running the pipeline on its own output with the same criteria gives the same list. |
| `Catalog.BoundsAreInclusive` | src/pages/Home.jsx:38-40 | A matching product priced exactly at either end of the range is displayed. |
| `Catalog.LampScenario` | src/pages/Home.jsx:32-56 | Searching "lamp" from 0 to 100, cheapest first, over a lamp (20), a chair (50) and a lamp shade (15) shows the shade, then the lamp. |

## Left out

- Requests to the remote API, the `setTimeout` redirects, and the loading and submitting flags. A request's result is an input (`Response`), and the page reached after the delay is recorded in each page's `Outcome.next`.
- The `new URL(...)` test of the listing page is a function-typed parameter, `isValidUrl`. It stands for the WHATWG URL Standard's parser (section 4.4, "URL parsing"), which is not part of this model.
- The catalogue fetch on the Home page is left out; the product list is an input.
- src/App.jsx (routing and the `localStorage` session restore) is not modelled. Neither are src/components/Navbar.jsx and src/components/ProductCard.jsx (rendering, `toFixed(2)`). The JSX markup, view-mode toggle and password-visibility toggles are not modelled either.
- JsNumber.ParseFloat: finite results are exact reals. Rounding to binary64, overflow to Infinity and underflow to zero are not modelled. A literal such as `"1e-400"`, which JavaScript reads as 0, is a tiny positive value here, so `Sell.PriceError` accepts it where the page rejects it.
- Catalog.Product: prices are exact reals, and `created_at` is an integer timestamp in place of `new Date(...)` parsing. An unparsable date, which makes the comparator NaN, is not modelled.
- Text.Lower: case folding covers ASCII letters only, not the full Unicode `toLowerCase`.
- Strings are sequences of code points. JavaScript's UTF-16 `length` differs for characters outside the Basic Multilingual Plane. This matters for the minimum-length rules on such text.
- What the browser's inputs let through is not modelled. The price field is `<input type="number">` (src/pages/Sell.jsx:170), which hands the handler only `""` or a valid floating-point string, so the NaN branch of `PriceError` cannot be reached from the page. Single-line text and password inputs strip LF and CR but keep U+2028 and U+2029. The validators are modelled for every string.
- The phone input's `maxLength` attribute is markup and is not modelled; `FormatPhone` accepts any input.
- A listing's own seller data and deleting a listing do not appear in these pages and are not modelled.
