# Contact form model

A Dafny model of the contact-form component of a small React application
(`src/App.js`). The component keeps four text fields (name, e-mail, phone,
message), a map of per-field error messages, and three banners of submit
state (`submitted`, `apiError`, `responseData`) plus a `loading` flag. Two
event handlers change that state:

- the edit handler stores the new value of one field and blanks that
  field's error message if one is showing;
- the submit handler clears the banners, runs the validator, and either
  shows the validation errors or POSTs the trimmed field values and turns
  the outcome (success, a server error, an exception) into the final state.

The project is split by concern:

| file | module | contents |
|---|---|---|
| `js_string.dfy` | `JsString` | the ECMAScript whitespace set shared by `String.prototype.trim` and the regular-expression class `\s`; `trim` and its characterisation; the decimal text a template literal gives a status code, with its round trip |
| `email.dfy` | `EmailPattern` | `validateEmail`, the pattern `^[^\s@]+@[^\s@]+\.[^\s@]+$` as "there are split points where it matches", and the proof that it accepts exactly the strings with no whitespace, one `@`, a non-empty local part and a domain with an interior dot |
| `validation.dfy` | `Validation` | the fields, the form values, the trimmed payload and `validateForm`, with its per-field characterisation |
| `contact_form.dfy` | `ContactForm` | the network outcome as an input value, the two banner texts, and the class `Form` with `HandleChange` and `HandleSubmit` |
| `scenarios.dfy` | `Scenarios` | whole interactions with a freshly created `Form` |

`Form.Valid()` is the invariant both handlers keep: no request is in flight
between events, the success banner and a non-empty error banner never show
together, a success leaves no error messages, and every non-empty error
message shown is the one the validator currently gives that field.

Behaviour of the code that is easy to misread:

- An edit blanks the field's error message to `""` and keeps the key; it
  does not remove the entry.
- The e-mail format check runs on the untrimmed value, so a non-blank
  e-mail with a leading or trailing space always gets the format message
  (`Validation.PaddedEmailRejected`).
- The pattern backtracks to any dot after the `@`, not only the last one,
  so `a@b.c.` and `a@.b.c` are accepted
  (`EmailPattern.AcceptsOuterDomainDots`).
- A failed request leaves the error map as it was; it is not recomputed.

## Model

| member | source | states |
|---|---|---|
| EmailPattern.ValidateEmailIff | src/App.js:19-22 | the pattern accepts a string exactly when it has no whitespace, exactly one `@`, something before the `@`, and a `.` after the `@` that is neither the first nor the last character of the domain |
| EmailPattern.MatchIsWellFormed | src/App.js:20 | every way the pattern can match yields a well-formed address (one direction of the equivalence) |
| EmailPattern.WellFormedMatches | src/App.js:20 | every well-formed address has split points where the pattern matches (the other direction) |
| EmailPattern.WhitespaceNeverMatches | src/App.js:20 | a whitespace character anywhere, in particular at either end, rules out a match |
| EmailPattern.MissingAtOrDotNeverMatches | src/App.js:20 | a string with no `@`, or with no `.` after some `@`, does not match |
| EmailPattern.AcceptsOuterDomainDots | src/App.js:20 | `a@b.c.` and `a@.b.c` match, because backtracking may pick any interior dot |
| EmailPattern.AcceptsPlainAddress | src/App.js:20 | `jo@x.com` matches |
| EmailPattern.RejectsDotlessDomains | src/App.js:20 | `jo@x` and `a@b.` do not match |
| EmailPattern.CountOneAt | src/App.js:20 | with `@` at a given position, there is exactly one `@` iff there is none elsewhere |
| JsString.TrimStartSpec | src/App.js:28 | removing leading whitespace leaves the suffix that starts at the first non-whitespace character |
| JsString.TrimEndSpec | src/App.js:28 | removing trailing whitespace leaves the prefix that ends at the last non-whitespace character |
| JsString.TrimSpec | src/App.js:28 | `trim()` returns the infix between a whitespace prefix and a whitespace suffix; it neither starts nor ends with whitespace; it is empty exactly when the input is all whitespace |
| JsString.TrimEmptyIff | src/App.js:28 | `!value.trim()` holds exactly when the value is all whitespace |
| JsString.TrimIdempotent | src/App.js:92-95 | trimming a trimmed value changes nothing |
| JsString.TrimUnpadded | src/App.js:92-95 | a value without whitespace at either end is its own trim |
| JsString.DecimalString | src/App.js:118 | the status is written as a non-empty run of digits with no leading zero |
| JsString.DecimalRoundTrip | src/App.js:118 | reading the status digits back as a number gives the status |
| JsString.DecimalStringInjective | src/App.js:118 | distinct statuses are written differently |
| JsString.LeadingDigitsOfRun | src/App.js:118 | the status digits followed by `:` are exactly the leading digit run |
| Validation.FormData.With | src/App.js:52-55 | the spread-and-override update sets the edited field and keeps the other three |
| Validation.Trimmed | src/App.js:91-96 | every payload value is the trimmed current value of its field |
| Validation.PayloadIsTrimmed | src/App.js:91-96 | trimming the payload again changes nothing, and no payload value starts or ends with whitespace |
| Validation.ValidateForm | src/App.js:25-47 | name, phone and message have an entry exactly when blank, with their "required" message; the e-mail has an entry exactly when blank or failing the pattern, "Email is required" when blank and "Please enter a valid email address" otherwise |
| Validation.EmailEntryIff | src/App.js:32-36 | the e-mail has an entry exactly when it is blank or not a well-formed address |
| Validation.ValidateFormIff | src/App.js:25-47 | a field has an entry exactly when it fails its rule, so the result is empty exactly when every field passes |
| Validation.ValidateFormIsLocal | src/App.js:25-47 | each field's entry depends only on that field: changing one field leaves every other entry as it was |
| Validation.PaddedEmailRejected | src/App.js:32-36 | a non-blank e-mail with whitespace at either end gets the format message |
| Validation.MissingAtOrDotRejected | src/App.js:32-36 | a non-blank e-mail with no `@`, or no `.` after it, gets the format message and not "required" |
| Validation.AllEmptyGivesFourRequired | src/App.js:25-47 | the empty form gets the four "required" messages |
| Validation.VisibleStartNotBlank | src/App.js:28 | a value starting with a non-whitespace character is not blank |
| Validation.FilledFormResult | src/App.js:25-47 | with all four fields filled, the result is empty when the e-mail matches and holds only the format message otherwise |
| Validation.DotlessDomainGivesOnlyFormatError | src/App.js:25-47 | the form `Jo`, `jo@x`, `1`, `hi` gets only the e-mail format message |
| Validation.FilledFormPasses | src/App.js:25-47 | the form `Jo`, `jo@x.com`, `1`, `hi` passes |
| ContactForm.ErrorDetail | src/App.js:118 | the detail is the non-empty `detail` if there is one, else the non-empty `message`, else `Unknown error`; it is never empty |
| ContactForm.ServerErrorMessage | src/App.js:118 | the server-error banner starts with the fixed prefix and ends with the detail |
| ContactForm.BannerNamesStatus | src/App.js:118 | the status can be read back from the server-error banner, whatever the detail |
| ContactForm.ThrownErrorMessage | src/App.js:122 | the exception banner is non-empty and holds the exception's message right after `Error: ` |
| ContactForm.Form.constructor | src/App.js:5-16 | initial state: four empty fields, no errors, no banners, not loading |
| ContactForm.Form.HandleChange | src/App.js:50-63 | the edited field takes the new value and the others keep theirs; a truthy error for that field becomes `""` with its key kept; otherwise the errors are unchanged; the banners are untouched; the invariant is kept |
| ContactForm.Form.HandleSubmit | src/App.js:66-126 | on failed validation: nothing is sent, the errors are replaced by the new map, the banners are cleared and the fields are unchanged. Otherwise the trimmed values are sent. On 200..299: success banner, the response stored, fields emptied, errors cleared. On another status: the server-error banner, with fields and errors kept. On an exception, including reading `detail` of a `null` body: the exception banner. In every case `loading` ends false and the invariant is kept |
| ContactForm.EditKeepsErrorsCurrent | src/App.js:56-62 | blanking the edited field's error keeps every remaining message current for the new values |
| Scenarios.FillIn | src/App.js:50-63 | typing four values into a form with no errors showing sets exactly those values |
| Scenarios.FilledIsSendable | src/App.js:73-96 | the filled-in example passes validation and is its own trimmed payload |
| Scenarios.FilledIsTrimmed | src/App.js:91-96 | the filled-in example is its own trimmed payload |
| Scenarios.RejectedBanner | src/App.js:118 | a 400 with `detail` "duplicate" and a `message` gives `Server responded with status 400: duplicate` |
| Scenarios.SubmitSucceeds | src/App.js:107-116 | a fresh form, filled in and answered with status 200, sends the values, shows success, stores the response body, and ends with empty fields and no errors |
| Scenarios.SubmitRejected | src/App.js:117-119 | the same form rejected with 400 shows the banner with status and detail, and keeps the values |
| Scenarios.SubmitUnreachable | src/App.js:120-122 | the same form with a failed fetch shows the exception banner and keeps the values |
| Scenarios.EmptySubmitThenEdit | src/App.js:50-77 | submitting the empty form sends nothing and shows four "required" messages; typing a name then blanks only the name's message |

## Left out

- Rendering (the JSX tree, CSS classes, labels, placeholders, the debug footer): presentation only.
- `fetch`, its CORS and credentials options, the fixed endpoint URL, `JSON.stringify` and `response.json()`: foreign I/O and serialisation. The network result is the input value `Outcome`; a body that is not JSON is one more `Thrown(msg)`. The parsed body is reduced to its `detail` and `message` members plus an uninspected remainder.
- ContactForm.ErrorDetail: a `detail` or `message` that is present but is not a string (a number, an object, `true`) is not modelled. Only absent or string members are modelled, so JavaScript's truthiness of other values is not captured.
- ContactForm.NullDetailAccess: the text of the TypeError raised by reading `detail` of a `null` body differs between JavaScript engines; the model uses V8's wording.
- The 100-character truncation of the displayed response: it works on `JSON.stringify` of arbitrary data, which is not modelled.
- `console.log` and `console.error`: logging only.
- React's asynchronous state batching, the edit handler's read of a possibly stale `errors`, and the disabled submit button that prevents a second submit while one is in flight. These are framework and concurrency concerns. Each handler is one atomic method; `loading` is `true` only inside `HandleSubmit`.
- JsString.IsWhitespace: JavaScript strings are UTF-16 code units, while Dafny's `char` is a Unicode scalar value. Every whitespace character is a single code unit, and both halves of a surrogate pair are neither whitespace nor `@`. So `trim` and the pattern treat the two representations alike, but the model does not state the correspondence.
- Scenarios.SubmitUnreachable: the banner is stated as `ThrownErrorMessage("Failed to fetch")`, not as the literal text. `ThrownErrorMessage`'s own contract places the message after the `Error: ` prefix.
