/**
 * The contact-form component: its state, the edit handler and the submit
 * handler. The network exchange is not performed here; its outcome is an
 * input to the submit handler.
 */
module ContactForm {
  import opened JsString
  import opened Validation

  datatype Option<T> = None | Some(value: T)

  /** The parsed response body. Only its `detail` and `message` members are
      ever read; `text` stands for the rest of the value, which is stored and
      displayed but never inspected. `Null` is the JSON value `null`, also the
      component's initial `responseData`. */
  datatype Json = Null | Value(detail: Option<string>, message: Option<string>, text: string)

  /** What the request produced: a response with its status and parsed body,
      or an exception (a failed fetch or a body that is not JSON) with its
      `message`. */
  datatype Outcome = Response(status: nat, data: Json) | Thrown(msg: string)

  /** `response.ok || response.status === 200`: `ok` already covers 200. */
  predicate IsSuccessStatus(status: nat) {
    200 <= status <= 299
  }

  /** JavaScript truthiness of an optional string member. */
  predicate IsTruthy(v: Option<string>) {
    v.Some? && v.value != ""
  }

  /** `data.detail || data.message || 'Unknown error'`: the first non-empty
      of the two members, else a fixed fallback; never empty. */
  function ErrorDetail(data: Json): (r: string)
    requires data.Value?
    ensures r != ""
    ensures IsTruthy(data.detail) ==> r == data.detail.value
    ensures !IsTruthy(data.detail) && IsTruthy(data.message) ==> r == data.message.value
    ensures !IsTruthy(data.detail) && !IsTruthy(data.message) ==> r == "Unknown error"
  {
    if IsTruthy(data.detail) then data.detail.value
    else if IsTruthy(data.message) then data.message.value
    else "Unknown error"
  }

  const ServerErrorPrefix := "Server responded with status "

  /** The banner for a response outside the success range: a fixed prefix,
      the status (BannerNamesStatus reads it back) and, at the end, the
      server's detail. */
  function ServerErrorMessage(status: nat, data: Json): (r: string)
    requires data.Value?
    ensures |r| > |ServerErrorPrefix| && r[..|ServerErrorPrefix|] == ServerErrorPrefix
    ensures var d := ErrorDetail(data); |r| >= |d| && r[|r| - |d|..] == d
  {
    ServerErrorPrefix + DecimalString(status) + ": " + ErrorDetail(data)
  }

  /** Reads the status code back out of a server-error banner: the digits
      that follow the fixed prefix. */
  function StatusInBanner(banner: string): Option<nat> {
    if |banner| >= |ServerErrorPrefix| && banner[..|ServerErrorPrefix|] == ServerErrorPrefix then
      var digits := LeadingDigits(banner[|ServerErrorPrefix|..]);
      if digits == [] then None else Some(DecimalValue(digits))
    else None
  }

  /** A server-error banner names the response's status code, whatever the
      detail text that follows it. */
  lemma BannerNamesStatus(status: nat, data: Json)
    requires data.Value?
    ensures StatusInBanner(ServerErrorMessage(status, data)) == Some(status)
  {
    var digits := DecimalString(status);
    var tail := ": " + ErrorDetail(data);
    var banner := ServerErrorMessage(status, data);
    assert banner == ServerErrorPrefix + (digits + tail);
    assert banner[|ServerErrorPrefix|..] == digits + tail;
    LeadingDigitsOfRun(digits, tail);
    DecimalRoundTrip(status);
  }

  const ThrownPrefix := "Error: "

  /** The banner for an exception raised while sending or reading: it holds
      the exception's message right after a fixed prefix. */
  function ThrownErrorMessage(msg: string): (r: string)
    ensures r != ""
    ensures |r| >= |ThrownPrefix| + |msg| && r[..|ThrownPrefix|] == ThrownPrefix
    ensures r[|ThrownPrefix|..|ThrownPrefix| + |msg|] == msg
  {
    ThrownPrefix + msg + ". Please check console and try again."
  }

  /** The `message` of the TypeError raised by reading `detail` from a
      `null` body (V8's wording). */
  const NullDetailAccess := "Cannot read properties of null (reading 'detail')"

  /** The component's state. Each handler runs to completion before the next
      event is handled. */
  class Form {
    var formData: FormData
    var errors: map<Field, string>
    var submitted: bool
    var loading: bool
    var apiError: string
    var responseData: Json

    /** Between events: no request is in flight, the success and error
        banners never show together, a success leaves no errors behind, and
        every non-empty error message is the one validation currently gives
        that field. */
    ghost predicate Valid()
      reads this
    {
      && !loading
      && !(submitted && apiError != "")
      && (submitted ==> errors == map[])
      && ErrorsCurrent(formData, errors)
    }

    /** The initial state: empty fields, no errors, no banners. */
    constructor ()
      ensures Valid()
      ensures formData == EmptyForm && errors == map[]
      ensures !submitted && !loading && apiError == "" && responseData == Null
    {
      formData := EmptyForm;
      errors := map[];
      submitted := false;
      loading := false;
      apiError := "";
      responseData := Null;
    }

    /** `handleChange`: the edited field takes the new value; its error, if
        one is showing, is blanked but keeps its key; nothing else changes. */
    method HandleChange(field: Field, value: string)
      requires Valid()
      modifies this
      ensures Valid()
      ensures formData == old(formData).With(field, value)
      ensures errors == if field in old(errors) && old(errors)[field] != ""
                        then old(errors)[field := ""] else old(errors)
      ensures submitted == old(submitted) && loading == old(loading)
      ensures apiError == old(apiError) && responseData == old(responseData)
    {
      ghost var before := formData;
      formData := formData.With(field, value);
      if field in errors && errors[field] != "" {
        errors := errors[field := ""];
      }
      EditKeepsErrorsCurrent(before, old(errors), field, value, errors);
    }

    /** `handleSubmit`, with the network outcome given. Returns the payload
        sent, or None when validation stopped the submit. */
    method HandleSubmit(outcome: Outcome) returns (sent: Option<FormData>)
      requires Valid()
      modifies this
      ensures Valid()
      ensures var invalid := ValidateForm(old(formData));
              if invalid != map[] then
                && sent == None
                && errors == invalid && formData == old(formData)
                && !submitted && apiError == "" && responseData == Null
              else
                && sent == Some(Trimmed(old(formData)))
                && SubmitResult(outcome, old(formData), old(errors),
                                formData, errors, submitted, apiError, responseData)
    {
      apiError := "";
      submitted := false;
      responseData := Null;

      var invalid := ValidateForm(formData);
      if |invalid| > 0 {
        errors := invalid;
        return None;
      }

      loading := true;
      sent := Some(Trimmed(formData));
      match outcome {
        case Thrown(msg) =>
          apiError := ThrownErrorMessage(msg);
        case Response(status, data) =>
          if IsSuccessStatus(status) {
            submitted := true;
            responseData := data;
            formData := EmptyForm;
            errors := map[];
          } else if data.Null? {
            apiError := ThrownErrorMessage(NullDetailAccess);
          } else {
            apiError := ServerErrorMessage(status, data);
          }
      }
      loading := false;
    }
  }

  /** Every non-empty error message is the one validation gives that field
      for the current values. */
  ghost predicate ErrorsCurrent(f: FormData, errors: map<Field, string>) {
    forall field :: field in errors && errors[field] != "" ==>
      var v := ValidateForm(f);
      field in v && errors[field] == v[field]
  }

  /** The state a submit that passed validation ends in, for each outcome. */
  ghost predicate SubmitResult(outcome: Outcome, f: FormData, errors: map<Field, string>,
                               f': FormData, errors': map<Field, string>,
                               submitted': bool, apiError': string, responseData': Json)
  {
    match outcome
    case Response(status, data) =>
      if IsSuccessStatus(status) then
        && submitted' && responseData' == data && apiError' == ""
        && f' == EmptyForm && errors' == map[]
      else
        && !submitted' && responseData' == Null && f' == f && errors' == errors
        && apiError' == (if data.Null? then ThrownErrorMessage(NullDetailAccess)
                         else ServerErrorMessage(status, data))
    case Thrown(msg) =>
      && !submitted' && responseData' == Null && f' == f && errors' == errors
      && apiError' == ThrownErrorMessage(msg)
  }

  /** Blanking the edited field's error and changing only that field keeps
      every remaining non-empty message current. */
  lemma EditKeepsErrorsCurrent(f: FormData, errors: map<Field, string>,
                               field: Field, value: string, errors': map<Field, string>)
    requires ErrorsCurrent(f, errors)
    requires errors' == if field in errors && errors[field] != ""
                         then errors[field := ""] else errors
    ensures ErrorsCurrent(f.With(field, value), errors')
  {
    var f' := f.With(field, value);
    forall other | other in errors' && errors'[other] != ""
      ensures other in ValidateForm(f') && errors'[other] == ValidateForm(f')[other]
    {
      assert other != field;
      ValidateFormIsLocal(f, field, value, other);
    }
  }
}
