/**
 * Whole interactions with a freshly mounted form: the user fills in or
 * edits fields, submits, and the request ends one way or another.
 */
module Scenarios {
  import opened JsString
  import opened Validation
  import opened ContactForm

  /** The values a user types into the four inputs, one after another. */
  const Filled := FormData("Jo", "jo@x.com", "1", "hi")

  /** Types `f` into `form` field by field; with no errors showing, only the
      fields change. */
  method FillIn(form: Form, f: FormData)
    requires form.Valid() && form.errors == map[]
    modifies form
    ensures form.Valid()
    ensures form.formData == f && form.errors == map[]
    ensures form.submitted == old(form.submitted) && form.apiError == old(form.apiError)
  {
    form.HandleChange(Name, f.name);
    form.HandleChange(Email, f.email);
    form.HandleChange(Phone, f.phone);
    form.HandleChange(Message, f.message);
  }

  /** The filled-in values pass validation and come back unchanged from
      trimming. */
  lemma FilledIsSendable()
    ensures ValidateForm(Filled) == map[]
    ensures Trimmed(Filled) == Filled
  {
    FilledFormPasses();
    FilledIsTrimmed();
  }

  lemma FilledIsTrimmed()
    ensures Trimmed(Filled) == Filled
  {
    TrimUnpadded(Filled.name);
    TrimUnpadded(Filled.email);
    TrimUnpadded(Filled.phone);
    TrimUnpadded(Filled.message);
  }

  const Duplicate := Value(Some("duplicate"), Some("ignored"), "")

  /** The banner for a 400 whose body carries both `detail` and `message`:
      the detail wins. */
  lemma RejectedBanner()
    ensures ServerErrorMessage(400, Duplicate) == "Server responded with status 400: duplicate"
  {
    assert DecimalString(400) == "400";
  }

  const Created := Value(None, None, "{\"id\":1}")

  /** A successful submit sends the trimmed values, shows the success banner,
      stores the response body and clears the form. */
  method SubmitSucceeds() returns (sent: Option<FormData>, submitted: bool,
                                    apiError: string, responseData: Json,
                                    fields: FormData, errors: map<Field, string>)
    ensures sent == Some(Filled)
    ensures submitted && apiError == ""
    ensures responseData == Created
    ensures fields == EmptyForm && errors == map[]
  {
    var form := new Form();
    FillIn(form, Filled);
    FilledIsSendable();
    sent := form.HandleSubmit(Response(200, Created));
    submitted, apiError, responseData := form.submitted, form.apiError, form.responseData;
    fields, errors := form.formData, form.errors;
  }

  /** A rejected request names the status and the server's detail, and keeps
      what the user typed. */
  method SubmitRejected() returns (submitted: bool, apiError: string, fields: FormData)
    ensures !submitted
    ensures apiError == "Server responded with status 400: duplicate"
    ensures fields == Filled
  {
    var form := new Form();
    FillIn(form, Filled);
    FilledIsSendable();
    var _ := form.HandleSubmit(Response(400, Duplicate));
    RejectedBanner();
    submitted, apiError, fields := form.submitted, form.apiError, form.formData;
  }

  /** A request that never reaches the server reports the exception's
      message (after the fixed prefix, as ThrownErrorMessage guarantees) and
      keeps what the user typed. */
  method SubmitUnreachable() returns (submitted: bool, apiError: string, fields: FormData)
    ensures !submitted
    ensures apiError == ThrownErrorMessage("Failed to fetch")
    ensures fields == Filled
  {
    var form := new Form();
    FillIn(form, Filled);
    FilledIsSendable();
    var _ := form.HandleSubmit(Thrown("Failed to fetch"));
    submitted, apiError, fields := form.submitted, form.apiError, form.formData;
  }

  /** Submitting the empty form sends nothing and shows four "required"
      messages; typing into the name field then blanks the name's message
      only. */
  method EmptySubmitThenEdit() returns (sent: Option<FormData>,
                                        afterSubmit: map<Field, string>,
                                        afterEdit: map<Field, string>)
    ensures sent == None
    ensures afterSubmit == map[Name := NameRequired, Email := EmailRequired,
                               Phone := PhoneRequired, Message := MessageRequired]
    ensures afterEdit == afterSubmit[Name := ""]
  {
    var form := new Form();
    AllEmptyGivesFourRequired();
    sent := form.HandleSubmit(Thrown("unused"));
    afterSubmit := form.errors;
    form.HandleChange(Name, "J");
    afterEdit := form.errors;
  }
}
