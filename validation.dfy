/**
 * The form's four fields and `validateForm`, the pure check that maps the
 * current field values to the error message of each failing field.
 */
module Validation {
  import opened JsString
  import opened EmailPattern

  /** The `name` attributes of the form's four inputs. */
  datatype Field = Name | Email | Phone | Message

  /** The component's `formData` object. */
  datatype FormData = FormData(name: string, email: string, phone: string, message: string)
  {
    /** `formData[field]`. */
    function Get(field: Field): string {
      match field
      case Name => name
      case Email => email
      case Phone => phone
      case Message => message
    }

    /** `{ ...formData, [field]: value }`: one field replaced, the others kept. */
    function With(field: Field, value: string): (r: FormData)
      ensures r.Get(field) == value
      ensures forall other :: other != field ==> r.Get(other) == Get(other)
    {
      match field
      case Name => this.(name := value)
      case Email => this.(email := value)
      case Phone => this.(phone := value)
      case Message => this.(message := value)
    }
  }

  /** The initial and post-success value: four empty strings. */
  const EmptyForm := FormData("", "", "", "")

  /** The JSON payload's values: every field trimmed. */
  function Trimmed(f: FormData): (r: FormData)
    ensures forall field :: r.Get(field) == Trim(f.Get(field))
  {
    FormData(Trim(f.name), Trim(f.email), Trim(f.phone), Trim(f.message))
  }

  /** Every payload value is already trimmed: trimming the payload again
      changes nothing, and no value starts or ends with whitespace. */
  lemma PayloadIsTrimmed(f: FormData)
    ensures Trimmed(Trimmed(f)) == Trimmed(f)
    ensures forall field :: var v := Trimmed(f).Get(field);
              v != [] ==> !IsWhitespace(v[0]) && !IsWhitespace(v[|v| - 1])
  {
    TrimIdempotent(f.name);
    TrimIdempotent(f.email);
    TrimIdempotent(f.phone);
    TrimIdempotent(f.message);
    forall field ensures var v := Trimmed(f).Get(field);
                         v != [] ==> !IsWhitespace(v[0]) && !IsWhitespace(v[|v| - 1]) {
      TrimSpec(f.Get(field));
    }
  }

  const NameRequired := "Name is required"
  const EmailRequired := "Email is required"
  const EmailInvalid := "Please enter a valid email address"
  const PhoneRequired := "Phone is required"
  const MessageRequired := "Message is required"

  /** The message the "required" rule gives each field. */
  function RequiredMessage(field: Field): string {
    match field
    case Name => NameRequired
    case Email => EmailRequired
    case Phone => PhoneRequired
    case Message => MessageRequired
  }

  /** Whether `value` passes every rule for `field`: non-blank, and for the
      e-mail field the plain description of what the pattern accepts. */
  predicate Passes(field: Field, value: string) {
    !IsBlank(value) && (field == Email ==> WellFormedEmail(value))
  }

  /** `validateForm`: four independent rules, each adding at most one entry.
      The three plain fields get their "required" message exactly when
      blank; the e-mail field gets "required" when blank, and otherwise the
      format message when the untrimmed value fails the pattern. */
  function ValidateForm(f: FormData): (r: map<Field, string>)
    ensures forall field :: field != Email ==>
              (field in r <==> IsBlank(f.Get(field)))
              && (field in r ==> r[field] == RequiredMessage(field))
    ensures Email in r <==> IsBlank(f.email) || !ValidateEmail(f.email)
    ensures Email in r ==> r[Email] == (if IsBlank(f.email) then EmailRequired else EmailInvalid)
  {
    var e0 := map[];
    var e1 := if IsBlank(f.name) then e0[Name := NameRequired] else e0;
    var e2 := if IsBlank(f.email) then e1[Email := EmailRequired]
              else if !ValidateEmail(f.email) then e1[Email := EmailInvalid]
              else e1;
    var e3 := if IsBlank(f.phone) then e2[Phone := PhoneRequired] else e2;
    var e4 := if IsBlank(f.message) then e3[Message := MessageRequired] else e3;
    e4
  }

  /** The e-mail entry, stated without the pattern. */
  lemma EmailEntryIff(f: FormData)
    ensures Email in ValidateForm(f) <==> !Passes(Email, f.email)
  {
    ValidateEmailIff(f.email);
  }

  /** A field has an entry exactly when it fails its rule, stated without the
      pattern; so the result is empty exactly when every field passes. */
  lemma ValidateFormIff(f: FormData)
    ensures forall field :: field in ValidateForm(f) <==> !Passes(field, f.Get(field))
    ensures ValidateForm(f) == map[] <==> forall field :: Passes(field, f.Get(field))
  {
    var r := ValidateForm(f);
    assert Name in r <==> !Passes(Name, f.name);
    assert Phone in r <==> !Passes(Phone, f.phone);
    assert Message in r <==> !Passes(Message, f.message);
    assert Email in r <==> !Passes(Email, f.email) by {
      EmailEntryIff(f);
    }
    forall field ensures field in r <==> !Passes(field, f.Get(field)) {
      if field == Name {
      } else if field == Email {
      } else if field == Phone {
      }
    }
    if r == map[] {
      assert Name !in r && Email !in r && Phone !in r && Message !in r;
    } else {
      var field :| field in r;
      assert !Passes(field, f.Get(field));
    }
  }

  /** Each field's entry depends on that field's value alone, so changing one
      field leaves every other field's entry as it was. */
  lemma ValidateFormIsLocal(f: FormData, field: Field, value: string, other: Field)
    requires other != field
    ensures var before, after := ValidateForm(f), ValidateForm(f.With(field, value));
            (other in after <==> other in before)
            && (other in before ==> after[other] == before[other])
  {
  }

  /** A non-blank e-mail with whitespace at either end always gets the format
      message, because the format check runs on the untrimmed value. */
  lemma PaddedEmailRejected(f: FormData)
    requires !IsBlank(f.email)
    requires IsWhitespace(f.email[0]) || IsWhitespace(f.email[|f.email| - 1])
    ensures Email in ValidateForm(f) && ValidateForm(f)[Email] == EmailInvalid
  {
    var k := if IsWhitespace(f.email[0]) then 0 else |f.email| - 1;
    WhitespaceNeverMatches(f.email, k);
  }

  /** A non-blank e-mail without an `@`, or with no `.` after its `@`, gets
      the format message and not the "required" one. */
  lemma MissingAtOrDotRejected(f: FormData)
    requires !IsBlank(f.email)
    requires (forall k :: 0 <= k < |f.email| ==> f.email[k] != '@')
             || (exists i :: 0 <= i < |f.email| && f.email[i] == '@'
                             && forall j :: i < j < |f.email| ==> f.email[j] != '.')
    ensures Email in ValidateForm(f) && ValidateForm(f)[Email] == EmailInvalid
  {
    MissingAtOrDotNeverMatches(f.email);
    ValidateEmailIff(f.email);
  }

  /** All four fields empty: four "required" messages, one per field. */
  lemma AllEmptyGivesFourRequired()
    ensures ValidateForm(EmptyForm)
            == map[Name := NameRequired, Email := EmailRequired,
                   Phone := PhoneRequired, Message := MessageRequired]
  {
    var r := ValidateForm(EmptyForm);
    assert forall field :: IsBlank(EmptyForm.Get(field));
    assert r.Keys == {Name, Email, Phone, Message};
  }

  /** A value whose first character is not whitespace is not blank. */
  lemma VisibleStartNotBlank(s: string)
    requires s != [] && !IsWhitespace(s[0])
    ensures !IsBlank(s)
  {
    TrimEmptyIff(s);
  }

  /** With every field filled in, the result is empty when the e-mail
      matches and holds only the format message when it does not. */
  lemma FilledFormResult(f: FormData)
    requires !IsBlank(f.name) && !IsBlank(f.email) && !IsBlank(f.phone) && !IsBlank(f.message)
    ensures ValidateForm(f) == if ValidateEmail(f.email) then map[] else map[Email := EmailInvalid]
  {
    var r := ValidateForm(f);
    assert Name !in r && Phone !in r && Message !in r;
    if ValidateEmail(f.email) {
      assert r.Keys == {};
    } else {
      assert r.Keys == {Email};
    }
  }

  /** A domain without a dot: only the e-mail format message. */
  lemma DotlessDomainGivesOnlyFormatError()
    ensures ValidateForm(FormData("Jo", "jo@x", "1", "hi")) == map[Email := EmailInvalid]
  {
    var f := FormData("Jo", "jo@x", "1", "hi");
    VisibleStartNotBlank(f.name);
    VisibleStartNotBlank(f.email);
    VisibleStartNotBlank(f.phone);
    VisibleStartNotBlank(f.message);
    RejectsDotlessDomains();
    FilledFormResult(f);
  }

  /** A well-formed filled-in form passes. */
  lemma FilledFormPasses()
    ensures ValidateForm(FormData("Jo", "jo@x.com", "1", "hi")) == map[]
  {
    var f := FormData("Jo", "jo@x.com", "1", "hi");
    VisibleStartNotBlank(f.name);
    VisibleStartNotBlank(f.email);
    VisibleStartNotBlank(f.phone);
    VisibleStartNotBlank(f.message);
    AcceptsPlainAddress();
    FilledFormResult(f);
  }
}
