/**
 * The contact form: the submit-time check of the four fields (`ContactForm.validateForm`),
 * the per-field check run when a field loses focus (`ContactForm.validateInput`), the
 * inline error each field shows, and the single error banner of the form.
 *
 * The submit-time rules test the e-mail address untrimmed and demand 2, 5 and 10 code
 * units for name, subject and message; the blur-time rules trim first, let an empty
 * address through, and demand 2 code units of a `text` field and 5 of any other field.
 * The lemmas at the end state where the two disagree.
 */
module ContactForm {
  import opened Wrappers
  import opened Text
  import opened Email

  const NameError := "Name must be at least 2 characters long"
  const EmailError := "Please enter a valid email address"
  const SubjectError := "Subject must be at least 5 characters long"
  const MessageError := "Message must be at least 10 characters long"
  const TextTooShort := "This field must be at least 2 characters long"
  const FieldTooShort := "This field must be at least 5 characters long"
  const ErrorBorder := "#ff6b6b"

  /** The submitted form data; `None` is a field the form did not send. */
  datatype FormData = FormData(name: Option<string>, email: Option<string>, subject: Option<string>, message: Option<string>)

  /** What `validateForm` decides: the flag it returns and the messages it hands to the banner. */
  datatype FormVerdict = FormVerdict(valid: bool, errors: seq<string>)

  /** A trimmed text shorter than `min` UTF-16 code units. */
  predicate TooShort(value: string, min: nat)
  {
    Utf16Length(Trim(value)) < min
  }

  /** A length rule of the submit-time check fails: the field is missing, empty, or too short once trimmed. */
  predicate LengthRuleFails(field: Option<string>, min: nat)
  {
    field.None? || field.value == "" || TooShort(field.value, min)
  }

  /** The e-mail rule of the submit-time check fails: the address is missing, empty, or, untrimmed, does not match. */
  predicate EmailRuleFails(field: Option<string>)
  {
    field.None? || field.value == "" || !IsValidEmail(field.value)
  }

  /** The message `validateForm` reports for each rule that fails. */
  predicate Reported(d: FormData, m: string)
  {
    || (m == NameError && LengthRuleFails(d.name, 2))
    || (m == EmailError && EmailRuleFails(d.email))
    || (m == SubjectError && LengthRuleFails(d.subject, 5))
    || (m == MessageError && LengthRuleFails(d.message, 10))
  }

  /** The position of a message in the fixed order name, email, subject, message. */
  function Rank(m: string): nat
  {
    if m == NameError then 0
    else if m == EmailError then 1
    else if m == SubjectError then 2
    else 3
  }

  /** The four messages are distinct and ranked in the order of the checks. */
  lemma MessagesRanked()
    ensures Rank(NameError) == 0 && Rank(EmailError) == 1 && Rank(SubjectError) == 2 && Rank(MessageError) == 3
  {
    assert |NameError| == 39 && |EmailError| == 34 && |SubjectError| == 42 && |MessageError| == 43;
  }

  /**
   * `validateForm`: every failing rule contributes its message, in the order name, email,
   * subject, message, each at most once; the form is valid exactly when no message is reported.
   */
  function ValidateForm(d: FormData): (r: FormVerdict)
    ensures r.valid <==> r.errors == []
    ensures forall m :: m in r.errors <==> Reported(d, m)
    ensures InCheckOrder(r.errors)
  {
    var nameFails := LengthRuleFails(d.name, 2);
    var emailFails := EmailRuleFails(d.email);
    var subjectFails := LengthRuleFails(d.subject, 5);
    var messageFails := LengthRuleFails(d.message, 10);
    MessagesRanked();
    var e1 := if nameFails then [NameError] else [];
    var e2 := Push(e1, emailFails, EmailError);
    var e3 := Push(e2, subjectFails, SubjectError);
    var e4 := Push(e3, messageFails, MessageError);
    FormVerdict(!(nameFails || emailFails || subjectFails || messageFails), e4)
  }

  /** Messages in strictly increasing rank: in check order and without repetition. */
  predicate InCheckOrder(errors: seq<string>)
  {
    forall i, j :: 0 <= i < j < |errors| ==> Rank(errors[i]) < Rank(errors[j])
  }

  /** `errors.push(m)` when the check failed; a message ranked after every earlier one keeps the order. */
  function Push(errors: seq<string>, fails: bool, m: string): (r: seq<string>)
    requires InCheckOrder(errors) && forall x :: x in errors ==> Rank(x) < Rank(m)
    ensures InCheckOrder(r) && forall x :: x in r ==> Rank(x) <= Rank(m)
    ensures forall x :: x in r <==> x in errors || (fails && x == m)
  {
    if fails then errors + [m] else errors
  }

  /** A form control as the blur handler sees it: its `type` attribute, `required` flag and current value. */
  datatype Input = Input(kind: string, required: bool, value: string)

  /** The least trimmed length the blur-time rule demands of a required field that is not an e-mail field. */
  function BlurMinimum(kind: string): nat
  {
    if kind == "text" then 2 else 5
  }

  /**
   * `validateInput`: `None` when the field is valid, else the one message to show under it.
   * An e-mail field is valid when its trimmed value is empty or matches the pattern; any
   * other field is valid when it is optional or its trimmed value is long enough for its type.
   */
  function ValidateInput(input: Input): (r: Option<string>)
    ensures input.kind == "email" ==>
              (r.None? <==> Trim(input.value) == [] || MatchesEmailPattern(Trim(input.value)))
    ensures input.kind != "email" ==>
              (r.None? <==> !input.required || !TooShort(input.value, BlurMinimum(input.kind)))
    ensures r.Some? ==> r.value == (if input.kind == "email" then EmailError
                                    else if input.kind == "text" then TextTooShort
                                    else FieldTooShort)
  {
    var value := Trim(input.value);
    EmailPatternIff(value);
    if input.kind == "email" then
      if value != [] && !IsValidEmail(value) then Some(EmailError) else None
    else if input.kind == "text" then
      if input.required && Utf16Length(value) < 2 then Some(TextTooShort) else None
    else
      if input.required && Utf16Length(value) < 5 then Some(FieldTooShort) else None
  }

  /** When every rule fails, all four messages are reported, in check order, and the form is blocked. */
  lemma AllRulesFail(d: FormData)
    requires LengthRuleFails(d.name, 2) && EmailRuleFails(d.email)
    requires LengthRuleFails(d.subject, 5) && LengthRuleFails(d.message, 10)
    ensures ValidateForm(d) == FormVerdict(false, [NameError, EmailError, SubjectError, MessageError])
  {
  }

  /** Four fields that each fail their rule: `A`, `bad`, `hi`, `short`. */
  lemma ShortFieldsExample()
    ensures ValidateForm(FormData(Some("A"), Some("bad"), Some("hi"), Some("short"))) ==
            FormVerdict(false, [NameError, EmailError, SubjectError, MessageError])
  {
    ExampleFieldsTooShort();
    AllRulesFail(FormData(Some("A"), Some("bad"), Some("hi"), Some("short")));
  }

  lemma ExampleFieldsTooShort()
    ensures LengthRuleFails(Some("A"), 2) && LengthRuleFails(Some("hi"), 5) && LengthRuleFails(Some("short"), 10)
    ensures EmailRuleFails(Some("bad"))
  {
    ShortLiteral("A", 2);
    ShortLiteral("hi", 5);
    ShortLiteral("short", 10);
    assert '@' !in "bad";
  }

  /** Four fields that each meet their rule: `Jo`, `a@b.co`, `Hello there`, `This is long enough`. */
  lemma WellFormedExample()
    ensures ValidateForm(FormData(Some("Jo"), Some("a@b.co"), Some("Hello there"), Some("This is long enough"))).valid
  {
    ExampleNameAndEmailPass();
    ExampleSubjectPasses();
    ExampleMessagePasses();
  }

  lemma ExampleNameAndEmailPass()
    ensures !LengthRuleFails(Some("Jo"), 2) && !EmailRuleFails(Some("a@b.co"))
  {
    LongLiteral("Jo", 2);
    FirstAtIs("a@b.co", 1);
    assert "a@b.co"[2..][1] == '.';
  }

  lemma ExampleSubjectPasses()
    ensures !LengthRuleFails(Some("Hello there"), 5)
  {
    LongLiteral("Hello there", 5);
  }

  lemma ExampleMessagePasses()
    ensures !LengthRuleFails(Some("This is long enough"), 10)
  {
    LongLiteral("This is long enough", 10);
  }

  /** A text without surrounding spaces and inside the Basic Multilingual Plane is too short when it has fewer than `min` characters. */
  lemma {:induction false} ShortLiteral(s: string, min: nat)
    requires s != [] && !IsSpace(s[0]) && !IsSpace(s[|s| - 1])
    requires forall k :: 0 <= k < |s| ==> s[k] as int <= 0xFFFF
    requires |s| < min
    ensures TooShort(s, min)
  {
    TrimFixed(s);
    Utf16LengthOfBmp(s);
  }

  /** A text without surrounding spaces and inside the Basic Multilingual Plane meets a minimum of at most its number of characters. */
  lemma {:induction false} LongLiteral(s: string, min: nat)
    requires s != [] && !IsSpace(s[0]) && !IsSpace(s[|s| - 1])
    requires forall k :: 0 <= k < |s| ==> s[k] as int <= 0xFFFF
    requires min <= |s|
    ensures !LengthRuleFails(Some(s), min)
  {
    TrimFixed(s);
    Utf16LengthOfBmp(s);
  }

  /** Trimming removes one white-space character of padding on each side of a text that has no white space at its ends. */
  lemma {:induction false} TrimPadded(c: char, s: string)
    requires IsSpace(c)
    requires s != [] && !IsSpace(s[0]) && !IsSpace(s[|s| - 1])
    ensures Trim([c] + s + [c]) == s
  {
    var padded := [c] + s + [c];
    assert padded == [c] + (s + [c]);
    TrimSkipsLeadingSpace(c, s + [c]);
    assert TrimStart(s + [c]) == s + [c];
    assert (s + [c])[..|s|] == s;
    assert TrimEnd(s + [c]) == TrimEnd(s);
    TrimFixed(s);
  }

  /**
   * An address that matches once trimmed, padded on both sides with a white-space character `c`
   * (a space, or U+00A0 that a browser's e-mail input does not strip): the blur check accepts
   * it, the submit check does not.
   */
  lemma {:induction false} PaddedEmailPassesBlurOnly(c: char, s: string, name: string, subject: string, message: string)
    requires IsSpace(c) && IsValidEmail(s)
    ensures ValidateInput(Input("email", true, [c] + s + [c])) == None
    ensures EmailError in ValidateForm(FormData(Some(name), Some([c] + s + [c]), Some(subject), Some(message))).errors
  {
    var padded := [c] + s + [c];
    var d := FormData(Some(name), Some(padded), Some(subject), Some(message));
    assert !IsValidEmail(padded) by { SpaceMakesEmailInvalid(padded, 0); }
    assert Reported(d, EmailError);
    ValidEmailHasOneAt(s);
    assert s != [] && !IsSpace(s[0]) && !IsSpace(s[|s| - 1]);
    TrimPadded(c, s);
    ValidEmailMatches(s);
  }

  /**
   * A required message whose trimmed length is 5 to 9 code units passes the blur check of a
   * `textarea` but fails the submit check.
   */
  lemma {:induction false} MidLengthMessagePassesBlurOnly(d: FormData)
    requires d.message.Some? && 5 <= Utf16Length(Trim(d.message.value)) < 10
    ensures ValidateInput(Input("textarea", true, d.message.value)) == None
    ensures MessageError in ValidateForm(d).errors && !ValidateForm(d).valid
  {
    assert Reported(d, MessageError);
  }

  /**
   * A required subject of 2 to 4 code units passes the blur check of a `text` field but fails the
   * submit check; a required `text` field that passes on blur always meets the name rule.
   */
  lemma {:induction false} TextBlurRuleVersusSubmit(d: FormData)
    requires d.subject.Some? && 2 <= Utf16Length(Trim(d.subject.value)) < 5
    ensures ValidateInput(Input("text", true, d.subject.value)) == None
    ensures SubjectError in ValidateForm(d).errors
    ensures d.name.Some? && ValidateInput(Input("text", true, d.name.value)) == None ==>
              NameError !in ValidateForm(d).errors
  {
    assert Reported(d, SubjectError);
    if d.name.Some? && ValidateInput(Input("text", true, d.name.value)) == None {
      assert !Reported(d, NameError);
    }
  }

  /**
   * One form control with its inline error: `inlineErrors` are the `.input-error` elements
   * beside the control and `borderColor` is the control's border colour.
   */
  class FormField {
    const kind: string
    const required: bool
    var value: string
    var inlineErrors: seq<string>
    var borderColor: string

    /** At most one inline error, and the red border exactly while one is shown. */
    ghost predicate Valid()
      reads this
    {
      |inlineErrors| <= 1 && borderColor == (if inlineErrors == [] then "" else ErrorBorder)
    }

    function AsInput(): (i: Input)
      reads this
      ensures i.kind == kind && i.required == required && i.value == value
    {
      Input(kind, required, value)
    }

    constructor (kind: string, required: bool, value: string)
      ensures Valid()
      ensures this.kind == kind && this.required == required && this.value == value
      ensures inlineErrors == []
    {
      this.kind := kind;
      this.required := required;
      this.value := value;
      inlineErrors := [];
      borderColor := "";
    }

    /** `clearInputError`: removes the first inline error, if there is one, and resets the border. */
    method ClearInputError()
      requires Valid()
      modifies this
      ensures Valid()
      ensures inlineErrors == (if old(inlineErrors) == [] then [] else old(inlineErrors)[1..])
      ensures inlineErrors == [] && borderColor == ""
      ensures value == old(value)
    {
      if inlineErrors != [] {
        inlineErrors := inlineErrors[1..];
      }
      borderColor := "";
    }

    /** `showInputError`: clears the old error first, so exactly one error is shown afterwards. */
    method ShowInputError(message: string)
      requires Valid()
      modifies this
      ensures Valid()
      ensures inlineErrors == [message] && borderColor == ErrorBorder
      ensures value == old(value)
    {
      ClearInputError();
      inlineErrors := inlineErrors + [message];
      borderColor := ErrorBorder;
    }

    /** The blur handler: a valid field shows no inline error, an invalid one shows exactly its message. */
    method Blur()
      requires Valid()
      modifies this
      ensures Valid()
      ensures value == old(value)
      ensures inlineErrors == match ValidateInput(old(AsInput())) case None => [] case Some(m) => [m]
    {
      var verdict := ValidateInput(AsInput());
      if verdict.Some? {
        ShowInputError(verdict.value);
      } else {
        ClearInputError();
      }
    }

    /** The input handler: the user changed the value; any inline error goes away until the next blur. */
    method Edit(newValue: string)
      requires Valid()
      modifies this
      ensures Valid()
      ensures value == newValue && inlineErrors == []
    {
      value := newValue;
      ClearInputError();
    }
  }

  /**
   * The form's banner area and its submissions: `errorBanners` holds the message lists of the
   * `.error-message` banners currently in the form; `sent` counts the forms handed to `submitForm`.
   */
  class ContactFormView {
    var errorBanners: seq<seq<string>>
    var sent: nat

    /** At most one error banner is in the form. */
    ghost predicate Valid()
      reads this
    {
      |errorBanners| <= 1
    }

    constructor ()
      ensures Valid() && errorBanners == [] && sent == 0
    {
      errorBanners := [];
      sent := 0;
    }

    /** `showErrors`: every existing error banner is removed and one banner with `errors` is inserted. */
    method ShowErrors(errors: seq<string>)
      modifies this
      ensures Valid()
      ensures errorBanners == [errors] && sent == old(sent)
    {
      errorBanners := [errors];
    }

    /** The submit handler: an invalid form replaces the banner, a valid one is handed to `submitForm`. */
    method Submit(d: FormData) returns (accepted: bool)
      requires Valid()
      modifies this
      ensures Valid()
      ensures accepted == ValidateForm(d).valid
      ensures accepted ==> errorBanners == old(errorBanners) && sent == old(sent) + 1
      ensures !accepted ==> errorBanners == [ValidateForm(d).errors] && sent == old(sent)
    {
      var verdict := ValidateForm(d);
      accepted := verdict.valid;
      if accepted {
        sent := sent + 1;
      } else {
        ShowErrors(verdict.errors);
      }
    }
  }
}
