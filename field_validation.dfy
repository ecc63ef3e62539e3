/** The pass/fail decision of `FormHandler.validateField` and the label it
    builds its message from (`getFieldLabel`), over a plain description of a
    form control in place of the DOM element. */
module FieldValidation {
  import opened JsString
  import EmailPattern

  datatype Option<T> = None | Some(value: T)

  /** What `validateField` reads from a control: whether it carries the
      `required` attribute, its `type`, its current `value`, and the text of
      the `label` in its `.form-group` (None when the group has no label). */
  datatype Field = Field(required: bool, inputType: string, value: string, labelText: Option<string>)

  /** The pair `validateField` computes before it updates the page. */
  datatype Outcome = Outcome(isValid: bool, errorMessage: string)

  const DefaultLabel: string := "This field"
  const RequiredSuffix: string := " is required."
  const EmailMessage: string := "Please enter a valid email address."

  /** `!field.value.trim()`: the value is empty once trimmed. */
  function IsBlank(value: string): (r: bool)
    ensures r <==> AllWhitespace(value)
  {
    Trim(value) == []
  }

  /** `getFieldLabel`: the label text with its first `*` removed, then
      trimmed; "This field" when the group has no label. */
  function FieldLabel(labelText: Option<string>): (r: string)
    ensures labelText.None? ==> r == DefaultLabel
    ensures labelText.Some? ==> IsTrimmed(r) && |r| <= |labelText.value|
    ensures labelText.Some? && '*' !in labelText.value ==> r == Trim(labelText.value)
  {
    match labelText
    case None => DefaultLabel
    case Some(text) => Trim(RemoveFirst(text, '*'))
  }

  /** A label written as a name, the required-marker `*` and more text is
      shown as the trimmed name and text, without the marker. */
  lemma MarkerDropped(name: string, rest: string)
    requires '*' !in name
    ensures FieldLabel(Some(name + "*" + rest)) == Trim(name + rest)
  {
    RemoveFirstAfterPrefix(name, '*', rest);
  }

  /** Only the first `*` goes: a label with two markers keeps one. */
  lemma SecondMarkerKept(name: string, middle: string, rest: string)
    requires '*' !in name && '*' !in middle
    ensures FieldLabel(Some(name + "*" + middle + "*" + rest)) == Trim(name + middle + "*" + rest)
  {
    RemoveFirstAfterPrefix(name, '*', middle + "*" + rest);
    assert name + "*" + middle + "*" + rest == name + ['*'] + (middle + "*" + rest);
    assert name + (middle + "*" + rest) == name + middle + "*" + rest;
  }

  /** The decision of `validateField`. The required check comes first and
      the email check second, so the email message would win; they never
      both fire, as one needs a blank value and the other a non-blank one.
      An invalid outcome always carries a message and a valid one never does. */
  function Validate(f: Field): (r: Outcome)
    ensures r.isValid <==> r.errorMessage == []
  {
    var trimmed := Trim(f.value);
    var afterRequired :=
      if f.required && trimmed == [] then Outcome(false, FieldLabel(f.labelText) + RequiredSuffix)
      else Outcome(true, "");
    if f.inputType == "email" && trimmed != [] && !EmailPattern.Test(trimmed) then
      Outcome(false, EmailMessage)
    else
      afterRequired
  }

  /** A required control whose value is only whitespace fails with
      "<label> is required.". */
  lemma RequiredBlankFails(f: Field)
    requires f.required && AllWhitespace(f.value)
    ensures Validate(f) == Outcome(false, FieldLabel(f.labelText) + " is required.")
  {
  }

  /** An email control with a non-blank value that the pattern rejects fails
      with exactly the fixed email message, required or not. */
  lemma EmailMismatchFails(f: Field)
    requires f.inputType == "email" && !IsBlank(f.value)
    requires !EmailPattern.Test(Trim(f.value))
    ensures Validate(f) == Outcome(false, "Please enter a valid email address.")
  {
  }

  /** A control that is not required and left blank always passes, whatever
      its type. */
  lemma OptionalBlankPasses(f: Field)
    requires !f.required && AllWhitespace(f.value)
    ensures Validate(f) == Outcome(true, "")
  {
  }

  /** The decision, both directions: a control fails exactly when it is
      required and blank, or it is an email control whose trimmed,
      non-empty value the pattern rejects. */
  lemma FailsIffARuleFires(f: Field)
    ensures !Validate(f).isValid <==>
              (f.required && AllWhitespace(f.value)) ||
              (f.inputType == "email" && !AllWhitespace(f.value) && !EmailPattern.MatchesAsWritten(Trim(f.value)))
  {
    EmailPattern.TestMatchesPattern(Trim(f.value));
  }

  /** Leading and trailing whitespace never change the decision. */
  lemma {:induction false} PaddingIgnored(f: Field, pad: string, pad': string)
    requires AllWhitespace(pad) && AllWhitespace(pad')
    ensures Validate(f.(value := pad + f.value + pad')) == Validate(f)
  {
    TrimPadded(pad, f.value, pad');
  }
}
