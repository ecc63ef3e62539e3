/** The page-updating half of `FormHandler`: each control's `.form-group`
    carries an `error` class, and its `.error-message` element a text and an
    `aria-live` value. `validateField` and `clearError` rewrite that triple,
    `validateForm` runs `validateField` over every required control, and the
    contact form's submit handler stops early when the form is invalid. */
module FormHandling {
  import opened FieldValidation

  /** The UI state of one `.form-group`: whether it has the `error` class,
      the `textContent` of its `.error-message` and that element's
      `aria-live` attribute. */
  datatype GroupUi = GroupUi(hasError: bool, errorText: string, ariaLive: string)

  /** The "Update UI" branch of `validateField` for a computed outcome. */
  function Render(o: Outcome): (r: GroupUi)
    ensures r.hasError <==> !o.isValid
    ensures r.ariaLive == (if o.isValid then "off" else "polite")
    ensures !o.isValid ==> r.errorText == o.errorMessage
    ensures o.isValid ==> r.errorText == []
  {
    if o.isValid then GroupUi(false, "", "off")
    else GroupUi(true, o.errorMessage, "polite")
  }

  /** What a reader of the page learns back from a group: valid when the
      group has no `error` class, with the shown text as the message. */
  function ReadBack(ui: GroupUi): Outcome {
    Outcome(!ui.hasError, ui.errorText)
  }

  /** The page shows exactly what `validateField` returned: reading the
      group back gives the outcome, and the live region is polite exactly
      when the field failed. */
  lemma RenderFaithful(f: Field)
    ensures ReadBack(Render(Validate(f))) == Validate(f)
    ensures Render(Validate(f)).ariaLive == (if Validate(f).isValid then "off" else "polite")
  {
  }

  /** The state `clearError` writes. */
  const Cleared: GroupUi := GroupUi(false, "", "off")

  /** Clearing shows what a pass shows: a cleared group reads back as a pass
      with no message, and every passing control renders as cleared. */
  lemma ClearedIsPassing(f: Field)
    ensures ReadBack(Cleared) == Outcome(true, "")
    ensures Validate(f).isValid ==> Render(Validate(f)) == Cleared
  {
  }

  /** The value of `validateForm`: every required control passes. */
  predicate FormIsValid(fields: seq<Field>) {
    forall i :: 0 <= i < |fields| && fields[i].required ==> Validate(fields[i]).isValid
  }

  /** The groups after `validateForm`: each required control's group shows
      its own outcome and the other groups are as they were. */
  function AfterValidation(fields: seq<Field>, groups: seq<GroupUi>): (r: seq<GroupUi>)
    requires |groups| == |fields|
    ensures |r| == |fields|
  {
    ValidatedUpTo(fields, groups, |fields|)
  }

  /** The groups once the required controls before `k` have been validated. */
  function ValidatedUpTo(fields: seq<Field>, groups: seq<GroupUi>, k: nat): (r: seq<GroupUi>)
    requires |groups| == |fields| && k <= |fields|
    ensures |r| == |fields|
  {
    seq(|fields|, j requires 0 <= j < |fields| =>
      if j < k && fields[j].required then Render(Validate(fields[j])) else groups[j])
  }

  /** The required controls before `k` all pass. */
  predicate PassUpTo(fields: seq<Field>, k: nat)
    requires k <= |fields|
  {
    forall j :: 0 <= j < k && fields[j].required ==> Validate(fields[j]).isValid
  }

  /** The index of the first control, in document order, whose group has
      the `error` class: the element the selector
      `.form-group.error input, .form-group.error textarea` finds. */
  function FirstErrored(groups: seq<GroupUi>): (r: Option<nat>)
    ensures r.Some? ==> r.value < |groups| && groups[r.value].hasError
    ensures r.Some? ==> forall j :: 0 <= j < r.value ==> !groups[j].hasError
    ensures r.None? <==> forall j :: 0 <= j < |groups| ==> !groups[j].hasError
  {
    if groups == [] then None
    else if groups[0].hasError then Some(0)
    else match FirstErrored(groups[1..])
      case None => None
      case Some(k) => Some(k + 1)
  }

  /** When `validateForm` fails there is always a control to focus, and it
      comes no later than the first required control that failed. */
  lemma BlockedSubmitHasFocusTarget(fields: seq<Field>, groups: seq<GroupUi>, bad: nat)
    requires |groups| == |fields|
    requires bad < |fields| && fields[bad].required && !Validate(fields[bad]).isValid
    ensures FirstErrored(AfterValidation(fields, groups)).Some?
    ensures FirstErrored(AfterValidation(fields, groups)).value <= bad
  {
    var after := AfterValidation(fields, groups);
    assert after[bad].hasError;
  }

  /** A form whose required controls are all non-blank and whose email
      controls all hold a value the pattern accepts passes `validateForm`,
      so its submission goes ahead. */
  lemma FilledFormPasses(fields: seq<Field>)
    requires forall i :: 0 <= i < |fields| && fields[i].required ==> !IsBlank(fields[i].value)
    requires forall i :: 0 <= i < |fields| && fields[i].inputType == "email" && !IsBlank(fields[i].value) ==>
               EmailPattern.Test(JsString.Trim(fields[i].value))
    ensures FormIsValid(fields)
  {
  }

  /** One step of `validateForm`: the prefix still passes iff it passed and
      control `k` is optional or passes. */
  lemma PassStep(fields: seq<Field>, k: nat)
    requires k < |fields|
    ensures PassUpTo(fields, k + 1) <==> PassUpTo(fields, k) && (!fields[k].required || Validate(fields[k]).isValid)
  {
  }

  /** One step of `validateForm` on a required control: its group now
      shows its outcome. */
  lemma ValidatedRequired(fields: seq<Field>, groups: seq<GroupUi>, k: nat)
    requires |groups| == |fields| && k < |fields| && fields[k].required
    ensures ValidatedUpTo(fields, groups, k)[k := Render(Validate(fields[k]))] == ValidatedUpTo(fields, groups, k + 1)
  {
  }

  /** One step of `validateForm` on a control that is not required: nothing
      changes. */
  lemma SkippedOptional(fields: seq<Field>, groups: seq<GroupUi>, k: nat)
    requires |groups| == |fields| && k < |fields| && !fields[k].required
    ensures ValidatedUpTo(fields, groups, k) == ValidatedUpTo(fields, groups, k + 1)
  {
  }

  /** What the contact form's submit handler decides: stop and focus a
      control (when there is one to focus), or go on to the submission. */
  datatype SubmitDecision = Blocked(focus: Option<nat>) | Proceed

  /** The contact form: its `input` and `textarea` controls in document
      order and, beside each, the UI state of the `.form-group` holding it. */
  class FormHandler {
    var fields: seq<Field>
    var groups: seq<GroupUi>

    ghost predicate Valid()
      reads this
    {
      |groups| == |fields|
    }

    constructor (fields: seq<Field>, groups: seq<GroupUi>)
      requires |groups| == |fields|
      ensures Valid() && this.fields == fields && this.groups == groups
    {
      this.fields := fields;
      this.groups := groups;
    }

    /** `validateField`: decide the control at `i`, show the outcome on its
      group, and return whether it passed. */
    method ValidateField(i: nat) returns (isValid: bool)
      requires Valid() && i < |fields|
      modifies this
      ensures Valid() && fields == old(fields)
      ensures isValid == Validate(fields[i]).isValid
      ensures groups == old(groups)[i := Render(Validate(fields[i]))]
    {
      var outcome := Validate(fields[i]);
      if outcome.isValid {
        groups := groups[i := GroupUi(false, "", "off")];
      } else {
        groups := groups[i := GroupUi(true, outcome.errorMessage, "polite")];
      }
      isValid := outcome.isValid;
    }

    /** `clearError`, run on every keystroke: the group of the control at
      `i` shows no error, whatever it showed before. */
    method ClearError(i: nat)
      requires Valid() && i < |fields|
      modifies this
      ensures Valid() && fields == old(fields)
      ensures groups == old(groups)[i := Cleared]
    {
      groups := groups[i := Cleared];
    }

    /** `validateForm`: validate every required control, without stopping
      at the first failure, and report whether all of them passed. */
    method ValidateForm() returns (isValid: bool)
      requires Valid()
      modifies this
      ensures Valid() && fields == old(fields)
      ensures isValid <==> FormIsValid(fields)
      ensures groups == AfterValidation(fields, old(groups))
    {
      isValid := true;
      var fs := fields;
      ghost var before := groups;
      var k := 0;
      while k < |fs|
        invariant fields == fs && k <= |fs|
        invariant isValid <==> PassUpTo(fs, k)
        invariant groups == ValidatedUpTo(fs, before, k)
      {
        PassStep(fs, k);
        if fs[k].required {
          ValidatedRequired(fs, before, k);
          var ok := ValidateField(k);
          if !ok {
            isValid := false;
          }
        } else {
          SkippedOptional(fs, before, k);
        }
        k := k + 1;
      }
    }

    /** The part of `handleContactSubmit` before the submission: validate
      the whole form and, if it fails, stop with the first errored control
      as the one to focus. */
    method HandleContactSubmit() returns (decision: SubmitDecision)
      requires Valid()
      modifies this
      ensures Valid() && fields == old(fields)
      ensures groups == AfterValidation(fields, old(groups))
      ensures decision.Proceed? <==> FormIsValid(fields)
      ensures decision.Blocked? ==> decision.focus == FirstErrored(groups) && decision.focus.Some?
    {
      var ok := ValidateForm();
      if !ok {
        ghost var bad :| 0 <= bad < |fields| && fields[bad].required && !Validate(fields[bad]).isValid;
        BlockedSubmitHasFocusTarget(fields, old(groups), bad);
        decision := Blocked(FirstErrored(groups));
        return;
      }
      decision := Proceed;
    }
  }
}
