# Mobile navigation and contact-form validation, modelled in Dafny

The website's `public/script.js` gives a marketing page two behaviours:

- a collapsible mobile navigation menu (`MobileNavigation`);
- inline validation of the contact form (`FormHandler`).

This project models the decision logic of both, with the DOM replaced by plain state, and proves what that logic promises.

- `navigation.dfy` (module `Navigation`): the menu state. It has three parts: the `active` class of the menu, the toggle's `aria-expanded` and the body's `overflow`. The module holds the transitions `openMenu`, `closeMenu` and `toggleMenu`, the document-level click and `keydown` listeners, and the guard that attaches no listener when `#nav-toggle` or `#nav-menu` is missing. Events are a datatype. A click on the toggle or on a menu link runs its own listener and then bubbles to the document listener. `Dispatch` and `Run` give the effect of one event and of a sequence. The class `MobileNavigation` holds the same state as fields and updates it in place.
- `js_string.dfy` (module `JsString`): `String.prototype.trim` over a fixed whitespace set, a first-index search, and `replace` with a one-character string pattern (first occurrence only).
- `email_pattern.dfy` (module `EmailPattern`): the email regular expression at `public/script.js:97`, as written (see below) and over UTF-16 code units as a regular expression without the `u` flag runs. It has a reference definition (`MatchesAsWritten`) and a backtracking-free decision procedure (`Test`) proved equal to it.
- `field_validation.dfy` (module `FieldValidation`): `getFieldLabel` and the pass/fail decision of `validateField`, as functions over a `Field` record (required flag, type, value, optional label text).
- `form_handler.dfy` (module `FormHandling`): the class `FormHandler`. It holds the form's controls and, for each one, the UI state of its `.form-group`: the `error` class, the error text and `aria-live`. Its methods are `validateField`, `clearError`, `validateForm` (visits every required control and never stops early) and the invalid-form branch of `handleContactSubmit`.

### The email pattern as written

The source writes `/^[^\\s@]+@[^\\s@]+\\.[^\\s@]+$/` as a regular expression literal, where `\\` is one literal backslash. So:

- `[^\\s@]` excludes a backslash, the letter `s` and `@`. It does not exclude whitespace.
- `\\.` is a backslash followed by any non-line-terminator. It is not a literal dot.
- Without the `u` flag, `.` takes one UTF-16 code unit. If the character after the backslash lies outside the Basic Multilingual Plane, its low surrogate is left over and forms the last run by itself. So `a@b\😀` is accepted (`AstralAfterBackslashAccepted`). This is the only place where reading the input as code points would give a different answer.

The model follows the code. `AcceptedHaveBackslash` proves that every accepted string contains a backslash. `OrdinaryAddressRejected` shows that `jo@example.com` is rejected, and `OrdinaryAddressIntended` that it has the evidently intended `local@domain.tld` shape (`IntendedShape`, the pattern read with single backslashes). `BackslashFormAccepted` shows that `a@b\xc` is accepted. An email field holding a real address therefore always fails with "Please enter a valid email address.". The validator keeps the pattern as written, because that is what the page does.

### Which controls are checked

- Blur and input handlers are attached only to `input[required], textarea[required]` (`public/script.js:76`), and `validateForm` selects the same controls (line 132). So an optional email control is never validated on this page. `ValidateForm` visits required controls only, while `Validate` itself decides any control, as `validateField` does.
- An ordinary `local@domain.tld` address fails the email check (see "The email pattern as written").

### Assumptions

- Whitespace for `trim` is the ECMAScript WhiteSpace and LineTerminator set, with the Space_Separator category as of Unicode 15 (`JsString.IsWhitespace`).
- Every control sits in its own `.form-group`, so `groups[i]` belongs to `fields[i]`. `fields` lists the form's `input` and `textarea` controls in document order.
- Every `.form-group` contains an `.error-message` element. A `GroupUi` stands for both the group and that element.

## Model

| member | source | states |
|---|---|---|
| `Navigation.Toggled` | public/script.js:34-41 | `toggleMenu` flips `active` and leaves the three parts in agreement |
| `Navigation.AfterDocumentClick` | public/script.js:19-23 | the document click listener never opens the menu; a click outside both elements closes it; a click inside either changes nothing |
| `Navigation.AfterKeyDown` | public/script.js:26-30 | the `keydown` listener never opens the menu; Escape closes it; any other key changes nothing |
| `Navigation.Dispatch` | public/script.js:9-31 | without the listeners nothing changes; a toggle click flips `active`; no other event opens the menu; every event keeps the three parts in agreement |
| `Navigation.ToggleFlips` | public/script.js:34-41 | toggling flips `active` and always leaves the three parts in agreement: closed with "false"/"" or open with "true"/"hidden" |
| `Navigation.ToggleTwice` | public/script.js:34-53 | two toggles restore the open/closed state, and the whole state when its parts agreed |
| `Navigation.OwnListenersWin` | public/script.js:11-23 | a toggle click toggles, because the document listener it bubbles to sees a target inside the toggle; a menu-link click closes |
| `Navigation.DocumentEventsOnlyClose` | public/script.js:19-30 | any event but a toggle click only closes the menu or changes nothing; a click outside both elements closes; a click inside either changes nothing; Escape closes; other keys change nothing |
| `Navigation.UnwiredIgnoresEverything` | public/script.js:10-31 | when either element is missing, no sequence of events changes the state |
| `Navigation.OnlyToggleOpens` | public/script.js:10-53 | a sequence with no toggle click ends in the starting state or closed, never newly open |
| `Navigation.StaysInSync` | public/script.js:43-53 | once `active`, `aria-expanded` and `overflow` agree, every event sequence keeps them in agreement |
| `Navigation.ToggleParity` | public/script.js:34-41 | after n toggle clicks the menu is open iff it started open XOR n is odd |
| `Navigation.MobileNavigation.constructor` | public/script.js:3-10 | listeners exist exactly when both elements were found; the page state is as loaded |
| `Navigation.MobileNavigation.OpenMenu` | public/script.js:43-47 | sets `active`, `aria-expanded` "true" and overflow "hidden" |
| `Navigation.MobileNavigation.CloseMenu` | public/script.js:49-53 | clears `active`, sets `aria-expanded` "false" and overflow "", whatever the state before, so it is idempotent |
| `Navigation.MobileNavigation.ToggleMenu` | public/script.js:34-41 | the new state is `Toggled` of the old one, with `active` flipped |
| `Navigation.MobileNavigation.DocumentClick` | public/script.js:19-23 | closes only when the target is inside neither the toggle nor the menu |
| `Navigation.MobileNavigation.Handle` | public/script.js:9-31 | delivering an event to the attached listeners, in browser order, gives `Dispatch` of the old state |
| `JsString.TrimStart` | public/script.js:90 | result is a suffix, everything dropped is whitespace, and it does not start with whitespace |
| `JsString.TrimEnd` | public/script.js:90 | result is a prefix, everything dropped is whitespace, and it does not end with whitespace |
| `JsString.Trim` | public/script.js:90 | result has no whitespace at either end and is no longer than the input; it is empty iff the input is all whitespace |
| `JsString.TrimParts` | public/script.js:90 | trimming the front and then the back leaves a contiguous slice of the input, starting where the leading whitespace ends |
| `JsString.TrimIdempotent` | public/script.js:90 | trimming a trimmed value changes nothing |
| `JsString.TrimPadded` | public/script.js:90 | `trim` ignores whitespace padding on either side |
| `JsString.IndexOf` | public/script.js:128 | returns the first position of the character, or the length when it does not occur |
| `JsString.RemoveFirst` | public/script.js:128 | removes exactly one occurrence (multiset minus one) when there is one and returns the input unchanged otherwise; characters before the first occurrence keep their place |
| `JsString.RemoveFirstAfterPrefix` | public/script.js:128 | the occurrence removed is the first one |
| `EmailPattern.Test` | public/script.js:97-98 | an accepted string matches the pattern as written and contains an `@` and a backslash |
| `EmailPattern.TestMatchesPattern` | public/script.js:97-98 | the decision procedure accepts exactly the language of the pattern as written |
| `EmailPattern.OnlySplit` | public/script.js:97 | any split the pattern accepts uses the first `@` and the first backslash after it |
| `EmailPattern.AcceptedHaveBackslash` | public/script.js:97 | every accepted string contains a backslash |
| `EmailPattern.AcceptedLocalPartHasNoLetterS` | public/script.js:97 | an accepted string has no letter `s` before its `@` |
| `EmailPattern.IntendedFromParts` | public/script.js:97 | any `local@domain.tld` built from non-empty runs of non-whitespace, non-`@` characters has the evidently intended shape |
| `EmailPattern.OrdinaryAddressIntended` | public/script.js:97 | `jo@example.com` has the intended shape |
| `EmailPattern.OrdinaryAddressRejected` | public/script.js:97 | `jo@example.com` is rejected by the pattern as written |
| `EmailPattern.BackslashFormAccepted` | public/script.js:97 | `a@b\xc` is accepted as written |
| `EmailPattern.AstralAfterBackslashAccepted` | public/script.js:97 | `a@b\😀` is accepted: `.` takes the high surrogate and the low one is the last run |
| `FieldValidation.IsBlank` | public/script.js:90 | `!field.value.trim()` holds iff the value is all whitespace |
| `FieldValidation.FieldLabel` | public/script.js:126-129 | "This field" without a label; otherwise a trimmed text no longer than the label, equal to the trimmed label when it has no `*` |
| `FieldValidation.MarkerDropped` | public/script.js:128 | a label "name*rest" becomes the trimmed "namerest" |
| `FieldValidation.SecondMarkerKept` | public/script.js:128 | only the first `*` is removed; a second one stays |
| `FieldValidation.Validate` | public/script.js:83-102 | a field is invalid iff it carries a non-empty message |
| `FieldValidation.RequiredBlankFails` | public/script.js:90-93 | a required all-whitespace value fails with "<label> is required." |
| `FieldValidation.EmailMismatchFails` | public/script.js:96-101 | an email field with a non-blank value the pattern rejects fails with exactly "Please enter a valid email address." |
| `FieldValidation.OptionalBlankPasses` | public/script.js:90-102 | an optional blank field always passes, whatever its type |
| `FieldValidation.FailsIffARuleFires` | public/script.js:89-102 | fails iff required and blank, or email-typed, non-blank and not matching the pattern as written |
| `FieldValidation.PaddingIgnored` | public/script.js:90-98 | whitespace around the value never changes the outcome |
| `FormHandling.Render` | public/script.js:104-113 | a failure adds the `error` class, shows its message and makes the live region "polite"; a pass removes the class, clears the text and sets "off" |
| `FormHandling.RenderFaithful` | public/script.js:104-115 | the group's UI reads back as exactly the returned outcome; `aria-live` is "off" on a pass and "polite" on a failure |
| `FormHandling.ClearedIsPassing` | public/script.js:118-124 | the cleared state reads back as a pass with no message and is what any passing field renders |
| `FormHandling.FirstErrored` | public/script.js:149 | returns the first group with the `error` class, or None iff no group has it |
| `FormHandling.BlockedSubmitHasFocusTarget` | public/script.js:147-153 | when a required field fails, a control to focus exists and comes no later than that field |
| `FormHandling.FilledFormPasses` | public/script.js:131-142 | required fields all non-blank and email values all accepted give a valid form |
| `FormHandling.FormHandler.ValidateField` | public/script.js:83-116 | returns the decision and writes its rendering into that control's group only |
| `FormHandling.FormHandler.ClearError` | public/script.js:118-124 | the control's group becomes cleared whatever it was, so it is idempotent; other groups are untouched |
| `FormHandling.FormHandler.ValidateForm` | public/script.js:131-142 | returns true iff every required field passes; every required field's group shows its own outcome, so nothing is skipped after a failure |
| `FormHandling.FormHandler.HandleContactSubmit` | public/script.js:144-154 | proceeds iff the form is valid; otherwise blocks with the first errored control as focus target, which always exists |

## Left out

- DOM lookup and listener registration (`getElementById`, `querySelectorAll`, `closest`, `addEventListener`, `bind`, `setupRealTimeValidation`): replaced by explicit state, the `wired` flag and event values.
- The `focus()` call itself: the model only says which control would be focused.
- The unconditional `e.preventDefault()` at the start of `handleContactSubmit`: it stops the browser's own form submission and has no state in the model.
- Everything after `public/script.js:155`: the asynchronous submission (the file is cut off at line 156) and `handleNewsletterSubmit`. These are network calls and UI feedback that are not visible here.
- A general regular-expression engine: only the one pattern at line 97 is modelled.
- Unicode data beyond the fixed whitespace set: `trim` is modelled over that set.
- The CSS and layout effect of the `active` class and of `overflow`: they are kept as a flag and a string. Other classes on the menu are not modelled.
- Controls sharing one `.form-group`: each control is assumed to have its own group.
- A control outside any `.form-group`, or a group without an `.error-message`: on the page `closest` or `querySelector` returns null and `validateField` throws a TypeError (`public/script.js:85`, `107`, `111`), as do `clearError` (120-122) and `getFieldLabel` (127). The throw stops `validateForm`'s `forEach` part-way and rejects `handleContactSubmit`'s promise before the focus step. The model assumes both elements exist and does not model the throw.
