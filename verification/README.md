# Contact form, alert slot, mobile menu and smooth scroll of the KCC website

This project models the client-side behaviour of the KCC marketing site in Dafny and proves properties of that model. The site ships two scripts that do the same jobs: `assets/js/main.js` and `assets/js/script.js`. main.js is the more defensive of the two. The model covers:

- **The contact-form check, in both versions.** Each becomes a pure function from the form's controls to a verdict: `Valid`, `Missing`, `BadEmail` or `NoPrivacy`.
  - main.js runs three checks in order and reports the first failure: required fields after `trim`, then the e-mail pattern on the raw value, then the privacy checkbox.
  - script.js runs two checks. The first treats the raw required values and the privacy box together. The second is the same e-mail pattern.
  - `SubmitVariants` proves how the two versions differ. For example, a name of three blanks is rejected by main.js and accepted by script.js.
- **The e-mail test `/^[^\s@]+@[^\s@]+\.[^\s@]+$/`.** `EmailPattern.Matches` states it as the regular expression reads. `EmailPattern.WellShaped` says the same thing in plain words. Both are defined over one whitespace set, `Text.IsSpace`. In ECMAScript, `trim` and `\s` use the same set: the WhiteSpace and LineTerminator productions.
- **The alert in front of the form.** Both versions behave the same here, so one model serves both (`showAlert` in main.js, `showFormAlert` in script.js):
  - a new alert replaces the previous one, so at most one `.form-alert` exists;
  - a success alert starts a 5000 ms timer that removes that same element;
  - error alerts stay until replaced.
  - `FormAlert.Region` holds the page's alert ids, which alert is the form's previous sibling, and the queue of pending timers. `FormAlert.AlertSlot` is the class whose methods update that state in place.
- **The submit handlers** (`MainSubmit.HandleFormSubmit`, `ScriptSubmit.HandleSubmit`). Each one validates, resets the form only on success, and shows the matching alert.
- **The mobile menu of main.js** (`MainMenu`). Its state is the button's `aria-expanded` and `aria-label`, the panel's `hidden` class, the root's `overflow-hidden` class and the icon. A click is modelled as one event that reaches the button's or the panel's listener first and the document's listener after it. In script.js the menu button only toggles `hidden` (`ScriptMenu`).
- **The smooth-scroll frame guard of main.js** (`SmoothScroll`). While an animation frame is pending, the `ticking` flag drops further link clicks.

Browser services are inputs of the model:
- `FormData` and `getElementById` become the `Controls` record;
- `matchMedia` becomes a boolean;
- where a click landed becomes a `ClickTarget`;
- `querySelector` in the frame callback becomes a `Lookup`;
- timers become explicit "fire" steps.

A click inside the open menu panel closes it only when it lands in a `#` link. The document listener ignores all other clicks inside the panel (`MainMenu.PanelClick`).

## Model

| member | source | states |
|---|---|---|
| `Text.LeadingSpaces` | assets/js/main.js:186 | the whitespace that `trim` drops at the front: an all-space prefix followed by a non-space character or the end |
| `Text.TrailingSpaces` | assets/js/main.js:186 | the whitespace that `trim` drops at the back: an all-space suffix preceded by a non-space character or the start |
| `Text.Trim` | assets/js/main.js:186 | `trim` returns an infix with only whitespace around it that neither starts nor ends with whitespace; it is empty exactly when the input is all whitespace |
| `EmailPattern.MatchesIff` | assets/js/main.js:194 | the pattern matches exactly the strings with no whitespace, one `@`, a non-empty part before it and a part after it with a `.` that is neither first nor last |
| `EmailPattern.SimpleAddressMatches` | assets/js/script.js:71-72 | `a@b.co` passes the e-mail test |
| `EmailPattern.LeadingBlankFails` | assets/js/main.js:194 | the test sees the raw value, so a leading blank fails it |
| `EmailPattern.NoDotFails` | assets/js/script.js:71-72 | a value without a `.` fails the test |
| `ContactForm.Form.Reset` | assets/js/main.js:206 | `reset()` returns every control to the value its markup sets |
| `MainSubmit.MissingFields` | assets/js/main.js:185-186 | the filter keeps exactly the required fields that are absent or trim to empty |
| `MainSubmit.MissingIff` | assets/js/main.js:185-188 | the filter over the required list is non-empty exactly when some required value is absent or all whitespace |
| `MainSubmit.Validate` | assets/js/main.js:184-203 | Missing iff some required value is absent or all whitespace; BadEmail iff they are all supplied and the raw e-mail is not well shaped; NoPrivacy iff both pass and the box is unchecked; Valid iff all three pass |
| `MainSubmit.Response` | assets/js/main.js:188-207 | the alert is a success exactly for a valid submission |
| `MainSubmit.ResponsesDistinct` | assets/js/main.js:189-207 | each of the four outcomes shows its own message |
| `MainSubmit.OptionalFieldsIgnored` | assets/js/main.js:185 | `phone` and `company` never change the verdict |
| `MainSubmit.WhitespaceOnlyIsMissing` | assets/js/main.js:186-191 | a required value made of blanks gives the required-fields error whatever the other fields hold |
| `MainSubmit.HandleFormSubmit` | assets/js/main.js:178-208 | the form is reset iff the verdict is Valid; every error path leaves it as it was; exactly one alert, carrying the verdict's message, replaces any earlier one |
| `ScriptSubmit.Collect` | assets/js/script.js:54-62 | collecting succeeds iff every control exists; then each value is the control's raw value |
| `ScriptSubmit.Validate` | assets/js/script.js:65-75 | there is never a privacy verdict; Missing iff privacy is unchecked or a required value is the empty string; Valid iff privacy is checked, the values are non-empty and the raw e-mail is well shaped |
| `ScriptSubmit.Response` | assets/js/script.js:65-84 | the alert is a success exactly for a valid submission |
| `ScriptSubmit.BlanksPassRequiredCheck` | assets/js/script.js:65 | with no `trim`, blank-only values pass the required check |
| `ScriptSubmit.OptionalFieldsIgnored` | assets/js/script.js:57-58 | `phone` and `company` are collected but never change the verdict |
| `ScriptSubmit.HandleSubmit` | assets/js/script.js:50-85 | when a control is missing, the read throws and nothing changes; otherwise the form is reset iff the verdict is Valid and exactly one alert replaces any earlier one |
| `SubmitVariants.MainAcceptsOnlyWhatScriptAccepts` | assets/js/script.js:65-75 | every submission main.js accepts, script.js accepts too |
| `SubmitVariants.ScriptLooserOnlyOnBlanks` | assets/js/main.js:185-191 | when script.js accepts and main.js does not, main.js reports missing fields and some required value is non-empty but all blanks |
| `SubmitVariants.SameVerdictWithoutBlanks` | assets/js/main.js:184-203 | with privacy checked and no blank-only required value, the two handlers give the same verdict |
| `SubmitVariants.UncheckedPrivacy` | assets/js/script.js:65 | with privacy unchecked, script.js always reports missing fields; main.js reports its privacy error only when the other two checks pass |
| `SubmitVariants.MissingOptionalControl` | assets/js/script.js:57 | a form without a `phone` control passes main.js, while script.js throws while collecting |
| `SubmitVariants.SampleAccepted` | assets/js/main.js:205-207 | a complete sample submission with the address `a@b.co` is valid for both handlers |
| `SubmitVariants.BlankNameSplitsVariants` | assets/js/main.js:186 | the name "   " is missing for main.js and accepted by script.js |
| `SubmitVariants.ScriptAcceptsSample` | assets/js/script.js:65-75 | script.js accepts the sample submission for any non-empty name, blanks included |
| `FormAlert.Remove` | assets/js/main.js:222 | `remove()` takes away exactly the given element and leaves every other one |
| `FormAlert.ShowLeavesOnlyNew` | assets/js/main.js:210-219 | after a call, the only alert on the page is the new element, it sits directly before the form, and it carries the given message and kind |
| `FormAlert.TimerOnlyForSuccess` | assets/js/main.js:221-223 | the new element gets a removal timer iff it is a success alert; earlier timers stay |
| `FormAlert.FireRemovesOwnOnly` | assets/js/script.js:120-122 | a firing timer removes its own element and nothing else |
| `FormAlert.FireSparesOthers` | assets/js/main.js:222 | timers of other elements never remove a shown alert |
| `FormAlert.StaleTimerKeepsNewer` | assets/js/main.js:222 | whatever timers were pending, once those and the timer of a success alert have fired, the alert shown after it is still on the page |
| `FormAlert.ErrorAlertPersists` | assets/js/script.js:119 | no number of firing timers removes an error alert |
| `FormAlert.SuccessAlertRemoved` | assets/js/script.js:118-123 | a success alert is gone once the earlier timers and its own timer have fired |
| `FormAlert.AlertSlot.constructor` | assets/js/script.js:89 | the page starts with no alert and no timer |
| `FormAlert.AlertSlot.ShowAlert` | assets/js/script.js:89-124 | removes the first alert, inserts the new one as the form's previous sibling (`beforeForm`), and starts a timer for a success alert |
| `FormAlert.AlertSlot.FireTimer` | assets/js/script.js:120-122 | the oldest timer fires and removes its own element |
| `MainMenu.Opened` | assets/js/main.js:88-94 | `openMenu` leaves the menu expanded, with every attribute, class and icon agreeing |
| `MainMenu.Closed` | assets/js/main.js:96-102 | `closeMenu` leaves the menu collapsed, with every attribute, class and icon agreeing |
| `MainMenu.CloseIdempotent` | assets/js/main.js:96-102 | closing twice is closing once |
| `MainMenu.ToggleTwiceRestores` | assets/js/main.js:104-107 | from an agreeing state, two toggles restore every attribute, class and the icon |
| `MainMenu.ToggleFlips` | assets/js/main.js:104-107 | the toggle flips the expanded state, judged by `aria-expanded` alone |
| `MainMenu.OutsideClick` | assets/js/main.js:113-122 | a click outside both the menu and the button closes an open menu and leaves a closed one untouched |
| `MainMenu.PanelClick` | assets/js/main.js:130-136 | a click in the panel closes the menu iff it lands in a `#` link |
| `MainMenu.UnconditionalCloses` | assets/js/main.js:125-127 | Escape and a matching breakpoint close the menu from any state; other keys do nothing |
| `MainMenu.OnlyButtonOpens` | assets/js/main.js:110 | no event other than a click on the button opens the menu |
| `MainMenu.StepKeepsConsistent` | assets/js/main.js:88-144 | every event keeps an agreeing state agreeing |
| `MainMenu.RunKeepsConsistent` | assets/js/main.js:109-144 | any sequence of events keeps an agreeing state agreeing |
| `MainMenu.ConsistentAfterFirstChange` | assets/js/main.js:88-102 | once any event has changed the state, every later state agrees |
| `MainMenu.MobileMenu.constructor` | assets/js/main.js:139-144 | setup closes the menu iff the 768px query matches, and otherwise leaves the markup's state |
| `MainMenu.MobileMenu.SetIcon` | assets/js/main.js:80-86 | redraws the icon iff the button has an icon path, and changes nothing else |
| `MainMenu.MobileMenu.OpenMenu` | assets/js/main.js:88-94 | sets the open state in place |
| `MainMenu.MobileMenu.CloseMenu` | assets/js/main.js:96-102 | sets the closed state in place |
| `MainMenu.MobileMenu.ToggleMenu` | assets/js/main.js:104-107 | closes if `aria-expanded` is "true", otherwise opens |
| `MainMenu.MobileMenu.OnClick` | assets/js/main.js:113-122 | the button's or the panel's listener, then the document's, give the click's effect |
| `MainMenu.MobileMenu.OnKeyDown` | assets/js/main.js:125-127 | Escape closes the menu; other keys do nothing |
| `MainMenu.MobileMenu.OnBreakpoint` | assets/js/main.js:140-142 | a matching query closes the menu |
| `ScriptMenu.ClickParity` | assets/js/script.js:32-34 | only the parity of the number of clicks decides whether the panel is hidden |
| `ScriptMenu.TwoClicksRestore` | assets/js/script.js:33 | two more clicks restore the panel |
| `ScriptMenu.Menu.OnButtonClick` | assets/js/script.js:32-34 | a click flips `hidden` |
| `SmoothScroll.Frame` | assets/js/main.js:158-164 | the frame callback, corrected: `ticking` is clear afterwards whatever the lookup does, and from a guarded state no frame is left pending |
| `SmoothScroll.ClickKeepsGuard` | assets/js/main.js:151-166 | a link click requests a frame only when none is pending, so from a guarded state at most one frame is pending afterwards |
| `SmoothScroll.FrameKeepsGuard` | assets/js/main.js:158-165 | after the corrected callback, the guard holds and the next link click requests a frame |
| `SmoothScroll.BurstKeepsFirst` | assets/js/main.js:157-166 | a burst of clicks while a frame is pending schedules nothing; from an idle state, only the first link's frame is requested |
| `SmoothScroll.BurstScrollsToFirst` | assets/js/main.js:157-166 | after a burst of link clicks, the frame scrolls to the first link's target only |
| `SmoothScroll.ThrowBreaksGuard` | assets/js/main.js:159-163 | as written, a throwing lookup leaves `ticking` set with no frame pending |
| `SmoothScroll.StuckAfterThrow` | assets/js/main.js:157 | as written, once `ticking` is stuck no later click requests a frame |
| `SmoothScroll.StepAsWrittenKeepsAtMostOne` | assets/js/main.js:151-166 | as written, a click or a run of the frame callback, whatever its lookup does, never leaves two frames pending |
| `SmoothScroll.RunAsWrittenKeepsAtMostOne` | assets/js/main.js:151-166 | as written, any sequence of clicks and callback runs keeps at most one frame pending, with `ticking` set while one is |
| `SmoothScroll.AtMostOneFromInitial` | assets/js/main.js:149-166 | from the loaded page, the code as written never has two frames pending: the throw loses later scrolls, not the throttle |
| `SmoothScroll.BareHashBlocksLaterLinks` | assets/js/main.js:159 | after a click on a link with `href="#"`, a later `#kontakt` link scrolls nowhere as written, but does scroll with the corrected callback |
| `SmoothScroll.Router.OnClick` | assets/js/main.js:151-167 | cancels navigation iff the click is in a `#` link, and requests a frame only when `ticking` is clear |
| `SmoothScroll.Router.RunFrame` | assets/js/main.js:158-164 | runs the corrected callback in place, keeping the guard |

## Findings

| source | as written | input that shows it | evidently intended | confidence | as-written member | corrected member |
|---|---|---|---|---|---|---|
| assets/js/main.js:158-164 | the frame callback calls `document.querySelector(link.getAttribute('href'))` before `ticking = false`. If the `href` is not a valid selector, the call throws, the callback ends early and `ticking` stays `true` for the rest of the page's life. From then on every `#` link click is cancelled with `preventDefault` and never scrolls | a click on `<a href="#">`: `querySelector('#')` throws a SyntaxError. After it, a click on `<a href="#kontakt">` does nothing | `ticking` is cleared on every path of the callback, so the guard only coalesces clicks within one frame | high (reasoned from the DOM and CSS selector rules; not executed) | `SmoothScroll.FrameAsWritten` (see `SmoothScroll.ThrowBreaksGuard`, `SmoothScroll.StuckAfterThrow`, `SmoothScroll.BareHashBlocksLaterLinks`) | `SmoothScroll.Frame` (see `SmoothScroll.FrameKeepsGuard`; used by `SmoothScroll.Router.RunFrame`) |

## Left out

- Lazy image loading (assets/js/main.js:17-44) is not modelled. It is a thin use of `IntersectionObserver` with no decisions of its own.
- The card reveal animations (assets/js/main.js:47-69, assets/js/script.js:3-25) are not modelled, for the same reason.
- AOS initialisation and refresh (assets/js/main.js:227-253) are not modelled. They are calls into a third-party library, guarded by `try/catch`.
- Bootstrapping and the `window.KCC` export (assets/js/main.js:257-264, assets/js/script.js:2) are not modelled. The models start from a page whose listeners are already registered.
- The smooth scroll of script.js (assets/js/script.js:38-45) is not modelled. It has no guard and no state.
- Class names, SVG markup, icon path strings and `innerHTML` are not modelled. They only affect presentation. An alert is reduced to its message and kind, and the icon to hamburger or cross.
- `preventDefault()` on submit is not modelled, because the model has no navigation. In the scroll router it is modelled as a returned flag.
- The early returns of `setupMobileMenu` when the button or the panel is missing (assets/js/main.js:76) and of `setupContactForm` when the form is missing (assets/js/main.js:173) are not modelled. The models describe pages where these elements exist; on other pages those listeners are never registered.
- The document listener's early return for a null click target (assets/js/main.js:115) is not modelled, because a click always has a target.
- Assumptions about the page:
  - the menu button and the panel do not contain each other;
  - the form's controls have the same `id` as `name`, so the `FormData` view and the `getElementById` view agree;
  - the privacy checkbox exists in both pages;
  - a checked box submits a non-empty value (the default `on`).
  - Disabled controls, repeated names, file inputs and a `<select>` with no selected option are not modelled.
- `ContactForm.Form.Reset`: the markup defaults are taken as given, so a reset could in principle change which controls exist. The browser never does that.
- `FormAlert.AlertSlot.FireTimer` may fire a timer at any time after it was started. The model does not enforce the 5000 ms delay; it keeps only the first-in, first-out order that equal delays give.
- `Text.IsSpace`: characters are Unicode scalar values, not UTF-16 code units. This changes no verdict, because no astral character is whitespace, `@` or `.`. The whitespace set follows ECMAScript's WhiteSpace and LineTerminator productions. The proofs rely only on `@`, `.` and a few ASCII characters being outside it and on the blank being inside it.
- How `querySelector`, `closest` and `matchMedia` resolve things is not modelled. Their results enter the model as inputs: `Lookup`, the `link` of a click, and the `matches` flag.
