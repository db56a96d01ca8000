# Portfolio page script: a verified model of its logic

The page script of a personal portfolio site (`script.js`) wires browser events to DOM
changes. Under that glue sit a few small pieces of sequential logic, and this project
models them in Dafny and proves what they promise:

- **Contact-form validation.** `ContactForm.validateForm` runs when the form is submitted.
  `ContactForm.validateInput` runs when a field loses focus. Modules `Text`, `Email` and
  `ContactForm` model them, together with the inline error beside each field and the form's
  single error banner.
- **The throttle wrapper** `Navigation.throttle`, module `Throttle`. It has a leading call,
  one trailing call that replaces any earlier one, and a clock given as an integer.
  `ScrollAnimations.throttle` (script.js:474-491) is a line-for-line copy, so one model
  covers both.
- **The navigation bar**, module `Navigation`. It covers the mobile-menu toggle, close,
  outside click and resize. It also covers the scroll shadow and the active-section tick,
  which loops over the sections and, inside that, over the links.
- **The one-shot counter latch** `hasAnimated` of `ScrollAnimations.handleCounters`,
  module `ScrollAnimations`.

Strings are `seq<char>`. JavaScript's `.length` counts UTF-16 code units, so `Text.Utf16Length`
counts a character outside the Basic Multilingual Plane as two. `String.prototype.trim` and
the regular-expression class `\s` share one white-space set (ECMAScript WhiteSpace and
LineTerminator), and `Text.IsSpace` lists it.

The e-mail pattern `^[^\s@]+@[^\s@]+\.[^\s@]+$` is stated twice:

- `Email.MatchesEmailPattern` reads the expression literally: three runs separated by `@` and `.`.
- `Email.IsValidEmail` states it as a description: no white space, exactly one `@`, a
  non-empty part before it, and a part after it that holds a `.` that is neither its first
  nor its last character.

`Email.EmailPatternIff` proves that the two agree on every string.

The two validators disagree with each other, and the model states where:

- The submit check tests the address untrimmed. The blur check trims it first and lets an
  empty address through. `<input type="email">` already strips tab, line feed, form feed,
  carriage return and space from its value, so in a page the padding that separates the two
  is other white space, such as U+000B or U+00A0. The disagreement is proved of the two functions as written, for any white-space
  character.
- On blur, a required `text` field needs 2 code units, and a required field of any other
  type needs 5, the message `textarea` included. On submit, the subject needs 5 and the
  message needs 10.

Readings of the browser are arguments. `Date.now()` (milliseconds), `window.innerWidth`, and
the sections' `offsetTop` and `offsetHeight` are integers, as the browser gives them.
`window.scrollY` is a `real`, because it is fractional on zoomed and high-density screens.
`setTimeout` and `clearTimeout` become one optional pending slot that holds the due time and
the arguments. The host event loop runs a due timer through the event `TimerDue(t)`, which
does nothing when no call is pending or the call is not yet due. An immediate call records
the clock read before the wrapped function runs. The trailing call records `Date.now()` read
after it returns, and `t` is that later reading.

A tick of the active-section handler can leave no link active, or several: every link whose
`href` equals `'#' + id` is activated. `Navigation.SingleActiveLink` proves that exactly one
is active when the targets are distinct and one of them targets the chosen section.

## Model

| member | source | states |
|---|---|---|
| `Text.Trim` | script.js:316 | `trim()`: the result neither starts nor ends with white space and is no longer than the input |
| `Text.TrimIsInfix` | script.js:316 | the trimmed text is the infix `s[i..j]` with only white space before `i` and after `j` |
| `Text.TrimIdempotent` | script.js:316 | trimming a trimmed text changes nothing |
| `Text.Utf16Length` | script.js:192 | `.length` lies between the number of characters and twice that, and is 0 only for the empty string |
| `Text.Utf16LengthOfBmp` | script.js:192 | inside the Basic Multilingual Plane, `.length` is the number of characters |
| `Email.FirstAt` | script.js:198 | the position of the first `@`: it holds `@` and no `@` comes before it; `None` only when there is no `@` |
| `Email.MatchesEmailPattern` | script.js:198 | the expression read literally: three non-empty runs of `[^\s@]` separated by `@` and `.`, anchored at both ends; a matching string has at least five characters and holds an `@` and a `.` |
| `Email.IsValidEmail` | script.js:198-199 | the test `emailRegex.test(...)` of both validators (also at script.js:322-323): no white space, exactly one `@` with a non-empty part before it, and a domain holding an inner `.`; equal to the expression by `EmailPatternIff` |
| `Email.ValidEmailLength` | script.js:198 | an accepted address has at least five characters and neither starts nor ends with `@` |
| `Email.EmailPatternIff` | script.js:198 | the checker accepts a string iff the regular expression `^[^\s@]+@[^\s@]+\.[^\s@]+$` matches it |
| `Email.ValidEmailMatches` | script.js:198 | every accepted address matches the expression |
| `Email.MatchImpliesValidEmail` | script.js:198 | every string the expression matches is accepted |
| `Email.ValidEmailHasOneAt` | script.js:198 | an accepted address has exactly one `@`, and not at the start |
| `Email.SpaceMakesEmailInvalid` | script.js:198-199 | white space anywhere, leading or trailing included, rejects the address |
| `ContactForm.ValidateForm` | script.js:187-221 | valid iff no message is reported; a message appears iff its rule fails (missing, empty, or trimmed length under 2/5/10, or an untrimmed address that does not match); messages appear in the order name, email, subject, message, each at most once |
| `ContactForm.AllRulesFail` | script.js:191-214 | when all four rules fail, all four messages are reported, in order, and the form is blocked |
| `ContactForm.ShortFieldsExample` | script.js:187-221 | `A`, `bad`, `hi`, `short` yield all four messages and block submission |
| `ContactForm.WellFormedExample` | script.js:187-221 | `Jo`, `a@b.co`, `Hello there`, `This is long enough` pass |
| `ContactForm.ValidateInput` | script.js:315-339 | on blur an e-mail field is valid iff its trimmed value is empty or matches the expression; any other field is valid iff it is optional or its trimmed length reaches 2 (`text`) or 5 (any other type); an invalid field gets its type's message |
| `ContactForm.PaddedEmailPassesBlurOnly` | script.js:321-327 | a valid address padded on both sides with any white-space character passes the blur check but fails the submit check |
| `ContactForm.MidLengthMessagePassesBlurOnly` | script.js:334-338 | a required message of 5 to 9 code units passes the blur check of a `textarea` but fails on submit |
| `ContactForm.TextBlurRuleVersusSubmit` | script.js:328-333 | a subject of 2 to 4 code units passes the `text` blur check but fails on submit; a name that passes the blur check meets the submit rule |
| `ContactForm.FormField.ClearInputError` | script.js:365-371 | removes the first inline error and resets the border; with at most one error shown, none remains |
| `ContactForm.FormField.ShowInputError` | script.js:348-363 | clears first, so exactly the one new message is shown, with the red border |
| `ContactForm.FormField.Blur` | script.js:303-346 | after blur a valid field shows no inline error and an invalid one shows exactly its message; at most one error is ever shown |
| `ContactForm.FormField.Edit` | script.js:309-311 | typing removes the inline error until the next blur |
| `ContactForm.ContactFormView.ShowErrors` | script.js:247-273 | every previous error banner is removed and one banner with the messages is inserted |
| `ContactForm.ContactFormView.Submit` | script.js:172-185 | a valid form is handed to submission and leaves the banners alone; an invalid one replaces the banner with its message list; never more than one error banner |
| `Throttle.TrailingWait` | script.js:147-151 | the timeout is never negative, is at most `delay` when the clock has not gone back, and ends `delay` after the last run |
| `Throttle.Init` | script.js:138-139 | the closure `throttle` creates: no timeout pending, and `lastExecTime = 0`, so a call runs at once exactly when the clock reads more than `delay` |
| `Throttle.FirstCallRunsAtOnce` | script.js:139-145 | the first call of a fresh throttle, at a clock reading above `delay`, runs the wrapped function at once with its arguments and schedules nothing |
| `Throttle.Step` | script.js:137-154 | a call runs at once, with its own arguments, iff `now - lastExec > delay`, and then `lastExec := now` and the pending call is left alone; otherwise the one pending call is replaced by this call, due at `lastExec + delay`; a timer runs the pending call iff one is pending and due, then records its time and empties the slot, and otherwise changes nothing |
| `Throttle.RunAppend` | script.js:137-154 | running two event sequences one after the other is running their concatenation |
| `Throttle.ImmediateRunsSpaced` | script.js:140-146 | with a clock that never goes back, any two immediate runs are more than `delay` apart |
| `Throttle.BurstKeepsLastCall` | script.js:146-152 | a burst of calls inside the window runs nothing and leaves one pending call with the last call's arguments |
| `Throttle.LastCallOfBurstRuns` | script.js:147-151 | the trailing guarantee: the due timer runs the last call of the burst once and sets `lastExec` to its own time |
| `Throttle.Throttled.constructor` | script.js:137-140 | a new throttle object is in the state `Init` gives, has run nothing, and has seen no events |
| `Throttle.Throttled.Call` | script.js:140-153 | a call on the object changes its state and its list of runs exactly as `Step` does, and keeps them equal to the run of its whole history |
| `Throttle.Throttled.TimerDue` | script.js:148-151 | a timer on the object changes its state and its list of runs exactly as `Step` does |
| `Navigation.Toggle` | script.js:71-81 | flips the menu; the overflow ends `'hidden'` iff the menu ends open, whatever it was before; the hamburger and the menu stay equal when they were equal |
| `Navigation.Close` | script.js:83-87 | from any state, both controls end inactive and the overflow ends `''` |
| `Navigation.OutsideClick` | script.js:44-51 | a click outside the bar closes an open menu; any other click changes nothing |
| `Navigation.Resize` | script.js:62-68 | a width over 768 always closes the menu; any other width changes nothing |
| `Navigation.Scrolled` | script.js:55 | the shadow rule: the bar carries `scrolled` exactly when `scrollY > 100`; `HandleScroll` and the constructor set it so |
| `Navigation.ToggleTwice` | script.js:71-81 | toggling twice restores the state when the lock matched the menu |
| `Navigation.CloseIdempotent` | script.js:83-87 | closing twice is closing once |
| `Navigation.OutsideClickCloses` | script.js:44-51 | in a consistent state an outside click is the same as closing |
| `Navigation.LastCovering` | script.js:115-123 | returns the last section, in document order, with `top <= scrollY + 100 < top + height`, or `None` iff no section covers that position |
| `Navigation.ActiveAfterTick` | script.js:112-131 | the link classes after one tick: one per link; `TickSelectsLastSection` gives their meaning |
| `Navigation.TickSelectsLastSection` | script.js:107-134 | after a tick, a link's state is "targets the last covering section" if one exists, and its old state otherwise |
| `Navigation.SingleActiveLink` | script.js:124-129 | with distinct targets, exactly the one link that targets the chosen section is active |
| `Navigation.NavigationBar.constructor` | script.js:14-27 | the bar starts with the menu state of the markup and the links as given, and the shadow is set iff `scrollY > 100` |
| `Navigation.NavigationBar.ToggleMobileMenu` | script.js:71-81 | the menu state becomes `Toggle` of the old one; the shadow and links do not change |
| `Navigation.NavigationBar.CloseMobileMenu` | script.js:83-87 | the menu state becomes `Close` of the old one; nothing else changes |
| `Navigation.NavigationBar.NavLinkClicked` | script.js:36-41 | clicking a navigation link closes the menu |
| `Navigation.NavigationBar.DocumentClicked` | script.js:44-51 | the menu state becomes `OutsideClick` of the old one |
| `Navigation.NavigationBar.Resized` | script.js:64-68 | the menu state becomes `Resize` of the old one |
| `Navigation.NavigationBar.HandleScroll` | script.js:54-60 | `scrolled` holds iff `scrollY > 100`; nothing else changes |
| `Navigation.NavigationBar.ActiveSectionTick` | script.js:112-131 | the nested loops leave the links as `ActiveAfterTick` gives them, and the menu and shadow unchanged |
| `ScrollAnimations.Animate` | script.js:426-454 | the latch ends set; a set latch changes nothing; a sound latch stays sound |
| `ScrollAnimations.Observe` | script.js:460-466 | the observer callback over its entries in order: a set latch and a callback without an intersecting entry change nothing, a latch still clear afterwards is unchanged, and the animation is started at most once more |
| `ScrollAnimations.ObserveKeepsLatch` | script.js:459-466 | over any observer entries the latch stays sound; it is set iff it was set or some entry intersected |
| `ScrollAnimations.ObserveAllKeepsLatch` | script.js:457-471 | the same over any number of observer callbacks |
| `ScrollAnimations.AnimatedAtMostOnce` | script.js:424-471 | from page load, the counters' animation starts exactly once if the section was ever seen intersecting, and never otherwise |
| `ScrollAnimations.CounterLatch.constructor` | script.js:424 | the latch starts clear (`hasAnimated = false`) with no animation started |
| `ScrollAnimations.CounterLatch.AnimateCounters` | script.js:426-454 | the object's latch changes as `Animate` says |
| `ScrollAnimations.CounterLatch.Intersected` | script.js:460-466 | the observer callback's loop changes the latch as `Observe` says |

## Left out

- Particle system (script.js:544-678): floating-point positions and distances, `Math.random`, canvas drawing and `requestAnimationFrame`.
- Counter tweening (script.js:429-451): the float increment `target / 100`, `Math.ceil`, suffix handling and frame scheduling. Only the latch is modelled.
- Hero decorations (script.js:681-765): random CSS, keyframe text and mouse-driven transform strings.
- Parallax (script.js:404-420): a floating-point transform string.
- Smooth scrolling (script.js:89-105): browser scrolling to `offsetTop - 80`.
- Lazy loading and preloading (script.js:494-541): they depend on `IntersectionObserver` and `<link>` injection.
- Scroll-reveal library setup (script.js:1-10): a third-party call.
- Submission (script.js:223-245) and the success banner (script.js:281-301): they run on timers. `ContactFormView.Submit` only counts the forms handed on. The 5-second removal of banners is not modelled.
- Floating labels (script.js:373-390): a `has-value` class. It is not part of the validation logic.
- The `visibilitychange` handler (script.js:784-793): one CSS property.
- Page start-up (script.js:767-782): construction of the page objects and the selection of DOM elements.
- Wiring: `this` binding, event registration, and the fact that the scroll handlers run through the throttle. The throttle and the handlers are modelled separately.
- `Throttle.Throttled`: nothing forces the clock passed to `Call` and `TimerDue` never to go back. `ImmediateRunsSpaced` takes monotone time as a precondition instead.
- `Navigation.NavigationBar.constructor`: assumes the markup's `active` classes and `body.style.overflow` agree: the hamburger and the menu are both open with the page locked, or both closed with it unlocked. The script never sets them at start-up.
- DOM reads: section geometry, link `href`s, the click target's containment and `isIntersecting` are parameters. The inline error of a field is assumed to live in that field's own parent element.
