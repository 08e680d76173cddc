# Portfolio page behaviour, modelled in Dafny

This project models the decision rules under the event listeners of the
portfolio page's `script.js`:

- the contact form's submit handler, which trims five fields, requires four of them, checks the e-mail address against `^[^\s@]+@[^\s@]+\.[^\s@]+$`, shows one of three banners and resets the form only on success (`contact_form.dfy`);
- the navigation controller: the header's `shrink` class, the mobile menu and its `aria-expanded` attribute, same-page anchor clicks, and the nested loops that move the `active` class to the link of the section under the viewport (`navigation.dfy`);
- the scroll hint and the back-to-top button (`scroll_effects.dfy`);
- the shared blog modal, opened from a static map of entries and closed by its button, a backdrop click or Escape (`modal.dfy`);
- the dark-mode store: the initial theme from the stored `darkMode` entry or the OS preference, and the toggle that flips and stores it (`dark_mode.dfy`);
- `dom.dfy` holds what these share: `Option` and the text a boolean becomes in an attribute or in storage.

The DOM is reduced to the state the handlers read and write. Classes stand in
for the controllers: class-list flags become `bool` fields, attributes, inline
styles and storage entries become `string` fields, and the navigation links
become an `array` that the active-link loop updates in place. Layout values the
browser computes, such as `offsetTop`, `offsetHeight` and `pageYOffset`, are
parameters of the handler methods. Smooth scrolling is recorded as the target
the handler asks `window.scrollTo` for. The pure rules are functions, and the
lemmas beside them state what the handlers promise:

- the e-mail check accepts exactly the strings the regular expression matches;
- a blank required field wins over a bad address;
- the last covering section in document order decides the active link;
- a stored theme always beats the OS preference.

Where the code's behaviour might surprise, the model follows the code:

- When no section's band `[top, top + height)` contains `offset + 150`, the links keep whatever highlighting they had (script.js:85 only acts inside a covering band). They are not cleared.
- When bands overlap, the last covering section in document order wins, because each covering section re-runs the inner loop.
- `lastScroll` is written and never read, so no flag depends on scroll history.
- An href of just `#` never scrolls, because `getElementById('')` finds nothing.
- The theme is decided by the stored text. `"false"` overrides an OS that prefers dark. An empty stored string counts as no entry.

## Model

| member | source | states |
|---|---|---|
| `ContactForm.Trim` | script.js:227-231 | a trimmed field is empty exactly when the raw field is all JavaScript white space; what remains neither starts nor ends with white space |
| `ContactForm.TrimCut` | script.js:227-231 | gives the two cut points of a trim: the kept value lies between them and everything cut off on either side is white space |
| `ContactForm.TrimIsInfix` | script.js:227-231 | trimming keeps an infix of the raw value and removes only white space on either side |
| `ContactForm.EmailCheckSound` | script.js:240-241 | every address the first-`@`/inner-dot check accepts matches `^[^\s@]+@[^\s@]+\.[^\s@]+$` |
| `ContactForm.DomainWithInnerDot` | script.js:240-241 | a run of `[^\s@]` with a `.` strictly inside it passes the domain check |
| `ContactForm.EmailCheckComplete` | script.js:240-241 | every address the regular expression matches is accepted by the check |
| `ContactForm.EmailCheckMatchesPattern` | script.js:240-241 | the e-mail check and the regular expression agree on every string (both directions) |
| `ContactForm.AcceptsPlainAddress` | script.js:240-241 | `jane@x.com` matches the pattern |
| `ContactForm.RejectsDomainWithoutDot` | script.js:240-241 | `foo@bar` does not match: the domain needs a dot |
| `ContactForm.RejectsDotAfterAt` | script.js:240-241 | `a@.c` does not match: the dot needs a character before it |
| `ContactForm.RejectsTrailingDot` | script.js:240-241 | `a@b.` does not match: the dot needs a character after it |
| `ContactForm.Validate` | script.js:226-247 | the outcome is "missing" exactly when name, email, firm or message is blank; "invalid e-mail" exactly when none is blank and the trimmed e-mail fails the pattern; "sent" otherwise |
| `ContactForm.PhoneIgnored` | script.js:230-234 | changing the phone field never changes the outcome |
| `ContactForm.SentMeansComplete` | script.js:234-247 | a sent submission has all four required fields filled and a valid trimmed address |
| `ContactForm.Form.ShowMessage` | script.js:268-273 | the banner takes the message text and the kind as its class and loses `hidden`; the inputs are untouched |
| `ContactForm.Form.Reset` | script.js:248 | every input is emptied and the banner is untouched |
| `ContactForm.Form.Report` | script.js:234-248 | the outcome's banner is shown; the inputs are reset on success and unchanged on either error |
| `ContactForm.Form.Submit` | script.js:223-248 | the outcome is `Validate` of the inputs before the call; the inputs are cleared only when it is sent; the banner shows its message and kind |
| `ContactForm.Form.HideMessage` | script.js:279-281 | the auto-hide timer adds `hidden` to the banner and changes nothing else |
| `Navigation.Nav.OnScrollHeader` | script.js:25-35 | after each scroll the header has `shrink` exactly when the current offset is above 100, whatever came before; `lastScroll` records the offset |
| `Navigation.LastCovering` | script.js:80-85 | finds the last section in document order whose band contains the probe point, or reports that none does |
| `Navigation.HighlightOverrides` | script.js:86-91 | a highlighting pass depends only on the hrefs, so a later pass fully overrides an earlier one |
| `Navigation.ScrollPassHighlightsLast` | script.js:77-93 | the nested loops equal one highlighting pass for the last covering section, and the identity when none covers |
| `Navigation.ScrollPassActiveLinks` | script.js:77-93 | afterwards the active links are exactly those whose href is `#` + the last covering section's id; with no covering section, nothing changes; hrefs never change |
| `Navigation.Nav.HighlightLinks` | script.js:86-91 | the inner loop clears `active` on every link and sets it exactly on the links pointing at the given id |
| `Navigation.Nav.OnScrollHighlight` | script.js:77-94 | the link array ends as the last covering section dictates (probe point = offset + 150), or unchanged when no section covers it |
| `Navigation.Nav.ToggleMenu` | script.js:39-43 | each click flips `open`, and `aria-expanded` becomes the text of the new state |
| `Navigation.ToggleTwiceRestores` | tests/navigation.spec.js:105-157 | two clicks on the menu button restore the menu from any state and leave `aria-expanded` mirroring it; from a state where `aria-expanded` mirrors the menu, as at load, the attribute is restored too |
| `Navigation.Nav.ClickLink` | script.js:48-71 | a `#id` link whose element exists asks for a scroll to its top minus the header height and leaves the menu closed; `aria-expanded` is untouched; any other href changes nothing |
| `Navigation.StaleAriaAfterLinkClick` | script.js:39-68 | opening the menu and then following an anchor link leaves the menu closed with `aria-expanded` still "true" |
| `Navigation.Nav.ClickLinkSynced` | script.js:48-71 | the same click with `aria-expanded` kept equal to the menu state |
| `ScrollEffects.Effects.OnScroll` | script.js:292-310 | after each scroll the hint has `hidden` exactly above 100 and the back-to-top button has `visible` exactly above 500, so the button is never visible while the hint is shown |
| `ScrollEffects.Effects.ClickBackToTop` | script.js:312-317 | the button asks for a scroll to offset 0 and changes no flag |
| `Modal.BlogModal.Open` | script.js:173-187 | a known id fills title and body from the entry and shows the modal with body overflow `hidden`; an unknown id changes nothing |
| `Modal.BlogModal.Close` | script.js:191-194 | the modal is hidden and the body's overflow is `''` again; the content stays |
| `Modal.BlogModal.ClickModal` | script.js:201-205 | a click closes the modal only when its target is the modal element itself |
| `Modal.BlogModal.KeyDown` | script.js:208-212 | Escape closes a shown modal; any other key changes nothing; the overflow invariant is kept |
| `Modal.OpenThenDismiss` | script.js:173-212 | opening an unknown id, then a known one, then a click inside the content, a key other than Escape, and Escape leaves the modal hidden with scrolling restored and the known entry's content still in place |
| `DarkMode.InitialDark` | script.js:499-505 | with a non-empty stored entry the theme is dark exactly when it is "true"; with no entry or an empty one it follows the OS preference |
| `DarkMode.ToggleSurvivesReload` | script.js:503-511 | what a toggle stores is read back as the same theme on the next load, whatever the OS prefers |
| `DarkMode.Theme.constructor` | script.js:499-505 | at load the `dark` class is `InitialDark` of the stored entry and the OS preference; storage is not written |
| `DarkMode.Theme.Toggle` | script.js:508-512 | each toggle flips `dark` and stores "true" or "false" equal to the new state |
| `DarkMode.ToggleThenReload` | script.js:499-512 | a toggle right after load chooses the opposite of the initial theme, and a reload with any OS preference shows the chosen theme |

## Findings

| source | as written | input that shows it | evidently intended | confidence | as-written member | corrected member |
|---|---|---|---|---|---|---|
| script.js:65-68 | an anchor click removes `open` from the mobile menu but leaves `aria-expanded` on the button as the toggle last set it | open the menu with the button, then click a menu link `#contact` whose section exists: the menu is closed and `aria-expanded` is still "true" | closing the menu also sets `aria-expanded` to "false", as the toggle does | medium, not executed | `Navigation.StaleAriaAfterLinkClick` | `Navigation.Nav.ClickLinkSynced` |

The rest of the model keeps `Navigation.Nav.ClickLink` as written. `ClickLinkSynced` shows the one-line correction, which keeps `aria-expanded == BoolText(menuOpen)` as an invariant.

## Left out

- `animateCounter` (script.js:135-160) is left out because of its float easing `1 - (1 - t)^3` driven by `requestAnimationFrame`. The only exact fact in it is that its last frame writes the end value (script.js:155).
- The progress ring and bar and the staggered fade-in of the metric cards (script.js:104-131) are left out: they are timers and float arithmetic.
- The parallax and the spotlight (script.js:345-468) are left out: they are per-frame float transforms and exponential smoothing. The `ticking` guard and the card-rotation class table go with them.
- The IntersectionObserver fade-in of sections (script.js:321-339) is left out: the browser decides the geometry, and the callback only ever adds `visible`.
- Smooth scrolling itself and `scrollIntoView` are left out. The model records the scroll target a handler asks for, not the animation.
- `ContactForm.Form.HideMessage` models one 5000 ms timer firing. It does not model the order in which several pending timers fire, so an older timer hiding a newer banner is not captured.
- `throttle` and `throttledScroll` (script.js:474-489) are left out: they are timer-based and wrap a function that does nothing.
- `JSON.parse` of the blog data is left out. The data is given as a `map` from id to entry. A prototype key such as `toString` is not looked up through the object prototype as JavaScript would do.
- The `innerHTML` markup is built as a string (`RenderBody`) and is not parsed.
- The commented-out `fetch` call is left out.
- Existence checks on optional elements are modelled as if every element is present: the menu button, the close button, the scroll hint, the back-to-top button and the form banner.
- Initial DOM state is taken as: empty inputs, a hidden banner, `aria-expanded="false"`, no `dark` class and no inline `overflow`.
- Layout values are parameters. The header's height is whatever the page reports at the click; it is not tied to `shrink`.
- Scroll offsets are integers. The browser's fractional `pageYOffset` is not modelled.
- Strings are sequences of Unicode scalar values, not UTF-16 code units. This does not change which strings the trim or the e-mail pattern accept, because every white-space character lies in the Basic Multilingual Plane.
