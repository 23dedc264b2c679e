# Portfolio page behaviour, modelled in Dafny

The page script `app.js` wires a single-page portfolio site to the browser:
scroll effects, in-page navigation, a contact form, a Portuguese/English
toggle and a mobile navigation drawer. Under the event wiring sit a handful of
decision rules. This project states those rules over plain values, with the
browser objects replaced by records, sequences, arrays and maps, and proves
what the page promises about them.

- `text.dfy` (`Text`): the white-space class shared by the e-mail pattern's
  `\s` and `String.prototype.trim`, and trimming.
- `email.dfy` (`Email`): the e-mail shape check, stated three ways (the pattern
  as it reads, an explicit description, a character scanner) and proved equal.
- `contact_form.dfy` (`ContactForm`, `ContactFormScenarios`): the submit handler
  as a function from the three fields, the captured language and the fate of
  the request to the message shown, its severity, whether a request is issued
  and whether the form is reset.
- `preference.dfy` (`Preference`): the stored language preference, read with
  English as the fallback.
- `scroll.dfy` (`Scroll`): the progress bar width, the navbar's "scrolled" mark,
  back-to-top visibility and the anchor scroll target.
- `active_nav.dfy` (`ActiveNav`): the active-link update, a method over an array
  of link flags proved against a "last covering section" specification.
- `language.dfy` (`Language`): the language toggle as a class whose methods write
  storage, the shown texts and the button flags.
- `mobile_menu.dfy` (`MobileMenu`): the drawer's three pieces of state, its
  handlers as functions and as methods of a class, and the lock invariant.
- `optional.dfy` (`Optional`): an option type.

Notes on the reading of the code:

- The e-mail pattern lets the part between `@` and the final dot contain dots
  itself (the `+` backtracks), so the accepted strings are exactly: no white
  space, one `@`, a non-empty local part, and a dot in the domain that is
  neither its first nor its last character.
- `localStorage.getItem("language") || "en"` falls back to English when the key
  is missing and also when the stored value is the empty string.
- `window.pageYOffset || document.documentElement.scrollTop` uses the root
  element's position whenever the page offset is zero; both are inputs.
- The Portuguese "invalid email" text is kept with the two characters U+00C3
  U+00A1 that the script's file holds where "á" was meant.
- A stored language other than "pt" or "en" shows the English texts with
  neither button marked, as the code does.

## Model

| member | source | states |
|---|---|---|
| `Text.TrimCutsOnlySpace` | app.js:125-127 | trimming keeps a contiguous piece of the field, removes only white space on either side, and leaves no white space at either end |
| `Text.TrimEmptyIffBlank` | app.js:125-129 | a field is empty after trimming exactly when it held only white space |
| `Text.TrimIdempotent` | app.js:125-127 | trimming a trimmed field changes nothing |
| `Email.ValidateEmail` | app.js:108-111 | the check accepts a string exactly when it matches the pattern, and exactly when it has no white space, one `@`, a non-empty local part and a dot strictly inside the domain |
| `Email.ScanAccepts` | app.js:108-111 | the character scanner accepts exactly the strings with no white space, one `@`, a non-empty local part and a dot strictly inside the domain |
| `Email.PatternIsShape` | app.js:109 | a string splits as A "@" B "." C with A, B, C non-empty runs of `[^\s@]` exactly when it has the explicit shape |
| `ContactForm.HandleSubmit` | app.js:122-169 | a blank field gives "fill all fields" whatever the address; otherwise a malformed address gives "invalid email"; a request is issued exactly when both checks pass; only an ok response succeeds and resets the form; the message is in the captured language |
| `ContactForm.FormLanguage` | app.js:106 | the form speaks Portuguese exactly when "pt" is stored, English otherwise, including when nothing is stored |
| `ContactForm.WordingIsUnambiguous` | app.js:129-169 | the eight message texts are pairwise different, so the shown text tells the outcome and the language |
| `ContactForm.FailuresLookAlike` | app.js:152-169 | a bad status and a transport failure give the same error message and neither resets the form |
| `ContactFormScenarios.BlankNameScenario` | app.js:125-134 | an empty name with a good address and message gives "fill all fields" and sends nothing |
| `ContactFormScenarios.MalformedAddressScenario` | app.js:136-141 | "not-an-email" with the other fields filled gives "invalid email" |
| `ContactFormScenarios.DeliveredScenario` | app.js:143-169 | a well-formed submission succeeds and resets on an ok response, and fails without reset on a transport failure |
| `ContactFormScenarios.WellFormedSample` | app.js:108-111 | "a@b.com" passes the e-mail check |
| `ContactFormScenarios.MalformedSample` | app.js:108-111 | "not-an-email" fails the e-mail check |
| `Preference.SavedLanguage` | app.js:259 | the read preference is never empty, is "en" when nothing is stored, and anything but "en" is what storage holds |
| `Preference.StoredLanguageReadsBack` | app.js:240-261 | a stored non-empty language is read back unchanged |
| `Scroll.ProgressWidth` | app.js:32-41 | a width is written only when the bar exists and the page can scroll; it lies in [0, 100], is 0 at or above the top, 100 at or past the bottom, and proportional to the offset in between |
| `Scroll.ProgressMonotone` | app.js:35-41 | scrolling further down never shrinks the progress bar |
| `Scroll.NavbarOnScroll` | app.js:30-50 | the navbar is marked scrolled exactly past 100 pixels; when the bar exists and the page can scroll the written width is the clamped `ProgressWidth` value, otherwise the width is kept |
| `Scroll.NavbarOnScrollIdempotent` | app.js:43-47 | handling the same scroll position twice is handling it once |
| `Scroll.NavbarScrolledUpward` | app.js:43-47 | once marked scrolled, the navbar stays marked further down |
| `Scroll.BackToTopVisible` | app.js:372-383 | the button is visible exactly when the scroll position (the page offset, or the root's scroll position when that is zero) is past one viewport height and less than 800 pixels remain to the bottom |
| `Scroll.BackToTopHiddenAtTop` | app.js:372-383 | the button is hidden at offset 0 |
| `Scroll.BackToTopUpward` | app.js:372-383 | once visible, the button stays visible further down |
| `Scroll.AnchorTarget` | app.js:8-13 | the target position is the section's `offsetTop` less the navbar's height when the section exists, and there is none when it is missing |
| `ActiveNav.LastCovering` | app.js:212-228 | the chosen section covers the biased position and no later section does; none is chosen only when no section covers it |
| `ActiveNav.ActiveAfterIdempotent` | app.js:209-229 | updating twice at the same position is updating once |
| `ActiveNav.MarkOnly` | app.js:221-226 | marking the links for one section marks at most one when the hrefs are distinct, and one when some link points at that section |
| `ActiveNav.AtMostOneActive` | app.js:221-226 | with distinct hrefs, at most one link is active after a matching update |
| `ActiveNav.LaterSectionWins` | app.js:212-228 | the last covering section decides the active links, whatever came before it |
| `ActiveNav.NavLinks.constructor` | app.js:205-207 | the links keep their hrefs and start with the "active" classes the markup gives them |
| `ActiveNav.NavLinks.UpdateActiveNav` | app.js:209-229 | the flags become those of the last section covering offset + 150, or stay unchanged when none covers it |
| `Language.Rendered` | app.js:246-250 | choosing each element's text one by one leaves all elements in one language, never a mix |
| `Language.RenderedIsEnglishUnlessPt` | app.js:249 | any language other than "pt", recognised or not, shows exactly the English texts |
| `Language.LanguageToggle.SetLanguage` | app.js:240-256 | the preference is stored, every element shows the chosen language's text, the root is marked, the pt button is lit iff "pt" and the en button iff "en" |
| `Language.LanguageToggle.LoadSavedLanguage` | app.js:258-261 | the stored language, or "en" when none, is applied and written back |
| `Language.ReloadAfterChoosingPortuguese` | app.js:240-271 | choosing Portuguese and reloading shows every element's Portuguese text with the pt button lit |
| `MobileMenu.Toggled` | app.js:279-288 | toggling flips both flags and locks the body exactly when the panel is now open |
| `MobileMenu.Closed` | app.js:290-294 | closing clears both flags and unlocks the body |
| `MobileMenu.Resized` | app.js:303-307 | a resize above 768 pixels closes the drawer; one at or below changes nothing |
| `MobileMenu.ClosedIdempotent` | app.js:290-294 | closing twice is closing once |
| `MobileMenu.ToggleTwiceRestoresFlags` | app.js:279-282 | toggling twice restores both flags |
| `MobileMenu.DispatchKeepsCoherent` | app.js:279-307 | every handler keeps the button and the panel equal and the lock following the panel |
| `MobileMenu.RunKeepsCoherent` | app.js:296-307 | from a coherent start, any sequence of events keeps the drawer coherent |
| `MobileMenu.DispatchLocks` | app.js:279-307 | any event but a narrow resize leaves the body locked exactly while the panel is open |
| `MobileMenu.RunKeepsLocked` | app.js:296-307 | once the lock follows the panel, it does so after any sequence of events |
| `MobileMenu.Drawer.constructor` | app.js:274-308 | handlers are wired only when both the toggle button and the panel exist; the flags and overflow start as the markup gives them |
| `MobileMenu.Drawer.ToggleMenu` | app.js:279-288 | the new state is the toggled state |
| `MobileMenu.Drawer.CloseMenu` | app.js:290-294 | the new state is the closed state |
| `MobileMenu.Drawer.OnResize` | app.js:303-307 | the new state follows the resize rule |
| `MobileMenu.Drawer.Handle` | app.js:296-307 | an event changes the drawer only when its handlers were wired |

## Left out

- Element lookup, `addEventListener` wiring, CSS class names and style strings: elements are values, array slots or class fields.
- The HTTP exchange (`fetch`, `FormData`, app.js:143-151): the request's fate is the input `Response` (ok, other status, failure).
- `window.scrollTo` clamps the anchor target to the scrollable range and the target is measured 100 ms before the scroll; the model gives only the requested position.
- Timers: the 100 ms delay before the anchor scroll (app.js:14-19) and the 5000 ms message hide (app.js:117-119); `window.scrollTo` and its smooth animation.
- The animation-frame fade-in of sections (app.js:175-203): browser scheduling; its test is a closed interval (`<=` at both ends, app.js:191-194), unlike the half-open test of the active link, and it only ever sets full opacity.
- The viewport-intersection reveal (app.js:72-101) and the animate-on-scroll library (app.js:409-414): foreign code.
- The parallax transform (app.js:55-70): floating-point scaling into a style string; it is only updated while the offset is below the hero's height.
- The custom cursor (app.js:311-363): floating-point easing in an endless animation-frame loop.
- The unused `lastScroll` variable (app.js:28, 49).
- Number edge cases of the browser (NaN, infinities, negative zero): offsets are exact reals.
