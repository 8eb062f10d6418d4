# Portfolio page and carousel controllers, modelled in Dafny

The repository holds two static front-ends. Three small pieces of logic live
in them, and this project models exactly those:

- **The contact form** of the portfolio page (`src/App.tsx`). `validateForm`
  builds a field-to-message map from the three fields. A field is missing when
  `trim()` leaves nothing. The email must also pass the unanchored shape test
  `/\S+@\S+\.\S+/`. `handleSubmit`, `handleInputChange` and the deferred
  status reset move the form between `idle`, `success` and `error`.
- **The scroll-spy** of the same page. On every scroll event it probes
  `scrollY + 100` against the five sections `hero`, `about`, `services`,
  `portfolio` and `contact`, in that order. Each section whose half-open range
  `[offsetTop, offsetTop + height)` holds the probe becomes the active one.
  So the last match in page order wins, and with no match the active section
  stays. A navigation click always closes the mobile menu.
- **The category carousel** (`src/components/CategorySection.tsx`). It keeps
  two flags that decide whether the arrows are drawn. They start as "left
  off, right on". Each scroll event recomputes them from `scrollLeft`,
  `scrollWidth` and `clientWidth`. An arrow click asks the strip to scroll
  400 units left or right, without clamping.

Modules:
- `Text` (text.dfy): JavaScript whitespace, which `trim()` and `\s` share, and `trim()` itself.
- `EmailPattern` (email_pattern.dfy): the regular-expression test.
- `ContactForm` (contact_form.dfy): the form's record, its per-field rules and `Validate`.
- `ScrollSpy` (scroll_spy.dfy): the last-match rule.
- `PortfolioApp` (app.dfy): the page component as class `App`, one method per handler.
- `Carousel` (carousel.dfy): the carousel as class `CategorySection`.
- `Options` (options.dfy): an optional value.

Inputs the browser supplies become parameters:
- `document.getElementById` is a map from section id to its layout. A missing key is a missing element.
- A strip that is not mounted (`scrollRef.current` is null) is `None`.
- Each `setTimeout` callback has been scheduled and not yet run. The model counts these, and `StatusResetFired` is one of them running.

The error map is keyed by the `Field` datatype, because the only inputs
wired to `handleInputChange` are named `name`, `email` and `message`
(src/App.tsx:550, 568, 585). The source's property "the keys are a subset of
{name, email, message}" therefore holds by type.

Two behaviours of the code are easy to misread, and the model keeps them as
written:
- The scroll-spy is easily read as picking the first matching section. The
  code's `forEach` overwrites the active section on every match, so the last
  one wins. `ScrollSpy.DisjointFirstMatchWins` shows that the two agree
  whenever no two sections overlap.
- The success status is meant to revert to idle after five seconds. The timer
  is never cancelled, so a reset scheduled by one successful submit also sets
  an `error` status left by a later failed submit back to `idle`.
  `App.StatusResetFired` models that.

## Model

| member | source | states |
|---|---|---|
| `Text.Trim` | src/App.tsx:44 | `trim()` never lengthens its input, and its result starts and ends with a non-whitespace character unless it is empty |
| `Text.TrimIsSlice` | src/App.tsx:44 | `trim()` returns a contiguous slice of its input, and everything cut away in front of and behind it is whitespace |
| `Text.BlankIffAllWhitespace` | src/App.tsx:44 | `!s.trim()` holds exactly when every character of `s` is whitespace, the empty string included |
| `ContactForm.StartsVisibleNotBlank` | src/App.tsx:44 | a string whose first character is not whitespace is never treated as missing |
| `EmailPattern.ShapeGivesRegexMatch` | src/App.tsx:47 | when the executable shape test succeeds, some substring fully matches `\S+@\S+\.\S+` |
| `EmailPattern.RegexMatchGivesShape` | src/App.tsx:47 | when any substring fully matches `\S+@\S+\.\S+`, the executable shape test succeeds |
| `EmailPattern.ShapeIffRegexTest` | src/App.tsx:47 | the executable test answers exactly what the unanchored `test` answers: some whitespace-free substring `x@y.z` exists with `x`, `y` and `z` non-empty |
| `EmailPattern.NoAtSignNoShape` | src/App.tsx:47 | an address with no '@' fails the shape test |
| `ContactForm.FormData.With` | src/App.tsx:69-70 | an input change sets the named field to the typed value and keeps the other two fields |
| `ContactForm.Validate` | src/App.tsx:41-51 | the name gets "Name is required" exactly when it is blank. The email gets "Email is required" exactly when it is blank, "Email is invalid" when it is not blank but fails the shape test, and nothing otherwise, so never both. The message gets "Message is required" exactly when it is blank. No other entry exists |
| `ContactForm.ValidateWellFormed` | src/App.tsx:44-50 | every entry of a fresh error map is a non-empty message belonging to its own field |
| `ContactForm.ValidIffAcceptable` | src/App.tsx:42-53 | the error map is empty, so `validateForm` returns true, exactly when all three fields are filled in and the email has the shape |
| `ContactForm.WhitespaceOnlyIsMissing` | src/App.tsx:44-50 | a field holding only whitespace gets an error, and for the email that error is "Email is required" |
| `ContactForm.SingleFailure` | src/App.tsx:42-50 | when exactly one field breaks its rule, the error map has that single entry |
| `ContactForm.MissingNameExample` | src/App.tsx:44-50 | name "", email "a@b.com", message "hi" gives exactly `{name: "Name is required"}` |
| `ContactForm.InvalidEmailExample` | src/App.tsx:44-50 | name "A", email "not-an-email", message "hi" gives exactly `{email: "Email is invalid"}` |
| `ContactForm.MissingMessageExample` | src/App.tsx:44-50 | name "A", email "a@b.com", message "" gives exactly `{message: "Message is required"}` |
| `ScrollSpy.LastMatchIndex` | src/App.tsx:13-26 | when some section holds the probe, it finds the last such section, and no later section holds the probe. When it finds none, no section holds the probe |
| `ScrollSpy.ActiveAfterStep` | src/App.tsx:16-26 | each step of the section loop makes the current section active if its element holds the probe, and otherwise keeps the result so far |
| `ScrollSpy.ActiveStaysASection` | src/App.tsx:13-25 | a scroll event leaves the active section among the five section ids when it started among them |
| `ScrollSpy.NoMatchKeepsActive` | src/App.tsx:22-24 | a probe that hits no section leaves the active section unchanged |
| `ScrollSpy.LastMatchWins` | src/App.tsx:16-26 | of several sections holding the probe, the one latest in page order becomes active |
| `ScrollSpy.DisjointFirstMatchWins` | src/App.tsx:16-26 | on a layout with no overlapping sections, the first section holding the probe is the one made active |
| `ScrollSpy.AboutExample` | src/App.tsx:12-26 | with hero at [0, 800), about at [800, 1600) and services at [1600, 2400), scrolling to 750 probes 850 and makes about active |
| `PortfolioApp.App.constructor` | src/App.tsx:5-9 | the initial state has the menu closed, hero active, three empty fields, idle status, no errors and no pending reset |
| `PortfolioApp.App.HandleScroll` | src/App.tsx:12-27 | the loop leaves as active the last section whose element holds `scrollY + 100`, or keeps the old section when none does. It changes only the active section, which stays one of the five ids |
| `PortfolioApp.App.ScrollToSection` | src/App.tsx:33-39 | whatever the target section, the mobile menu ends closed, and nothing else in the state changes |
| `PortfolioApp.App.ToggleMenu` | src/App.tsx:172 | the menu button flips the menu flag and changes nothing else |
| `PortfolioApp.App.ValidateForm` | src/App.tsx:41-54 | the error map is replaced wholesale by the map `Validate` gives for the current fields, and the result is true exactly when that map is empty. Only `errors` changes |
| `PortfolioApp.App.HandleSubmit` | src/App.tsx:56-66 | the errors become the fresh validation of the submitted fields, dropping stale entries. A valid submit sets the status to success, clears all three fields and schedules one reset. An invalid submit sets the status to error and leaves the fields as typed |
| `PortfolioApp.App.StatusResetFired` | src/App.tsx:62 | a scheduled reset sets the status to idle, whatever it was, and touches nothing else |
| `PortfolioApp.App.HandleInputChange` | src/App.tsx:68-74 | only the named field takes the new value. That field's error becomes "" only when it held a non-empty message. Every other error entry, and the other fields, stay as they were |
| `Carousel.ScrollTarget` | src/components/CategorySection.tsx:21-32 | a left click targets exactly 400 units below the current offset, a right click exactly 400 above |
| `Carousel.RoundTrip` | src/components/CategorySection.tsx:24-25 | a right target then a left target (or the reverse) from the same start returns to the starting offset |
| `Carousel.TargetsAreNotClamped` | src/components/CategorySection.tsx:24-30 | targets are not clamped. From offset 0 a left click targets a negative offset, and a right click can target past the largest offset |
| `Carousel.RightFlagMeansHiddenContent` | src/components/CategorySection.tsx:38 | the right flag is set exactly when more than one unit of content lies hidden to the right of the viewport |
| `Carousel.FittingContentNeedsNoRightArrow` | src/components/CategorySection.tsx:34-40 | a strip whose content fits its viewport computes no right arrow, unlike the initial `true` |
| `Carousel.BoundaryExample` | src/components/CategorySection.tsx:37-38 | with width 2000 shown 800 wide: at 0 the flags are left off, right on. At 1198 the right flag is on, at 1199 it is off |
| `Carousel.CategorySection.constructor` | src/components/CategorySection.tsx:18-19 | the initial flags are `canScrollLeft = false` and `canScrollRight = true`, with no scroll requested yet |
| `Carousel.CategorySection.HandleScroll` | src/components/CategorySection.tsx:34-40 | with the strip mounted, `canScrollLeft == (scrollLeft > 0)` and `canScrollRight == (scrollLeft < scrollWidth - clientWidth - 1)`. With it unmounted, both flags keep their values |
| `Carousel.CategorySection.Scroll` | src/components/CategorySection.tsx:21-32 | with the strip mounted, an arrow click requests `ScrollTarget(dir, scrollLeft)`; unmounted, it requests nothing. It never changes either flag |

The arrows are drawn exactly when their flags are set
(src/components/CategorySection.tsx:52, 66). The markup reads the fields
directly, so the model has no separate member for it.

## Left out

- All markup, class strings and icons, and the static `services`, `projects` and `stats` arrays (src/App.tsx:76-641): they are presentation, not behaviour.
- Browser plumbing: registering and removing the scroll listener, `scrollIntoView`, and the smooth `scrollTo` animation, including the browser's own clamping of the target. The element lookup and the strip's metrics are parameters.
- `e.preventDefault()` in `handleSubmit`: it only stops the browser's own form submission.
- Wall-clock time: the five-second delay is not modelled. A scheduled reset is counted in `pendingResets`, and it running is `StatusResetFired`.
- Fractional offsets: browsers may report `scrollY` and `scrollLeft` as fractions. The model uses integers.
- React's rendering and batching: handlers apply their state updates in order, last write wins.
- JavaScript strings are UTF-16, and a lone surrogate cannot be a Dafny `char`. Such strings are not modelled; every whitespace character lies in the Basic Multilingual Plane, so nothing else is affected.
- `src/components/ContentModal.tsx`, `ContentCard.tsx`, `HeroSection.tsx`, `Navigation.tsx` and `ProfileModal.tsx`: they only display fields and flip hover, loaded, mute, menu and search flags. `src/types/index.ts` only declares record shapes, and `vite.config.js` is build configuration.
