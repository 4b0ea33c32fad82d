# Portfolio page interactivity: the stateful core of app.js

This project models, in Dafny, the parts of the portfolio site's `app.js`
that keep state between browser callbacks, and proves what they promise.
Browser timers, animation frames and observer callbacks become explicit
events, each delivered one at a time.

- **Typewriter** (`typewriter.dfy`, module `Typewriter`). The hero text types
  a phrase one character per 120 ms tick. When the phrase is complete, a
  one-shot 2000 ms timer is armed that switches to deleting. Deleting ticks
  come every 75 ms. When the count reaches 0 the next phrase starts, wrapping
  around. The model follows the code, not an idealised type/hold/delete cycle.
  Ticks keep running during the hold, so `charIndex` grows past the phrase
  length. The text stays right only because `substring` clamps its index. The
  pure specification is `TickStep`/`FireStep` over a `Cursor` value. The class
  `TypedText` holds the page's globals and is proved against it. The proved
  invariant `Inv` says:
  - the text shown is `substring(0, charIndex)` of the current phrase;
  - at most one "start deleting" timer is pending, and none while deleting;
  - `charIndex` is never negative.
  `FullCycle` runs one whole cycle, with any number of hold ticks, and ends at
  the start of the next phrase.
- **Binary stream text** (`binary_stream.dfy`, module `BinaryStream`). The
  loop in `createStream` formats 50 random bits into groups of eight. The bits
  are an input sequence. `StreamLayout` proves the exact length, where the
  spaces fall, and that deleting the spaces gives back the bits.
- **Active nav link** (`nav_links.dfy`, module `NavLinks`). The scan of
  `updateActiveNavLink` over the sections, on an array of `active` flags, one
  per nav link. It is proved against `Highlight`, and `HighlightResult` says
  which link ends up active.
- **Gates** (`gates.dfy`, module `Gates`). These are the `throttle` closure,
  the parallax `requestTick` flag and the resize debounce. Each gate is a
  class, proved against a step function (`GateStep`, `DebounceStep`).
  Lemmas over event traces show two things. No two calls go through without an
  expiry between them. A burst of resizes re-runs the tilt setup once.
- **Scroll reveal** (`scroll_reveal.dfy`, module `ScrollReveal`). The setup
  hides and observes the elements. The observer callback reveals the
  intersecting ones. The proofs cover idempotence, and show that no observer
  callback hides a revealed element again. The setup runs once at page load
  (app.js:590), before any callback.

`wrappers.dfy` holds the `Option` type used by the nav-link lookups.

Five facts about the code shape the model:
- The delays are 120 ms per typing tick, 75 ms per deleting tick and 2000 ms
  for the hold timer.
- The hold is not a pause. Ticks keep running and `charIndex` overshoots the
  length. When deleting starts, the whole phrase therefore stays on screen
  for as many deleting ticks as there were hold ticks (`FullCycle`).
- The reveal observer never calls `unobserve`. A later entry for a revealed
  element writes the same values again, and this is proved to be a no-op.
- The stagger delay is written into the CSS `transition`, not into when the
  reveal happens. It is left out (see below).
- `initParallaxEffect` (app.js:421-447), which installs the `requestTick`
  gate, is never called by app.js: its DOMContentLoaded handler
  (app.js:571-601) does not call it. It is modelled all the same, as
  `Gates.ParallaxTicker`.

## Model

| member | source | states |
|---|---|---|
| Typewriter.Substring | app.js:29-32 | `substring` clamps both indices into [0, length] (and swaps them), so its result is never longer than the string |
| Typewriter.PrefixSubstring | app.js:29-32 | `substring(0, k)` is a prefix of the phrase of clamped length `k`, and the whole phrase once `k` reaches or passes the length |
| Typewriter.TickStep | app.js:25-41 | one `typeText` run keeps `phraseIndex` inside [0, phrases.length) |
| Typewriter.NextDelay | app.js:43-44 | the successor tick is scheduled after 75 ms exactly when deleting after the update, else after 120 ms |
| Typewriter.FireStep | app.js:37 | the hold timer turns deleting on and is used up |
| Typewriter.StartIsValid | app.js:21-23 | the initial globals (index 0, count 0, typing, nothing shown) satisfy the invariant |
| Typewriter.TickKeepsInv | app.js:25-45 | a tick keeps the invariant: shown text is `substring(0, charIndex)`, at most one hold timer pending and none while deleting, `charIndex >= 1` while deleting, a pending timer implies `charIndex >= length` |
| Typewriter.FireKeepsInv | app.js:28-37 | the hold timer firing keeps the invariant, and deletion starts from `charIndex >= length` |
| Typewriter.DisplayIsPrefix | app.js:29-34 | in every reachable state the shown text is a prefix of the current phrase and `charIndex` is not negative |
| Typewriter.TickAdvance | app.js:38-41 | `phraseIndex` changes only on the deleting tick that takes `charIndex` from 1 to 0; it then becomes `(phraseIndex+1) % length`, typing resumes, nothing is shown, no timer is pending |
| Typewriter.RunKeepsInv | app.js:25-45 | after any sequence of ticks and hold-timer firings from a valid state, the shown text is a prefix of the current phrase, `charIndex >= 0`, and at most one hold timer is pending |
| Typewriter.TypeRun | app.js:32-37 | from the start of a non-empty phrase, `k` ticks show its first `k` characters; only the tick reaching the length arms the (single) hold timer |
| Typewriter.HoldRun | app.js:32-36 | ticks during the hold push `charIndex` past the length while the full phrase stays shown and the one timer stays pending |
| Typewriter.DeleteRun | app.js:28-30 | deleting from `m` shows the clamped prefix of `m - j` after `j` ticks and reaches the start of the next phrase after `m` ticks |
| Typewriter.FullCycle | app.js:25-45 | a whole cycle with any number `h` of hold ticks: typed state, `h` deleting ticks that still show the whole phrase, and arrival at phrase `(i+1) % length` |
| Typewriter.SitePhrasesNonEmpty | app.js:13-19 | the page's five phrases are all non-empty, so every cycle completes |
| Typewriter.TypedText.constructor | app.js:21-23 | page start: globals at their initial values, first tick armed |
| Typewriter.TypedText.Tick | app.js:25-45 | the globals change as `TickStep` says; exactly one successor tick is armed with `NextDelay`; the cycle that advances the phrase armed exactly one hold timer |
| Typewriter.TypedText.DeleteTimerFires | app.js:37 | the timer sets `isDeleting`; `charIndex` is then at least the phrase length |
| BinaryStream.Digit | app.js:94 | a bit is appended as the character `'0'` or `'1'` matching its value |
| BinaryStream.StreamPrefix | app.js:92-96 | the text after `i` iterations has `i` digits plus `i/8` spaces, and 6 spaces once the loop has passed bit 48 |
| BinaryStream.StreamText | app.js:92-96 | the finished text is 56 characters long |
| BinaryStream.PrefixLayout | app.js:92-96 | after `i` iterations the text has `i` digits and `i/8` spaces (6 at the end), a space exactly at positions 8 mod 9, and bit `j - j/9` at every other position `j` |
| BinaryStream.PrefixDigits | app.js:92-96 | deleting the spaces of the text after `i` iterations leaves the digits of the first `i` bits |
| BinaryStream.StreamLayout | app.js:92-96 | for any 50 bits: length 56; spaces exactly at 8, 17, 26, 35, 44, 53, so 6 of them and none first or last; reading the text without spaces gives back the bits |
| BinaryStream.CreateStreamText | app.js:92-96 | the loop builds exactly that text, of length 56, from which the bits read back |
| NavLinks.Contains | app.js:304 | a section holds the probe only if its height is positive and its top is at or above the probe |
| NavLinks.FirstLinkTo | app.js:302 | the lookup finds the first nav link in document order whose `href` matches, or none exactly when no link matches |
| NavLinks.OnlyActive | app.js:305-308 | after a matching section at most one link is active; one is active exactly when some link's `href` is `#` + the section id, and an active link has that `href` |
| NavLinks.HighlightPrefix | app.js:298-310 | after visiting `i` sections the flags are unchanged if none of them held the probe, and otherwise are the flags some visited matching section sets |
| NavLinks.Highlight | app.js:298-310 | the same for the whole scan: old flags when no section holds the probe, else the flags of one matching section |
| NavLinks.LastContaining | app.js:298-309 | the last section in document order whose `[top, top+height)` holds the probe, or none when no section holds it |
| NavLinks.HighlightPrefixIsLastMatch | app.js:298-310 | after the scan has visited some sections, the flags are those set by the last matching section visited, or unchanged when none matched |
| NavLinks.HighlightResult | app.js:296-309 | after a scan, only the link of the last section holding `scrollY+100` is active; no link is active if that section has no link; the flags are unchanged if no section holds the point |
| NavLinks.NavMenu.constructor | app.js:4 | the nav links with their `href`s in document order and their current `active` classes |
| NavLinks.NavMenu.UpdateActiveNavLink | app.js:294-311 | the loop over sections leaves the `active` flags equal to `Highlight` of the old flags at `scrollY + 100` |
| Gates.GateStep | app.js:545-548 | a call finding the flag clear goes through, sets it and arms one expiry; a call finding it set changes nothing |
| Gates.GateStepKeepsInv | app.js:439-446 | every event keeps "an expiry is pending exactly while the flag is set", so at most one timer or frame is pending |
| Gates.FirstCallForwarded | app.js:545-546 | the first call goes through |
| Gates.StaysClosed | app.js:545-548 | with the flag set, no sequence of calls without an expiry clears it |
| Gates.ExpiryBetweenForwards | app.js:540-551 | between any two calls that go through, the trace holds an expiry |
| Gates.ForwardsBound | app.js:540-551 | the calls that go through are at most the expiries, plus one if the flag starts clear |
| Gates.Throttle.constructor | app.js:540-541 | a new throttle starts with `inThrottle` falsy and no timer |
| Gates.Throttle.Call | app.js:542-550 | `func` runs exactly when `inThrottle` was clear; the state changes as `GateStep` says |
| Gates.Throttle.TimerFires | app.js:548 | the limit timer clears `inThrottle` |
| Gates.ParallaxTicker.constructor | app.js:422 | `ticking` starts false with no frame requested |
| Gates.ParallaxTicker.RequestTick | app.js:439-444 | a frame is requested exactly when `ticking` was false; the state changes as `GateStep` says |
| Gates.ParallaxTicker.UpdateParallax | app.js:424-437 | the frame's `updateParallax` clears `ticking` |
| Gates.DebounceStep | app.js:609-615 | a resize leaves a timer pending and re-runs nothing; a firing timer uses up one pending timer and re-runs `initTiltEffect` once; a firing with nothing pending changes nothing |
| Gates.DebounceBound | app.js:608-615 | at most one resize timer is ever pending, and re-runs never outnumber resizes |
| Gates.BurstLeavesOneTimer | app.js:609-611 | any burst of resizes leaves exactly one timer pending and re-runs nothing |
| Gates.BurstReinitsOnce | app.js:608-615 | a burst of resizes followed by its timer re-runs `initTiltEffect` exactly once |
| Gates.ResizeHandler.constructor | app.js:608 | no resize timer at page load |
| Gates.ResizeHandler.OnResize | app.js:609-611 | `clearTimeout` then `setTimeout`: exactly one timer pending afterwards |
| Gates.ResizeHandler.TimerFires | app.js:611-614 | the pending timer fires and re-runs `initTiltEffect` once |
| ScrollReveal.ApplyEntry | app.js:394-398 | an intersecting entry reveals its target (opacity 1, no shift, `animated`); a non-intersecting entry changes nothing |
| ScrollReveal.HideAll | app.js:412-415 | the setup keeps every styled element styled and leaves every listed element at opacity 0 and translateY 30px |
| ScrollReveal.HideAllEffect | app.js:412-415 | the setup gives every listed element opacity 0 and translateY 30px and leaves every other element's styles as they were |
| ScrollReveal.ApplyEntries | app.js:393-399 | a batch only adds styles and `animated` classes, and every intersecting target ends revealed |
| ScrollReveal.ApplyEntriesEffect | app.js:393-399 | a batch reveals exactly its intersecting targets and leaves every other element's styles and classes as they were |
| ScrollReveal.RevealAgainNoOp | app.js:394-398 | an intersecting entry for an already revealed element changes nothing |
| ScrollReveal.ApplyEntriesIdempotent | app.js:393-399 | delivering the same batch twice is the same as delivering it once |
| ScrollReveal.ApplyEntriesKeepsRevealed | app.js:393-399 | whatever entries arrive, a revealed element stays at opacity 1 with no shift and keeps `animated` |
| ScrollReveal.RevealObserver.constructor | app.js:386-400 | the observer starts watching nothing |
| ScrollReveal.RevealObserver.InitScrollAnimations | app.js:403-417 | every listed element is hidden and observed; classes are untouched |
| ScrollReveal.RevealObserver.OnIntersection | app.js:392-400 | the callback's loop applies the batch as `ApplyEntries` says; no revealed element is hidden again; nothing is unobserved |

## Left out

- The real timing of timers is not modelled. Timers, frames and observer callbacks are events, with no clock. In the code the hold timer fires after 2000 ms, which is about 16 ticks. The model lets it fire after any number of ticks, so every property is proved for all hold lengths.
- The typewriter's initial `#typed-text` content is taken to be empty. The page markup is not part of this model.
- The DOMContentLoaded guard `if (typedText)` (app.js:575) is not modelled. The model always starts the typewriter.
- All floating-point geometry and styling is left out: tilt rotations and shadows, parallax speeds, the random positions and durations of particles and streams, and the per-element transition-delay seconds (app.js:415). These are floats, randomness and CSS strings.
- Particle, stream and tech-element creation and removal timers (app.js:48-154) are DOM plumbing. Only the bit-string formatting of `createStream` is kept. `Math.random` is replaced by its 50 bits.
- The body of `updateParallax` (app.js:425-434) is left out. Only its `ticking = false` is modelled. The body of `initTiltEffect` (app.js:157-219) is left out too. Only how often the resize timer re-runs it is modelled.
- `throttle` forwards `this` and the arguments to `func`. The model records only whether `func` ran.
- NavLinks.FirstLinkTo: section ids are taken to need no CSS escaping. The code builds the selector `.nav-link[href="#id"]` by interpolation (app.js:302), so an id holding `"` or a newline makes `querySelector` throw, and a `\` in the id starts a CSS escape and matches a different `href`. The model compares `href` with `#` + id exactly.
- NavLinks.NavMenu.UpdateActiveNavLink: `scrollY`, `offsetTop` and `offsetHeight` are whole pixels, although `scrollY` can be fractional in browsers. Only the `active` class of each link is modelled. The scan always completes: the model does not capture a selector that throws (see `FirstLinkTo`) stopping the `forEach` part-way with the flags set so far.
- Gates.Throttle.Call: `func` is taken to return normally. In the code `func` runs before `inThrottle = true` (app.js:546-547), so a `func` that throws leaves the throttle open with no timer armed; the model always closes it after a forwarded call.
- Typewriter.Substring: strings are counted in Dafny characters, while JavaScript's `length` and `substring` count UTF-16 code units. The page's phrases are ASCII, where the two agree.
- How the browser decides `isIntersecting` (threshold 0.1, margin -50 px) is not modelled. It arrives as a boolean in each entry.
- Clipboard, `mailto` navigation and notifications (app.js:450-520) are foreign asynchronous browser APIs.
- Several one-line DOM side effects are left out: hover, click and keyboard handlers (app.js:234-257, 260-277, 314-383, 523-537, 618-625), `handleNavbarScroll` (app.js:280-291), the `window.scrollTo` of `smoothScrollTo` (app.js:222-231) and image preloading (app.js:554-568).
- Visibility-change and load logging (app.js:628-642) does nothing beyond `console.log` and adding a class.
