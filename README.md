# Scroll-driven frame player: a Dafny model

This project models the logic of a single-page site whose hero section is a
192-frame image sequence scrubbed by the page's scroll position. Three
components carry that logic:

- **ScrollSequence** preloads the frames. It counts resolved loads, errors
  included, and tells the page it may show itself once 30 frames are in.
  While frames load it shows a percentage. It maps the scroll offset to a
  target frame and eases the current frame toward that target, one
  animation-frame tick at a time. The loop goes idle once the current frame
  is within 0.008 of the target. Each tick it paints the nearest drawable
  frame, cover-fitted and centred on a canvas sized to the viewport times a
  pixel ratio capped at 2. When frame 0 finishes loading, the canvas is
  resized and frame 0 itself is drawn, whatever the current frame. With the
  loop idle at a later frame, the canvas keeps showing frame 0 until the
  next scroll or resize. The model keeps that behaviour (`Player.OnLoad`).
- **CardsSection** moves four cards through the viewport. Each card sweeps
  in one line from 110vh below the viewport to 110vh above it (`vh` is a
  hundredth of the viewport height) while the scroll
  progress crosses its own window. A "Dive In" button fades in after the
  last card has gone.
- **HeroUI** fades out the hero's body, header and scroll hint over the
  first part of the scroll, each on its own curve. It does so only once the
  first frames are ready.

All arithmetic is on exact `real`s. `Math.round` is `Floor(x + 1/2)`.

Modules:

- `ScrollMath` holds the shared helpers: clamp, round, scroll progress and
  the mobile breakpoint.
- `FrameAddress` builds frame file names.
- `FrameStore` holds frame load states, the nearest-drawable search and the
  load counter and percentage.
- `CoverFit` holds the canvas size and cover placement.
- `Smoothing` holds the target mapping, the easing step and its convergence.
- `ScrollSequence` holds class `Player`, whose fields are the effect's
  closure variables. Each browser event is one method, and events may come
  in any order.
- `CardsSection` and `HeroUI` hold the style mappings as functions. Their
  classes `CardsOverlay` and `HeroOverlay` hold the written styles.

A `requestAnimationFrame` request is modelled as a pending-tick counter,
`Player.pendingTicks`. The browser delivering it is `Player.AnimationFrame`.
`Player.Valid` is the invariant every event handler keeps:

- the load counter equals the number of resolved frames;
- the ready signal has fired once exactly when that number is at least 30;
- the percentage follows the counter;
- both frame positions lie in [0, 191] and the progress bar in [0, 1];
- the canvas shows only a drawable frame;
- at most one tick is pending, and only while alive;
- while alive, `rafRunning` says exactly whether a tick is pending.

## Model

| member | source | states |
|---|---|---|
| ScrollMath.Clamp01 | components/ScrollSequence.tsx:121 | the clamp lies in [0,1], is the identity on [0,1], 0 below and 1 above |
| ScrollMath.Clamp01Monotone | components/ScrollSequence.tsx:121 | clamping preserves order |
| ScrollMath.IsMobile | components/CardsSection.tsx:48 | the viewport counts as mobile exactly when its width is below 640 |
| ScrollMath.Round | components/ScrollSequence.tsx:56 | the rounded value is within half a unit of x, halves rounding up |
| ScrollMath.RoundMonotone | components/ScrollSequence.tsx:136 | rounding preserves order |
| ScrollMath.ScrollProgress | components/ScrollSequence.tsx:119-121 | no progress exactly when the scrollable range is not positive; otherwise progress in [0,1], 0 at the top and 1 at the bottom |
| ScrollMath.ScrollProgressMonotone | components/ScrollSequence.tsx:119-121 | scrolling further down never lowers the progress |
| ScrollMath.QuotientMonotone | components/ScrollSequence.tsx:121 | dividing by a positive range preserves order |
| ScrollMath.QuotientAtLeastOne | components/CardsSection.tsx:69 | a quotient whose numerator reaches the positive divisor is at least 1 |
| ScrollMath.QuotientBelowOne | components/HeroUI.tsx:41 | a quotient whose numerator is below the positive divisor is below 1 |
| FrameAddress.DecimalString | components/ScrollSequence.tsx:14 | `String(n)` is a non-empty string of decimal digits |
| FrameAddress.FrameSrc | components/ScrollSequence.tsx:13-16 | every address is at least prefix + 3 digits + suffix long, since `padStart` never shortens; FrameSrcShape gives the exact form |
| FrameAddress.PadStart | components/ScrollSequence.tsx:14 | `padStart` gives length max(len, width), keeps the string as a suffix, and fills the front with the fill character |
| FrameAddress.PaddedIsThreeDigits | components/ScrollSequence.tsx:14 | padding `String(n)` to 3 with '0' gives exactly the three decimal digits of n, for n < 1000 |
| FrameAddress.FrameSrcShape | components/ScrollSequence.tsx:13-16 | frame i < 192 is "/images/ezgif-frame-" + the 3-digit form of i+1 + ".jpg", 27 characters long |
| FrameAddress.FirstAndLastFrameSrc | components/ScrollSequence.tsx:13-16 | frame 0 is ".../ezgif-frame-001.jpg" and frame 191 is ".../ezgif-frame-192.jpg" |
| FrameAddress.ThreeDigitsInjective | components/ScrollSequence.tsx:14 | distinct numbers below 1000 have distinct 3-digit forms |
| FrameAddress.FrameSrcInjective | components/ScrollSequence.tsx:13-16 | distinct frames have distinct file names |
| FrameStore.Drawable | components/ScrollSequence.tsx:64-69 | a frame is drawable only once resolved, and a failed frame is never drawable |
| FrameStore.NearestDrawable | components/ScrollSequence.tsx:62-69 | the chosen frame is drawable and never above the requested index |
| FrameStore.NearestDrawableIsGreatest | components/ScrollSequence.tsx:62-69 | the chosen frame is the greatest drawable one at or below idx; none is chosen exactly when no frame at or below idx is drawable |
| FrameStore.NearestDrawableIgnoresLaterFrames | components/ScrollSequence.tsx:65-67 | the choice depends only on frames at or below idx |
| FrameStore.ResolvedCount | components/ScrollSequence.tsx:37 | the number of resolved frames never exceeds the number of frames |
| FrameStore.ResolveOneFrame | components/ScrollSequence.tsx:134-152 | resolving one pending frame, loaded or failed, raises the resolved count by exactly one |
| FrameStore.NothingResolved | components/ScrollSequence.tsx:37 | with every frame pending the resolved count is 0, the counter's initial value |
| FrameStore.AllResolved | components/ScrollSequence.tsx:136 | with every frame resolved the count is the number of frames |
| FrameStore.LoadPercent | components/ScrollSequence.tsx:136 | the percentage lies in [0,100], is 0 with nothing resolved and 100 with all 192 resolved |
| FrameStore.LoadPercentMonotone | components/ScrollSequence.tsx:136 | more resolved frames never show a lower percentage |
| CoverFit.EffectiveDpr | components/ScrollSequence.tsx:47 | the pixel ratio lies in (0,2], defaults to 1, is kept when at most 2, and is capped to exactly 2 when 2 or more |
| CoverFit.BackingSize | components/ScrollSequence.tsx:52-53 | each backing side is within half a pixel of the CSS size times the effective ratio, so at most twice the CSS size plus a half |
| CoverFit.CoverScale | components/ScrollSequence.tsx:73 | the cover scale is non-negative |
| CoverFit.CoverScaleIsLeast | components/ScrollSequence.tsx:73 | the scale makes the image cover the canvas, and every covering scale is at least as large |
| CoverFit.Cover | components/ScrollSequence.tsx:73-78 | the drawn image covers the canvas, fits it exactly on one axis, keeps its aspect ratio, has non-positive offsets and is centred on both axes |
| CoverFit.LandscapeFrameOnPortraitCanvas | components/ScrollSequence.tsx:73-78 | a 1920x1080 frame on an 800x1200 canvas fills the height exactly and overhangs the width |
| Smoothing.TargetFrame | components/ScrollSequence.tsx:122 | the target lies in [0,191], 0 at progress 0 and 191 at progress 1 |
| Smoothing.TargetFrameMonotone | components/ScrollSequence.tsx:122 | a larger progress gives a target at least as large |
| Smoothing.ScrollTarget | components/ScrollSequence.tsx:119-122 | no target exactly when the page cannot scroll; otherwise a target in [0,191], 0 at the top and 191 at the bottom |
| Smoothing.ScrollTargetMonotone | components/ScrollSequence.tsx:119-122 | the target is non-decreasing in the scroll offset |
| Smoothing.Settled | components/ScrollSequence.tsx:86 | a frame already on its target counts as settled |
| Smoothing.Lerp | components/ScrollSequence.tsx:95 | one easing step lands between the current frame and the target, and the distance shrinks to exactly 0.928 of what it was |
| Smoothing.PublishedProgress | components/ScrollSequence.tsx:90 | for a frame position in range the clamp in the progress update changes nothing; progress is 0 at the first frame and 1 at the last |
| Smoothing.FrameIndex | components/ScrollSequence.tsx:96 | the painted index lies in [0,191] and, for a position in range, is the rounded position, within half a frame of it |
| Smoothing.GeometricDecay | components/ScrollSequence.tsx:95 | after n easing steps the signed distance to the target is 0.928^n of the initial one |
| Smoothing.UnsettledTickProgress | components/ScrollSequence.tsx:86-95 | an easing step taken outside the epsilon band lowers the measure floor(distance / (0.072 * 0.008)) by at least one |
| Smoothing.TicksToSettle | components/ScrollSequence.tsx:86-99 | the count of unsettled ticks is 0 exactly when the frame is already settled |
| Smoothing.SettlesExactlyThen | components/ScrollSequence.tsx:86-99 | with a fixed target, after TicksToSettle steps the frame is within epsilon, and at no earlier step |
| Smoothing.TicksToSettleBound | components/ScrollSequence.tsx:86-99 | the number of easing steps before settling is at most the initial distance over 0.072 * 0.008 |
| Smoothing.DistanceAfter | components/ScrollSequence.tsx:95 | after n easing steps the distance to the target is 0.928^n of the initial distance |
| Smoothing.TicksToSettleLogBound | components/ScrollSequence.tsx:86-99 | if 0.928^n times the initial distance is below 0.008, the loop settles within n easing steps, so it idles after logarithmically many ticks |
| ScrollSequence.CssHeight | components/ScrollSequence.tsx:51 | the CSS height is non-negative; it is the visual viewport's height when there is one, and the window height otherwise |
| ScrollSequence.Show | components/ScrollSequence.tsx:70-78 | a drawable frame always leaves a fill on the canvas; it is black only when the natural height is 0; otherwise the frame itself is drawn covering the canvas |
| ScrollSequence.Paint | components/ScrollSequence.tsx:60-79 | the canvas is untouched when nothing at or below idx is drawable, and is painted otherwise; a newly drawn frame is drawable and not above idx |
| ScrollSequence.PaintShowsNearest | components/ScrollSequence.tsx:60-79 | painting leaves the canvas alone when nothing at or below idx is drawable; otherwise it shows the nearest drawable frame at or below idx, cover-fitted; a drawable idx is shown itself |
| ScrollSequence.Player.constructor | components/ScrollSequence.tsx:36-163 | after preload and bootstrap every frame is pending at its address, all counters are 0, both positions are 0, the canvas is sized to the viewport, and exactly one tick is pending |
| ScrollSequence.Player.Preload | components/ScrollSequence.tsx:128-132 | one pending image per frame, frame i at `frameSrc(i)` |
| ScrollSequence.Player.Resolve | components/ScrollSequence.tsx:63-68 | the backward loop returns the frame NearestDrawable specifies |
| ScrollSequence.Player.Draw | components/ScrollSequence.tsx:60-79 | after teardown nothing changes; otherwise the canvas shows what Paint specifies, and only a drawable frame is ever shown |
| ScrollSequence.Player.UpdateProgress | components/ScrollSequence.tsx:103-107 | the bar shows its argument clamped to [0,1] |
| ScrollSequence.Player.Resize | components/ScrollSequence.tsx:45-57 | after teardown nothing changes; otherwise the backing store and CSS size follow the viewport, the cleared canvas is repainted at the rounded current frame, and both frame positions are unchanged |
| ScrollSequence.Player.WakeRaf | components/ScrollSequence.tsx:110-115 | when alive, one tick is pending afterwards, and waking a running loop adds none; after teardown nothing changes |
| ScrollSequence.Player.Present | components/ScrollSequence.tsx:96-98 | the canvas shows the clamped, rounded current frame as Paint specifies and the bar shows the clamped progress |
| ScrollSequence.Player.Tick | components/ScrollSequence.tsx:82-100 | after teardown nothing changes; settled: snap to the target, paint, publish and request nothing; otherwise: one easing step, paint the clamped rounded frame, publish the clamped progress, request one tick; the playback invariant and the running flag's meaning are kept |
| ScrollSequence.Player.AnimationFrame | components/ScrollSequence.tsx:99 | delivering the pending request runs one tick: settled, it snaps to the target and stops; otherwise it takes one easing step and requests one more; either way the canvas shows Paint of the clamped, rounded new position and the bar its clamped progress; with none pending nothing changes |
| ScrollSequence.Player.OnScroll | components/ScrollSequence.tsx:118-124 | nothing changes on a page that cannot scroll; otherwise the target follows the scroll and a live loop has one tick pending |
| ScrollSequence.Player.OnResize | components/ScrollSequence.tsx:164 | resize followed by a wake: backing store and CSS size follow the viewport, the cleared canvas is repainted at the rounded frame, one tick is pending, positions are unchanged; after teardown nothing changes |
| ScrollSequence.Player.SignalReadyIfDue | components/ScrollSequence.tsx:144-148 | the ready signal fires on the call whose count is exactly 30, and only then |
| ScrollSequence.Player.CountResolution | components/ScrollSequence.tsx:135-136 | the pending frame resolves keeping its address, the counter rises by one and still equals the number of resolved frames, and the percentage follows it without dropping |
| ScrollSequence.Player.OnLoad | components/ScrollSequence.tsx:134-149 | the frame becomes loaded and nothing else in the store changes; the count rises by one; the ready signal fires once, at 30; the percentage never drops; frame 0 resizes the backing store and CSS size and repaints; playback state and the progress bar are untouched |
| ScrollSequence.Player.OnError | components/ScrollSequence.tsx:150-158 | the frame becomes errored and is never drawn; count, percentage and ready signal advance exactly as for a load; the canvas, its size and the progress bar are untouched |
| ScrollSequence.Player.Cleanup | components/ScrollSequence.tsx:171-173 | the player is no longer alive and no tick is pending |
| ScrollSequence.DeliverFramesUntilIdle | components/ScrollSequence.tsx:82-115 | with the target fixed, a running loop performs exactly TicksToSettle + 1 ticks, ends on the target and goes idle; an idle loop performs none |
| ScrollSequence.BootstrapThenFirstFrame | components/ScrollSequence.tsx:161-163 | after bootstrap the first tick finds the frame settled at 0 and stops the loop |
| CardsSection.Journey | components/CardsSection.tsx:69 | a card's journey lies in [0,1], is 0 up to its start and 1 from its end on |
| CardsSection.JourneyMonotone | components/CardsSection.tsx:69 | the journey is non-decreasing in the progress |
| CardsSection.Offset | components/CardsSection.tsx:72 | the offset lies in [-110,110], 110 at journey 0 and -110 at journey 1 |
| CardsSection.OffsetSweepsUp | components/CardsSection.tsx:72 | the card is at +110 before its window and at -110 after it, and never moves down as the progress grows |
| CardsSection.Visible | components/CardsSection.tsx:74 | a card is visible only strictly inside its window: never at or beyond either bound, and only when the window is non-empty |
| CardsSection.CardStyleAt | components/CardsSection.tsx:69-77 | opacity is 1 and pointer-events auto exactly inside the strict window, 0 and none outside it; the offset follows the journey |
| CardsSection.Timeline | components/CardsSection.tsx:8-40 | four cards, each with start < end and a window 0.24 long, starts strictly increasing, every end at most 0.77 and below the button's 0.80 |
| CardsSection.ButtonFade | components/CardsSection.tsx:82 | the fade lies in [0,1], 0 up to 0.80 and 1 from 0.87 on |
| CardsSection.ButtonFadeMonotone | components/CardsSection.tsx:82 | the fade is non-decreasing in the progress |
| CardsSection.ButtonStyleAt | components/CardsSection.tsx:82-85 | opacity is the fade; the rise lies in [0,28], 28 exactly when invisible and 0 exactly when fully shown; pointer-events is auto exactly when opacity exceeds 0.1 |
| CardsSection.ButtonAppearsMonotonically | components/CardsSection.tsx:82-85 | scrolling down never dims or lowers the button, and a clickable button stays clickable |
| CardsSection.ButtonHiddenWhileCardsShow | components/CardsSection.tsx:39 | while any card is visible the button is invisible and inert |
| CardsSection.CardsOverlay.constructor | components/CardsSection.tsx:89-90 | on mount the mobile flag is set and every card and the button are styled for the current progress, or left unwritten on a page that cannot scroll |
| CardsSection.CardsOverlay.CheckMobile | components/CardsSection.tsx:48 | the mobile flag is true exactly when the width is below 640 |
| CardsSection.CardsOverlay.Update | components/CardsSection.tsx:57-87 | nothing is written after cleanup or on a page that cannot scroll; otherwise each card gets CardStyleAt and the button ButtonStyleAt of the clamped progress |
| CardsSection.CardsOverlay.StyleCards | components/CardsSection.tsx:65-78 | after the loop every card holds CardStyleAt of p |
| CardsSection.CardsOverlay.Teardown | components/CardsSection.tsx:91 | after cleanup the overlay is no longer alive |
| HeroUI.Fade | components/HeroUI.tsx:41 | a fade lies in [0,1], is 0 at the top, below 1 before its end and 1 from its end on |
| HeroUI.FadeMonotone | components/HeroUI.tsx:41 | each fade is non-decreasing in the progress |
| HeroUI.HeroStylesAt | components/HeroUI.tsx:39-65 | opacities lie in [0,1] and shifts in [-72,0] and [-20,0]; everything is visible and in place at the top; body, header and hint are fully transparent exactly from 0.12, 0.20 and 0.06 on; the left-bottom block is inert exactly when body opacity is below 0.05; the header always takes clicks |
| HeroUI.FadeOrdering | components/HeroUI.tsx:6-8 | at every progress hint opacity <= body opacity <= header opacity |
| HeroUI.FadesMonotone | components/HeroUI.tsx:41-64 | scrolling down never raises an opacity or lowers a shift, and an inert left-bottom block stays inert |
| HeroUI.HeroOverlay.constructor | components/HeroUI.tsx:29-31 | on mount nothing is wired or written until the frames are ready; when ready, the styles follow the current progress |
| HeroUI.HeroOverlay.CheckMobile | components/HeroUI.tsx:23 | the mobile flag is true exactly when the width is below 640 |
| HeroUI.HeroOverlay.LoadedChanged | components/HeroUI.tsx:29-31 | the effect is wired exactly when loaded, and only then are styles written |
| HeroUI.HeroOverlay.Update | components/HeroUI.tsx:33-66 | nothing is written unless wired and the page can scroll; otherwise the styles are HeroStylesAt of the clamped progress |
| HeroUI.HeroOverlay.Teardown | components/HeroUI.tsx:70 | after cleanup the effect is no longer wired |

## Left out

- Markup, inline style objects and framer-motion animations are presentation only, with nothing to state.
- React plumbing is left out: `useState`, `useEffect`, refs and re-renders. `setLoaded` and `onLoaded` are one counter, `Player.readyCalls`. `setLoadPct` is the field `Player.loadPct`.
- Early returns for a missing canvas, a missing 2D context or a missing element ref are not modelled. Every element is taken to be mounted.
- Listener registration and removal are not modelled. Scroll, resize and animation-frame deliveries are method calls, and after cleanup the browser is assumed to deliver none.
- The `raf` handle is not modelled. A request is one unit of `Player.pendingTicks`, and cancelling clears it.
- Image fetching and decoding are not modelled. Each frame is Pending, Loaded with its natural size, or Errored.
- A loaded frame whose natural height is 0 gives a non-finite scale. The canvas then keeps only the black fill (`Picture.Black`), which follows the HTML canvas rule for non-finite `drawImage` arguments.
- IEEE double rounding is not modelled. All arithmetic is exact, and CSS strings such as `translateY(...)` and `scaleX(...)` are modelled as their numbers.
- The scroll spacer height affects only CSS layout.
- Player.OnLoad: requires the frame to be pending. A browser resolves each image once, so the counter can never pass 192.
- Player.OnError: requires the frame to be pending, for the same reason.
- Player.Tick: requires the playback half of the invariant and no pending request. It is reached only through Player.AnimationFrame, which consumes the request first and keeps the load half, which Tick does not touch.
- ScrollSequence.ViewportOk: the viewport sizes are taken as non-negative and the pixel ratio as positive. The browser guarantees both.
- Player.Valid: does not carry the frame addresses. The constructor and Preload state them, and OnLoad and OnError keep each frame's address unchanged.
- DeliverFramesUntilIdle: covers only the stretch in which no scroll, resize or load event arrives. Between such stretches the other handlers keep `Player.Valid`, so the same bound applies again from the new state.
- HeroOverlay: one `wired` flag covers both the effect's `alive` flag and its registered listener. They are set and cleared together.
- The per-element style writes in HeroUI are one `HeroStyles` value. The ref guards around them always pass when every element is mounted.
