# Starfield animator — a verified model

The landing page of this repository paints an animated night sky on a
full-window canvas (`static/src/page/Home.tsx`). The sky has two kinds of
objects:

- Persistent **stars**. They are seeded (`initStars`) on mount and again on
  every resize event, and twinkle in place every frame.
- Transient **shooting stars**. A randomised gate spawns one from a viewport
  edge (`createShootingStar`). Each frame it records a trail sample on every
  third frame, moves along its angle and fades. It is removed once it has faded
  out or left a 50 px margin around the viewport.

The colour helper `hexToRgb` turns palette entries into the `r,g,b` text of a
CSS `rgba(...)`.

This project models those state updates in Dafny and proves their
properties. Numbers are `real`. The host supplies these values, which are
parameters of the model:

- every `Math.random()` draw: a stream of values in [0,1), read in program
  order, so the draws that a short-circuiting `&&` skips are modelled exactly;
- `Math.sin` and `Math.cos`: functions into [-1,1];
- `Math.PI`: a positive real;
- the viewport size: non-negative reals.

Files and modules:

- `host.dfy` (`Host`): the draw stream, the bounded types and `Scale`.
- `colour.dfy` (`Colour`): `hexToRgb`, with an encoder and a decoder for round trips.
- `stars.dfy` (`Stars`): star seeding, the colour bias and the twinkle.
- `shooting_stars.dfy` (`ShootingStars`): spawning, the per-frame step, the
  removal test, and the backwards `splice` loop proved equal to a filter.
- `animator.dfy` (`Animator`): the component state, resize, one frame, and runs of frames.

Edge cases of the code that the model states explicitly:

- A resize to a 0×0 viewport does not give an empty star list. `initStars` is
  always called with its default count of 120, so there are 120 stars, all at
  the origin (`Animator.ResizeToZero`).
- A star's x lies in [0, width) only when width > 0. At width 0 every x is 0.
  The same holds for y and height.
- The spawn cooldown is strict. A frame exactly 2000 ms after the last spawn
  cannot spawn (`Animator.CooldownIsStrict`).
- A spawning frame adds exactly one shooting star to those that survive the
  frame. The list length grows by one only when no shooting star expires in
  that frame.

## Model

| member | source | states |
|---|---|---|
| `Host.Scale` | static/src/page/Home.tsx:61-62 | `Math.random() * extent` lies in [0, extent], and strictly below extent when extent > 0 |
| `Colour.Accepts` | static/src/page/Home.tsx:39 | the language of the case-insensitive pattern: six hex digits, optionally after one `#`, and nothing else; `Colour.Exec` is proved to match exactly these strings |
| `Colour.FormatTriple` | static/src/page/Home.tsx:41 | the template string: the three decimal renderings joined by commas with no spaces; `Colour.FormatTripleRoundTrip` proves it reads back as its three channels |
| `Colour.Exec` | static/src/page/Home.tsx:39 | the pattern matches exactly six hex digits (either case), optionally after one `#`, with nothing after them; the three groups are the three digit pairs |
| `Colour.ParseHexPair` | static/src/page/Home.tsx:41 | `parseInt` of a two-hex-digit group is a byte value below 256 |
| `Colour.Channels` | static/src/page/Home.tsx:39-41 | an accepted string's last six characters read as three hex pairs give three channel values below 256 |
| `Colour.Decimal` | static/src/page/Home.tsx:41 | the decimal rendering of a channel is a non-empty run of digits with no leading zero |
| `Colour.HexToRgb` | static/src/page/Home.tsx:38-43 | a rejected string gives `255,255,255`; an accepted one gives the decimal values of its three digit pairs, comma-joined |
| `Colour.RejectedShapes` | static/src/page/Home.tsx:39-42 | any string not of length 6 or 7 (three-digit shorthand, extra characters) falls back to white |
| `Colour.DecimalRoundTrip` | static/src/page/Home.tsx:41 | reading the decimal rendering of a number gives the number back |
| `Colour.FormatTripleRoundTrip` | static/src/page/Home.tsx:41 | the `r,g,b` text parses back to exactly the three channels it was made from |
| `Colour.HexToRgbRoundTrip` | static/src/page/Home.tsx:38-43 | for every colour, written in lower or upper case and with or without `#`, `hexToRgb` returns its three channels in decimal |
| `Colour.HexToRgbChannels` | static/src/page/Home.tsx:40-42 | for every input, the output parses as three channels in 0..255: the digit pairs' values if accepted, all 255 otherwise |
| `Stars.PaletteIndex` | static/src/page/Home.tsx:57 | the randomly chosen palette index is always in 1..4, never the white entry 0 |
| `Stars.SeedColour` | static/src/page/Home.tsx:55-58 | the colour is a palette entry and is non-white iff base brightness > 0.8 and the gate draw < 0.5; because of the short-circuit it takes no draw when base ≤ 0.8, one when the gate draw fails, and two when it passes, the second choosing the tint |
| `Stars.SeedStar` | static/src/page/Home.tsx:50-69 | one star: position on the viewport, size in [0.5,3.5), base brightness in [0.5,1), speed in [0.0005,0.0025), brightness equal to base; glowing iff the second draw < 0.1; non-white iff base > 0.8 and the third draw < 0.5; base is the first draw scaled to [0.5,1); after the 0, 1 or 2 colour draws, x, y, size and speed come from the next four draws in that order, so exactly 6, 7 or 8 draws are used |
| `Stars.SeedStars` | static/src/page/Home.tsx:46-71 | `initStars` returns exactly `count` fresh stars, each valid for the viewport with brightness equal to base; it uses between 6·count and 8·count draws |
| `Stars.DrawnBrightness` | static/src/page/Home.tsx:137 | the painted brightness is the stored one clamped to [0,1]: in [0,1], equal to the stored one inside it, 0 below it, 1 above it |
| `Stars.Twinkle` | static/src/page/Home.tsx:136 | only the stored brightness changes, and it stays within 0.5 of base |
| `Stars.TwinkleAll` | static/src/page/Home.tsx:133-136 | every star keeps its position and all other fields; only brightness changes, within 0.5 of base |
| `Stars.TwinkleKeepsInvariant` | static/src/page/Home.tsx:134-137 | twinkling keeps every star valid for the viewport; the stored (unclamped) brightness lies in [0,1.5) |
| `ShootingStars.EdgeOf` | static/src/page/Home.tsx:76 | the start edge is always in 0..3 |
| `ShootingStars.QuarterTurn` | static/src/page/Home.tsx:83-98 | each angle draw lies in a quarter turn [π·start, π·start + π/2) |
| `ShootingStars.Create` | static/src/page/Home.tsx:75-116 | the start lies on the chosen edge (top y=0, right x=width, bottom y=height, left x=0); the angle lies in [π/4,3π/4), [3π/4,5π/4), [5π/4,7π/4) or [7π/4,9π/4) for that edge; length in [40,120), speed in [5,15), brightness 1, empty trail, counter 0; uses exactly 5 draws |
| `ShootingStars.SampleOf` | static/src/page/Home.tsx:197-201 | a trail sample is the position before the move, with size at most 3 and positive while the star is bright |
| `ShootingStars.PushBounded` | static/src/page/Home.tsx:197-204 | the new sample is last; nothing is dropped while the pushed trail still fits within `length`, and exactly the oldest sample is dropped once it would exceed it; a trail no longer than `length` stays no longer than `length` |
| `ShootingStars.Samples` | static/src/page/Home.tsx:193-194 | the throttle test: the incremented counter has reached 3; `ShootingStars.ThrottleCycle` proves it holds on exactly one of every three frames |
| `ShootingStars.Step` | static/src/page/Home.tsx:193-275 | a sample is appended iff the incremented counter reaches 3, and then the counter resets to 0; the star moves by exactly (cos·speed, sin·speed) and loses exactly 0.01 brightness; angle, length and speed are unchanged; the trail invariant is kept (the move is at lines 208-209 and the fade at line 275; the painting in between is not modelled) |
| `ShootingStars.Expired` | static/src/page/Home.tsx:277-280 | the removal test after the step: brightness at most 0, or x or y more than 50 px beyond any viewport edge; `ShootingStars.AdvanceMembership` proves a stepped star is kept iff this test fails |
| `ShootingStars.Advance` | static/src/page/Home.tsx:277-282 | no survivor of a frame is faded out or beyond the 50 px margin, and no star is added |
| `ShootingStars.AdvanceInPlace` | static/src/page/Home.tsx:188-283 | the backwards loop with in-place `splice` gives exactly the in-order filter of the stepped stars that have not expired |
| `ShootingStars.AdvanceMembership` | static/src/page/Home.tsx:277-282 | a stepped star is kept iff it has not expired: every non-expired stepped star is in the result, and every result element is a stepped input |
| `ShootingStars.AdvanceAppend` | static/src/page/Home.tsx:189-283 | removal keeps relative order: advancing `a + b` is advancing `a` followed by advancing `b` |
| `ShootingStars.AdvanceKeepsLive` | static/src/page/Home.tsx:189-282 | every survivor keeps its trail bounds, has brightness in (0,1] and lies within the margin around the viewport |
| `ShootingStars.StepsDrift` | static/src/page/Home.tsx:207-275 | over k frames a star moves k times its per-frame displacement along a fixed angle and loses exactly k·0.01 brightness |
| `ShootingStars.Lifetime` | static/src/page/Home.tsx:275-278 | a star starting at brightness 1 is not faded before frame 100 and is faded (so removed) by frame 100 |
| `ShootingStars.ThrottleCycle` | static/src/page/Home.tsx:193-195 | in every three consecutive frames exactly one trail sample is taken, and the counter returns to its value |
| `Animator.Resize` | static/src/page/Home.tsx:296-307 | a resize takes the new size and replaces the star list by exactly the list `initStars` seeds from the same draws (120 valid stars), whatever stars were there before; the shooting stars and the spawn clock are untouched |
| `Animator.Mount` | static/src/page/Home.tsx:295-309 | after mounting the scene has the given window size, 120 valid stars, no shooting stars and a spawn clock at 0 |
| `Animator.SpawnGate` | static/src/page/Home.tsx:286 | the gate fires iff more than 2000 ms have passed since the last spawn and the draw is below 0.02; the draw is taken only once the cooldown has passed, otherwise the stream is untouched |
| `Animator.Frame` | static/src/page/Home.tsx:119-289 | stars keep everything but brightness; on a spawn the new star (brightness 1, empty trail) is appended after the in-order survivors and the clock is set to the frame time; otherwise the survivors are the list and the clock is kept; at most one star is added; the stars are exactly the twinkled stars; the spawned star is `createShootingStar` on the current viewport from the draws after the gate, and the draw stream after the frame is the one that call leaves, or the one the gate leaves when nothing spawns |
| `Animator.FrameKeepsInvariant` | static/src/page/Home.tsx:133-289 | a frame keeps every star valid and every shooting star live |
| `Animator.ResizeKeepsInvariant` | static/src/page/Home.tsx:296-307 | a resize keeps the scene invariant |
| `Animator.CooldownIsStrict` | static/src/page/Home.tsx:286 | a frame exactly 2000 ms after the last spawn never spawns |
| `Animator.ResizeToZero` | static/src/page/Home.tsx:306 | resizing to 0×0 still gives 120 stars, all at the origin |
| `Animator.RunAppend` | static/src/page/Home.tsx:119-291 | running frames `xs` then frames `ys` is running `xs + ys`: the scene and draw stream pass through every frame and the spawn log of the whole run is the two logs concatenated, so no frame and no spawn is skipped |
| `Animator.RunOne` | static/src/page/Home.tsx:119-291 | a run of one frame is exactly `Frame`: the scene and the draw stream it leaves, with the frame time logged iff that frame spawns; with `Animator.RunAppend` every run is its frames applied in turn |
| `Animator.Run` | static/src/page/Home.tsx:286-291 | over any sequence of frame times, consecutive spawns are more than 2000 ms apart, there are at most as many spawns as frames, the clock holds the last spawn time, and the scene invariant is kept; the log is tied to the frames: every logged time is a frame time, a firing first frame is logged first, and when the first frame does not fire every logged time comes from a later frame |

## Left out

- Canvas painting is not modelled: the black fill, the radial gradients, the glow crosses, and the trail strokes and glows with their per-segment alpha and width (Home.tsx:129-130, 139-184, 211-272). It is output only, through a browser API.
- `requestAnimationFrame`, `cancelAnimationFrame`, `useEffect`, the resize listener and React state are not modelled. They are host scheduling. A frame is modelled as one call of `Frame`, and a resize as `Resize`.
- The early return when the canvas or its 2D context is missing (Home.tsx:120-124) is not modelled. It returns before the `requestAnimationFrame` call at line 291, so no further frame is scheduled and the animation stops until a change of dimensions restarts it. No state is changed.
- The rule that animation starts only for a non-zero size (Home.tsx:322) is not modelled. It belongs to the effect wiring.
- IEEE floating point is not modelled; all arithmetic is over reals. In doubles, repeated `-= 0.01` from 1 does not reach exactly 0: after 99 frames it is still slightly above 0, and after 100 frames slightly below it. So the statement of `ShootingStars.Lifetime` (not faded before frame 100, faded by frame 100) also describes doubles, but the exact brightness values of `ShootingStars.StepsDrift` do not.
- `Math.sin`, `Math.cos` and `Math.PI` are parameters bounded as described above. The model does not state that a top-edge star points downwards, since that needs facts about sine.
- The glowing-star fraction of about 10% is a statistical property. The model states the exact rule instead: glowing iff the draw < 0.1.
- static/src/components/Earth.tsx, the other page and app views, the API types, the webpack configuration and all Java files are not part of this model. They are library wiring with no logic of their own.
