# Debugging Duck video: frame scheduling model

The repository renders a promotional video frame by frame. Its own logic is a
thin layer of integer-frame scheduling at the call sites of an animation
library: which tip card is current at a frame, how the scenes of each
composition are placed on the timeline, how the editor mock-up reveals its
button, cursor and advice lines, and how the programmer character's mood sets
its face. Every one of these is a pure function of an integer frame and
fixed configuration, and that is what this Dafny project models and proves
things about. Two of the modelled values are computed by the source but
never read: the typed prefix `displayedCode` (the editor draws fixed markup)
and the scene counter `currentScene` of the four-scene composition. Their
arithmetic is modelled because it is there, not because it reaches the
screen.

The library itself is not modelled. Its behaviour at the call sites is stated
as assumptions:

- `Timeline`: a `<Sequence from durationInFrames>` is a half-open window
  `[from, from + duration)`. Its children see `local = frame - from`, and it is
  mounted iff `0 <= local < duration`.
- `Interpolation`: two-point `interpolate` with linear easing is the straight
  line through the two breakpoints, in exact rationals (`real`). Each side is
  either clamped or extended, and extension is the library's default.

Modules follow the source files:

- `Timeline`: windows and the Sequence rule. It also holds first-match
  selection (`Array.prototype.find` over timings), tiling of a span by
  windows laid end to end, and `{start, end}` spans.
- `Interpolation`: the assumed `interpolate`, `Clamp01`, and the clamp,
  range and monotonicity lemmas.
- `Tips`: the `Tip` record, `getCurrentTip`, and the `visible` flag of each
  TipCard.
- `ClaudeCodeTips`: the six-tip table, the `videoScript` scene table and
  `totalDuration`.
- `MyComposition`, `EnhancedComposition`, `FinalComposition`: the three
  compositions' scene schedules, inline tip tables, card styles and offsets.
- `CodingEnvironment`: typing progress, the displayed prefix, the button
  threshold, cursor blink and the staggered advice panel.
- `Programmer`: the mood table, mouth shape and eye height.

Scope of the arithmetic:

- Only flat Sequences are placed. Nesting, spring solving and configuration
  validation are library code or absent, so they are not modelled.
- Frames are `int`, not only non-negative. `CodingEnvironment` keeps the
  source's behaviour for negative frames: left extrapolation, a JavaScript
  `slice` with a negative end, and a truncating `%`.
- The properties about typing and the cursor are stated for the frames
  0 and up that a mounted component sees.
- Text lengths count characters. JavaScript's `length` and `slice` count
  UTF-16 code units; the two agree for the ASCII snippet the component
  types, but not for text outside the Basic Multilingual Plane.

## Model

| member | source | states |
|---|---|---|
| Timeline.SequenceActive | remotion-project/src/Composition.tsx:16-110 | A Sequence is mounted exactly when its window holds the global frame, and its children then see a local frame in `[0, duration)` (assumed library rule) |
| Timeline.FirstContaining | remotion-project/src/EnhancedComposition.tsx:200-205 | The scan returns a window that holds the frame and no earlier window holds it; it returns none exactly when no window holds the frame |
| Timeline.TilesOrdered | scripts/claude_code_tips.ts:37-161 | Windows laid end to end from `lo` to `hi` stay inside `[lo, hi)`, have positive durations, and are sorted with no overlap |
| Timeline.TilesAdjacent | scripts/claude_code_tips.ts:37-161 | In such a tiling each window starts exactly where the previous one ends |
| Timeline.TilesCover | remotion-project/src/EnhancedComposition.tsx:200-205 | Over a tiling of `[lo, hi)`, first-match selection finds a window exactly for the frames in `[lo, hi)` |
| Timeline.TilesDisjoint | remotion-project/src/Composition.tsx:16-110 | No frame lies in two windows of a tiling |
| Timeline.TilesSelectExactlyOne | remotion-project/src/Composition.tsx:16-110 | Each frame of a tiled span lies in exactly one window, and that window is the one the scan returns |
| Timeline.ChainedIffTiles | scripts/claude_code_tips.ts:186-221 | The `{start, end}` reading (first start at `lo`, each end is the next start, last end at `hi`, each start < end) holds iff the windows tile `[lo, hi)` |
| Interpolation.Interpolate | remotion-project/src/CodingEnvironment.tsx:16-24 | The assumed curve passes through both breakpoints; a clamped side holds the end value beyond its breakpoint |
| Interpolation.Clamp01 | remotion-project/src/CodingEnvironment.tsx:231-239 | The result is in `[0, 1]`, equals the input inside that range, and saturates at 0 below it and at 1 above it |
| Interpolation.ClampedUnitIsClamp01 | remotion-project/src/CodingEnvironment.tsx:231-239 | A 0-to-1 curve clamped on both sides is `clamp01((x - x0) / (x1 - x0))` |
| Interpolation.InterpolateMonotone | remotion-project/src/CodingEnvironment.tsx:16-24 | A rising curve never falls, under either extrapolation policy on either side |
| Interpolation.ClampedStaysInRange | remotion-project/src/CodingEnvironment.tsx:231-239 | With both sides clamped, the value never leaves the range between the end values |
| Tips.Visible | remotion-project/src/EnhancedComposition.tsx:437 | A card is visible only if some tip with its id holds the frame, and no card is visible when no tip holds it |
| Tips.CurrentTip | remotion-project/src/EnhancedComposition.tsx:200-205 | The result is the first tip in list order whose `[start, start + duration)` holds the frame; it is none exactly when no tip holds it |
| Tips.AtMostOneVisible | remotion-project/src/EnhancedComposition.tsx:433-439 | With distinct ids, two cards marked visible at one frame are the same card |
| Tips.VisibleIsFirstMatch | remotion-project/src/FinalComposition.tsx:383-389 | With distinct ids, a card is visible exactly when its tip is the first match for the frame |
| Tips.VisibleIffContains | remotion-project/src/EnhancedComposition.tsx:433-439 | With distinct ids and timings that tile a span, a card is visible exactly while its own timing holds the frame |
| ClaudeCodeTips.ScriptTipIdsDistinct | scripts/claude_code_tips.ts:15-163 | The six tip ids are pairwise distinct |
| ClaudeCodeTips.ScriptTipsTile | scripts/claude_code_tips.ts:37-184 | The tips lie end to end with positive durations over `[900, 1980)`, which is inside `[0, totalDuration)` |
| ClaudeCodeTips.ScriptTipsContiguous | scripts/claude_code_tips.ts:37-161 | Each tip starts where the previous one ends, and the tips are sorted by start |
| ClaudeCodeTips.ScriptTipSelection | scripts/claude_code_tips.ts:15-163 | First-match selection finds a tip exactly for frames in `[900, 1980)`, and it finds the only tip holding the frame |
| ClaudeCodeTips.VideoSceneWindowsTile | scripts/claude_code_tips.ts:183-221 | The script scenes, as windows, tile `[0, totalDuration)` |
| ClaudeCodeTips.VideoScenesChained | scripts/claude_code_tips.ts:186-221 | The first scene starts at 0, each `end` is the next `start`, the last ends at 2000, and every scene has `start < end` |
| ClaudeCodeTips.VideoSceneAtEveryFrame | scripts/claude_code_tips.ts:183-221 | Each frame of the video lies in exactly one script scene |
| MyComposition.ScenesTile | remotion-project/src/Composition.tsx:16-110 | The four Sequences lie end to end over the registered 900 frames |
| MyComposition.SceneProgress | remotion-project/src/Composition.tsx:10 | The progress is in `[0, 4)` inside the composition, at least 4 from frame 900 on, and negative before frame 0 |
| MyComposition.CurrentScene | remotion-project/src/Composition.tsx:11 | The counter is 0 to 3 inside the composition, at least 4 after it, and negative before it |
| MyComposition.OneSceneAtATime | remotion-project/src/Composition.tsx:16-146 | At each frame of `[0, 900)` exactly one scene is mounted, and its local frame is in `[0, duration)` |
| MyComposition.CurrentSceneIsQuarter | remotion-project/src/Composition.tsx:10-11 | The progress is `4 * frame / 900` unclamped, and the scene counter is its integer floor at every frame |
| MyComposition.CurrentSceneSteps | remotion-project/src/Composition.tsx:10-11 | Within the composition the counter is 0, 1, 2 or 3, switching at frames 225, 450 and 675 |
| MyComposition.CurrentSceneMonotone | remotion-project/src/Composition.tsx:10-11 | The counter never decreases as the frame grows |
| MyComposition.CurrentSceneChangesAt | remotion-project/src/Composition.tsx:10-11 | Inside the composition the counter differs from the previous frame's iff the frame is 225, 450 or 675 |
| EnhancedComposition.ScenesTile | remotion-project/src/EnhancedComposition.tsx:212-446 | The six Sequences lie end to end over the registered 2000 frames |
| EnhancedComposition.OneSceneAtATime | remotion-project/src/EnhancedComposition.tsx:212-484 | Exactly one scene is mounted at each frame of `[0, 2000)` |
| EnhancedComposition.InlineTipsMatchScript | remotion-project/src/EnhancedComposition.tsx:15-37 | The inline tip table equals the first three tips of the script: ids, titles and timings |
| EnhancedComposition.InlineTipIdsDistinct | remotion-project/src/EnhancedComposition.tsx:17-31 | The three inline ids are distinct |
| EnhancedComposition.InlineTipsTile | remotion-project/src/EnhancedComposition.tsx:21-35 | The inline timings lie end to end over `[900, 1470)` |
| EnhancedComposition.TipCardStyle | remotion-project/src/EnhancedComposition.tsx:127-128 | Opacity is 1 and translateY is 0 exactly when the card is visible; a hidden card has opacity 0 and translateY 20 |
| EnhancedComposition.TipSelectionBoundaries | remotion-project/src/EnhancedComposition.tsx:200-207 | A tip is current exactly for frames in `[900, 1470)`; frame 1079 selects `code-review` and frame 1080 selects `debugging-help` |
| EnhancedComposition.IntroDuckOffset | remotion-project/src/EnhancedComposition.tsx:237 | The offset is at least 200 up to frame 60, between 0 and 200 over `[60, 120]`, and at most 0 from frame 120 |
| EnhancedComposition.TipCardShownIffCurrent | remotion-project/src/EnhancedComposition.tsx:124-128 | A card has opacity 1 and translateY 0 exactly while its tip holds the frame, and opacity 0 and translateY 20 otherwise; at most one card is opaque |
| EnhancedComposition.IntroDuckOffsetLine | remotion-project/src/EnhancedComposition.tsx:237 | The duck offset is the unclamped line through (60, 200) and (120, 0): 400 at frame 0 and negative after 120 |
| EnhancedComposition.IntroDuckOffsetDecreasing | remotion-project/src/EnhancedComposition.tsx:237 | The duck offset strictly decreases from frame to frame |
| FinalComposition.ScenesTile | remotion-project/src/FinalComposition.tsx:142-395 | The six Sequences lie end to end over the registered 2000 frames |
| FinalComposition.OneSceneAtATime | remotion-project/src/FinalComposition.tsx:142-460 | Exactly one scene is mounted at each frame of `[0, 2000)` |
| FinalComposition.SameTablesAsEnhanced | remotion-project/src/FinalComposition.tsx:15-37 | The tip ids and timings, and the scene schedule, are identical to the other six-scene composition's |
| FinalComposition.TipCardStyle | remotion-project/src/FinalComposition.tsx:43-57 | A visible card takes the spring values; a hidden card has opacity 0 and translateY 50 |
| FinalComposition.TipSelection | remotion-project/src/FinalComposition.tsx:129-136 | The same first-match rule on the global frame: a tip is current exactly for frames in `[900, 1470)`, and it is the only tip holding the frame |
| FinalComposition.VideoStartFrom | remotion-project/src/FinalComposition.tsx:358 | The offset lies in `[0, 900)` exactly for global frames in `[900, 1800)`, and is negative exactly before frame 900 |
| FinalComposition.HiddenCardsAtRest | remotion-project/src/FinalComposition.tsx:43-57 | Every card whose tip does not hold the frame has opacity exactly 0 and translateY exactly 50 |
| FinalComposition.VideoStartFromInShowcase | remotion-project/src/FinalComposition.tsx:322-358 | While scene 5 is mounted, the video's `startFrom` equals that scene's local frame and lies in `[0, 900)` |
| CodingEnvironment.CodeProgress | remotion-project/src/CodingEnvironment.tsx:16-24 | For frames 0 and up the progress is in `[0, 1]`, and it is exactly 1 from frame 180 on |
| CodingEnvironment.CodeProgressIsMinRatio | remotion-project/src/CodingEnvironment.tsx:16-24 | For frames 0 and up the progress is `min(frame, 180) / 180` |
| CodingEnvironment.TypedEnd | remotion-project/src/CodingEnvironment.tsx:42 | For frames 0 and up the end is in `[0, len]`; it is 0 at frame 0 and `len` from frame 180 on |
| CodingEnvironment.SliceEnd | remotion-project/src/CodingEnvironment.tsx:42 | JavaScript `slice(0, end)` stops at `min(end, len)`, and a negative end counts back from the end of the string |
| CodingEnvironment.DisplayedCode | remotion-project/src/CodingEnvironment.tsx:42 | The displayed code is always a prefix of the full code |
| CodingEnvironment.DisplayedLength | remotion-project/src/CodingEnvironment.tsx:42 | For frames 0 and up, the displayed length is `floor(len * min(frame, 180) / 180)` |
| CodingEnvironment.DisplayedCodeEnds | remotion-project/src/CodingEnvironment.tsx:42 | The value is empty at frame 0 and equals the whole text from frame 180 on |
| CodingEnvironment.DisplayedCodeGrows | remotion-project/src/CodingEnvironment.tsx:42 | The value at a later frame extends the value at an earlier one, so its length never decreases |
| CodingEnvironment.ButtonShown | remotion-project/src/CodingEnvironment.tsx:147 | The button lines are not drawn at frame 0 or before, and are drawn from frame 180 on |
| CodingEnvironment.ButtonShownIff | remotion-project/src/CodingEnvironment.tsx:147 | In exact arithmetic, `codeProgress > 0.7` holds exactly for frames 127 and later |
| CodingEnvironment.JsRemainder | remotion-project/src/CodingEnvironment.tsx:176 | The remainder is `a - b * trunc(a / b)`: it has the dividend's sign and magnitude below the divisor, and agrees with the mathematical remainder for non-negative dividends |
| CodingEnvironment.CursorShown | remotion-project/src/CodingEnvironment.tsx:176 | The cursor is drawn at every frame before 30, negative frames included because the JavaScript remainder is then at most 0, and not on frames 30 to 59 |
| CodingEnvironment.CursorPeriodic | remotion-project/src/CodingEnvironment.tsx:176 | From frame 0 on, the cursor pattern repeats every 60 frames |
| CodingEnvironment.CursorHalfTheTime | remotion-project/src/CodingEnvironment.tsx:176 | From frame 0 on, the cursor is drawn on exactly 30 of any 60 consecutive frames |
| CodingEnvironment.ShouldShow | remotion-project/src/CodingEnvironment.tsx:231-239 | Each advice fade value is in `[0, 1]` |
| CodingEnvironment.ShouldShowIsClamp01 | remotion-project/src/CodingEnvironment.tsx:231-239 | Advice `i` fades as `clamp01((frame - 60 - 30i) / 30)`: 0 up to frame `60 + 30i`, and 1 from frame `90 + 30i` |
| CodingEnvironment.AdviceRendered | remotion-project/src/CodingEnvironment.tsx:241 | No advice is rendered at frame 60 or before, and advice `i` is rendered from frame `90 + 30i` on |
| CodingEnvironment.AdviceRenderedIff | remotion-project/src/CodingEnvironment.tsx:241 | Advice `i` is rendered iff the frame is greater than `60 + 30i` |
| CodingEnvironment.AdviceRenderedPrefix | remotion-project/src/CodingEnvironment.tsx:233-241 | If advice `i` is rendered, so is every earlier advice |
| CodingEnvironment.AllAdviceAfter150 | remotion-project/src/CodingEnvironment.tsx:233-241 | After frame 150 all four advice lines are rendered |
| CodingEnvironment.AdviceOffset | remotion-project/src/CodingEnvironment.tsx:247 | The slide offset `(1 - shouldShow) * 20` is in `[0, 20]`, and 0 once the advice is fully shown |
| CodingEnvironment.RenderAdvicePanel | remotion-project/src/CodingEnvironment.tsx:190-257 | With the panel off nothing is rendered. With it on, exactly the advice with `shouldShow > 0` is rendered, in list order, and it is always the first k items with their fade and offset |
| Programmer.MoodExpression | remotion-project/src/Programmer.tsx:27-38 | Eye scale is in `[0.7, 1.2]` and mouth curve in `[-5, 20]`; the curve is positive for every mood except `confused` |
| Programmer.DefaultMoodIsNeutral | remotion-project/src/Programmer.tsx:8-38 | The default mood `focused` is none of the named cases, so it takes the default branch (1, 5) |
| Programmer.MouthFor | remotion-project/src/Programmer.tsx:120-124 | The mouth has exactly one of its top and bottom borders |
| Programmer.OnlyConfusedFrowns | remotion-project/src/Programmer.tsx:120-124 | Only `confused` gives the frown (height 6, top border); every other mood gives the smile (height 8, bottom border) |
| Programmer.BlinkFactor | remotion-project/src/Programmer.tsx:25 | The blink factor is only ever 0.1 or 1 |
| Programmer.EyesFor | remotion-project/src/Programmer.tsx:81-92 | Both eyes have the same height, which is positive and at most 14.4 |
| Programmer.TallestEyes | remotion-project/src/Programmer.tsx:81 | In exact arithmetic, the eye height is 14.4 exactly for `excited` with the eyes open |
| Programmer.BlinkShrinksEyes | remotion-project/src/Programmer.tsx:81 | For every mood, blinking eyes are shorter than open ones |

## Left out

- The animation library (`interpolate`, `spring`, `Sequence`, `useCurrentFrame`, `useVideoConfig`) is foreign code. Its call-site behaviour is assumed as stated above, and nested Sequences are not modelled.
- Interpolation.Interpolate: only two breakpoints and linear easing are modelled, since every call site modelled here uses exactly that.
- FinalComposition.HiddenCardsAtRest: a visible card's opacity and translateY come from the library's spring curve. They enter as a parameter, and nothing is claimed about them. That includes the spring's frame argument `frame - tip.timing.start` (remotion-project/src/FinalComposition.tsx:44), which mixes a Sequence-local frame with a global start.
- The breathing spring of the programmer (remotion-project/src/Programmer.tsx:13-22) is spring physics and is left out.
- The duck's bob (remotion-project/src/EnhancedComposition.tsx:44) is floating-point trigonometry and is left out. So is the blink test `Math.sin(frame * 0.1) < -0.9` (remotion-project/src/Programmer.tsx:25); blinking is a boolean input instead.
- Floating-point rounding is not modelled. Values are exact rationals, so a threshold such as `126/180 > 0.7` is decided exactly. Double rounding could move a boundary frame.
- The code text, tip texts, advice texts and scene narration are content. The typed code is a parameter of `DisplayedCode`, and its properties hold for any sequence of characters; they match the JavaScript string only where characters and UTF-16 code units coincide, as they do for the ASCII snippet of remotion-project/src/CodingEnvironment.tsx:26-41.
- CodingEnvironment.ButtonShown: the enclosing `showCode &&` (remotion-project/src/CodingEnvironment.tsx:114) is not modelled, because every use of the component passes `showCode={true}`.
- CodingEnvironment.DisplayedCode and MyComposition.CurrentScene: both values are computed by the source and never rendered or read, so nothing about the screen follows from them.
- Markup, styles, colours and the asset loading done by `Video`, `Img` and `staticFile` are left out. This includes the fixed `startFrom`/`endAt` of the other videos and `fps`.
- The DuckCharacter `mood` prop is accepted but never used, so it has nothing to model.
- remotion-project/manim-animations/debugging_duck.py is Manim scene scripting of library calls and float geometry, so it is not part of this model.
- remotion-project/src/Root.tsx only registers the compositions. Its durations (900, 2000, 2000) appear as each composition's `Duration`.
