/**
 The six-scene "Debugging Duck Demo" composition (registered as 2000
 frames): its Sequence schedule, its inline copy of the first three tips,
 the TipCard shown/hidden styles, and the intro duck's slide-in offset.
 */
module EnhancedComposition {
  import opened Wrappers
  import opened Timeline
  import opened Interpolation
  import opened Tips
  import ClaudeCodeTips

  /** `<Sequence from durationInFrames>` of the six scenes, in order. */
  const Scenes: seq<Window> := [
    Window(0, 180), Window(180, 240), Window(420, 300),
    Window(720, 180), Window(900, 900), Window(1800, 200)
  ]

  /** Registered `durationInFrames`. */
  const Duration := 2000

  /** The composition's own copy of the tip table. */
  const InlineTips: seq<Tip> := [
    Tip("code-review", "Instant Code Review", Window(900, 180)),
    Tip("debugging-help", "Smart Debugging", Window(1080, 180)),
    Tip("optimization", "Performance Optimization", Window(1260, 210))
  ]

  /** The scenes lie end to end over the whole registered length. */
  lemma ScenesTile()
    ensures Tiles(Scenes, 0, Duration)
  {
  }

  /** Exactly one scene is mounted at every frame of the composition. */
  lemma OneSceneAtATime(frame: int)
    requires 0 <= frame < Duration
    ensures FirstContaining(Scenes, frame).Some?
    ensures forall j :: 0 <= j < |Scenes| && SequenceActive(Scenes[j], frame) ==> j == FirstContaining(Scenes, frame).value
  {
  }

  /** On the fields modelled (id, title, timing) the inline table is the first three tips of the script. */
  lemma InlineTipsMatchScript()
    ensures InlineTips == ClaudeCodeTips.ScriptTips[..3]
    ensures forall i :: 0 <= i < |InlineTips| ==>
              InlineTips[i].id == ClaudeCodeTips.ScriptTips[i].id && InlineTips[i].timing == ClaudeCodeTips.ScriptTips[i].timing
  {
  }

  lemma InlineTipIdsDistinct()
    ensures DistinctIds(InlineTips)
  {
  }

  /** The inline tips lie end to end over `[900, 1470)`. */
  lemma InlineTipsTile()
    ensures Tiles(Timings(InlineTips), 900, 1470)
  {
    var ws := [Window(900, 180), Window(1080, 180), Window(1260, 210)];
    assert Timings(InlineTips) == ws;
    assert ws[3..] == [];
    TilesStep(ws, 2, 1470);
    TilesStep(ws, 1, 1470);
    TilesStep(ws, 0, 1470);
    assert ws[0..] == ws;
  }

  /**
   A tip is current exactly for frames in `[900, 1470)`; the end of each
   timing is exclusive, so frame 1079 still shows `code-review` and frame
   1080 already shows `debugging-help`.
   */
  lemma TipSelectionBoundaries(frame: int)
    ensures CurrentTip(InlineTips, frame).Some? <==> 900 <= frame < 1470
    ensures CurrentTip(InlineTips, 1079) == Some(InlineTips[0]) && InlineTips[0].id == "code-review"
    ensures CurrentTip(InlineTips, 1080) == Some(InlineTips[1]) && InlineTips[1].id == "debugging-help"
  {
  }

  /** `opacity = visible ? 1 : 0`, `translateY = visible ? 0 : 20`. */
  function TipCardStyle(visible: bool): (s: CardStyle)
    ensures s.opacity == 1.0 <==> visible
    ensures s.translateY == 0.0 <==> visible
    ensures !visible ==> s.opacity == 0.0 && s.translateY == 20.0
    ensures 0.0 <= s.opacity <= 1.0 && 0.0 <= s.translateY <= 20.0
  {
    if visible then CardStyle(1.0, 0.0) else CardStyle(0.0, 20.0)
  }

  /**
   The card of tip `i` is opaque and in place exactly while that tip's own
   timing contains the frame, and transparent and shifted down 20 otherwise;
   so at most one card is showing at any frame.
   */
  lemma TipCardShownIffCurrent(frame: int, i: nat)
    requires i < |InlineTips|
    ensures var s := TipCardStyle(Visible(InlineTips, frame, InlineTips[i]));
            if InlineTips[i].timing.Contains(frame) then s == CardStyle(1.0, 0.0) else s == CardStyle(0.0, 20.0)
    ensures forall j :: (0 <= j < |InlineTips| && TipCardStyle(Visible(InlineTips, frame, InlineTips[j])).opacity == 1.0
                         && TipCardStyle(Visible(InlineTips, frame, InlineTips[i])).opacity == 1.0) ==> i == j
  {
  }

  /** The intro duck's `translateX`: `interpolate(frame, [60, 120], [200, 0])`, extended on both sides. */
  function IntroDuckOffset(frame: int): (x: real)
    ensures frame <= 60 ==> x >= 200.0
    ensures 60 <= frame <= 120 ==> 0.0 <= x <= 200.0
    ensures frame >= 120 ==> x <= 0.0
  {
    Interpolate(frame as real, 60.0, 120.0, 200.0, 0.0, Extend, Extend)
  }

  /**
   The offset is the line through (60, 200) and (120, 0) at every frame, not
   only between them: it is 400 at frame 0 and negative after frame 120.
   */
  lemma IntroDuckOffsetLine(frame: int)
    ensures IntroDuckOffset(frame) == 200.0 - (frame as real - 60.0) * 10.0 / 3.0
    ensures IntroDuckOffset(60) == 200.0 && IntroDuckOffset(120) == 0.0
    ensures IntroDuckOffset(0) == 400.0
    ensures frame > 120 ==> IntroDuckOffset(frame) < 0.0
  {
  }

  /** The duck moves left on every frame: the offset strictly decreases. */
  lemma IntroDuckOffsetDecreasing(frame: int, frame': int)
    requires frame < frame'
    ensures IntroDuckOffset(frame') < IntroDuckOffset(frame)
  {
  }
}
