/**
 The six-scene "FinalDemo" composition (registered as 2000 frames): its
 Sequence schedule, its inline tip table, the TipCard hidden state, and the
 offset into the duck video during the feature showcase.
 */
module FinalComposition {
  import opened Wrappers
  import opened Timeline
  import opened Tips
  import EnhancedComposition

  /** `<Sequence from durationInFrames>` of the six scenes, in order. */
  const Scenes: seq<Window> := [
    Window(0, 180), Window(180, 240), Window(420, 300),
    Window(720, 180), Window(900, 900), Window(1800, 200)
  ]

  /** Registered `durationInFrames`. */
  const Duration := 2000

  /** Index of the feature-showcase scene (scene 5). */
  const ShowcaseScene := 4

  /** The composition's own copy of the tip table. */
  const InlineTips: seq<Tip> := [
    Tip("code-review", "Instant Code Review", Window(900, 180)),
    Tip("debugging-help", "Smart Debugging", Window(1080, 180)),
    Tip("optimization", "Performance Optimization", Window(1260, 210))
  ]

  /** The scenes lie end to end over the whole registered length. */
  lemma ScenesTile()
    ensures Tiles(Scenes, 0, Duration)
  {
  }

  /** Exactly one scene is mounted at every frame of the composition. */
  lemma OneSceneAtATime(frame: int)
    requires 0 <= frame < Duration
    ensures FirstContaining(Scenes, frame).Some?
    ensures forall j :: 0 <= j < |Scenes| && SequenceActive(Scenes[j], frame) ==> j == FirstContaining(Scenes, frame).value
  {
  }

  /** Both compositions carry the same tip table and the same scene schedule. */
  lemma SameTablesAsEnhanced()
    ensures InlineTips == EnhancedComposition.InlineTips
    ensures forall i :: 0 <= i < |InlineTips| ==>
              InlineTips[i].id == EnhancedComposition.InlineTips[i].id && InlineTips[i].timing == EnhancedComposition.InlineTips[i].timing
    ensures Scenes == EnhancedComposition.Scenes
  {
  }

  /**
   The same first-match selection over the global frame: the current tip is
   the unique tip whose timing holds the frame, and there is one exactly for
   frames in `[900, 1470)`.
   */
  lemma TipSelection(frame: int)
    ensures CurrentTip(InlineTips, frame).Some? <==> 900 <= frame < 1470
    ensures forall i :: 0 <= i < |InlineTips| && InlineTips[i].timing.Contains(frame) ==> CurrentTip(InlineTips, frame) == Some(InlineTips[i])
  {
    SameTablesAsEnhanced();
    EnhancedComposition.InlineTipsTile();
    TilesCover(Timings(InlineTips), 900, 1470, frame);
    TilesDisjoint(Timings(InlineTips), 900, 1470, frame);
  }

  /**
   A visible card takes its opacity and offset from the library's spring
   (passed in as `spring`); a hidden card has opacity 0 and translateY 50.
   */
  function TipCardStyle(visible: bool, spring: CardStyle): (s: CardStyle)
    ensures visible ==> s == spring
    ensures !visible ==> s.opacity == 0.0 && s.translateY == 50.0
  {
    if visible then spring else CardStyle(0.0, 50.0)
  }

  /** Every card whose tip does not hold the frame sits hidden at opacity 0, shifted down 50. */
  lemma HiddenCardsAtRest(frame: int, i: nat, spring: CardStyle)
    requires i < |InlineTips|
    requires !InlineTips[i].timing.Contains(frame)
    ensures TipCardStyle(Visible(InlineTips, frame, InlineTips[i]), spring) == CardStyle(0.0, 50.0)
  {
  }

  /** `startFrom={frame - 900}` of the showcase video, on the global frame. */
  function VideoStartFrom(frame: int): (t: int)
    ensures 0 <= t < 900 <==> 900 <= frame < 1800
    ensures t < 0 <==> frame < 900
  {
    frame - 900
  }

  /**
   While the showcase scene is mounted, the video offset is that scene's
   local frame, so it stays in `[0, 900)`.
   */
  lemma VideoStartFromInShowcase(frame: int)
    requires SequenceActive(Scenes[ShowcaseScene], frame)
    ensures VideoStartFrom(frame) == Scenes[ShowcaseScene].Local(frame)
    ensures 0 <= VideoStartFrom(frame) < 900
  {
  }
}
