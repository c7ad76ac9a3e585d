/**
 The first, four-scene composition (registered as 900 frames): its
 Sequence schedule and the scene counter derived from the global frame.
 */
module MyComposition {
  import opened Timeline
  import opened Interpolation

  /** `<Sequence from durationInFrames>` of the four scenes, in order. */
  const Scenes: seq<Window> := [Window(0, 180), Window(180, 240), Window(420, 300), Window(720, 180)]

  /** Registered `durationInFrames`. */
  const Duration := 900

  /** The scenes lie end to end over the whole registered length. */
  lemma ScenesTile()
    ensures Tiles(Scenes, 0, Duration)
  {
  }

  /**
   At every frame of the composition exactly one scene's Sequence is mounted,
   and its children see a local frame inside `[0, duration)`.
   */
  lemma OneSceneAtATime(frame: int)
    requires 0 <= frame < Duration
    ensures FirstContaining(Scenes, frame).Some?
    ensures var i := FirstContaining(Scenes, frame).value;
            SequenceActive(Scenes[i], frame) && 0 <= Scenes[i].Local(frame) < Scenes[i].duration
    ensures forall j :: 0 <= j < |Scenes| && SequenceActive(Scenes[j], frame) ==> j == FirstContaining(Scenes, frame).value
  {
  }

  /** `interpolate(frame, [0, 900], [0, 4])`, extended on both sides. */
  function SceneProgress(frame: int): (p: real)
    ensures 0 <= frame < Duration ==> 0.0 <= p < 4.0
    ensures frame >= Duration ==> p >= 4.0
    ensures frame < 0 ==> p < 0.0
  {
    Interpolate(frame as real, 0.0, 900.0, 0.0, 4.0, Extend, Extend)
  }

  /** `Math.floor(sceneProgress)`. */
  function CurrentScene(frame: int): (n: int)
    ensures 0 <= frame < Duration ==> 0 <= n <= 3
    ensures frame >= Duration ==> n >= 4
    ensures frame < 0 ==> n < 0
  {
    SceneProgress(frame).Floor
  }

  /** The scene counter is the integer quarter of the composition the frame falls in. */
  lemma CurrentSceneIsQuarter(frame: int)
    ensures SceneProgress(frame) == 4.0 * frame as real / 900.0
    ensures CurrentScene(frame) == (4 * frame) / 900
  {
  }

  /**
   Within the composition the counter is 0, 1, 2 or 3, stepping up exactly at
   frames 225, 450 and 675.
   */
  lemma CurrentSceneSteps(frame: int)
    requires 0 <= frame < Duration
    ensures 0 <= CurrentScene(frame) <= 3
    ensures CurrentScene(frame) == if frame < 225 then 0 else if frame < 450 then 1 else if frame < 675 then 2 else 3
  {
  }

  /** The counter never goes back. */
  lemma CurrentSceneMonotone(frame: int, frame': int)
    requires frame <= frame'
    ensures CurrentScene(frame) <= CurrentScene(frame')
  {
  }

  /** Inside the composition the counter changes between two frames only at 225, 450 and 675. */
  lemma CurrentSceneChangesAt(frame: int)
    requires 0 < frame < Duration
    ensures CurrentScene(frame) != CurrentScene(frame - 1) <==> frame == 225 || frame == 450 || frame == 675
  {
  }
}
