/**
 The tip table and the scene table of the video script: six tips laid end to
 end from frame 900 to frame 1980, and five scenes tiling the whole
 2000-frame video.
 */
module ClaudeCodeTips {
  import opened Wrappers
  import opened Timeline
  import opened Tips

  const ScriptTips: seq<Tip> := [
    Tip("code-review", "Instant Code Review", Window(900, 180)),
    Tip("debugging-help", "Smart Debugging", Window(1080, 180)),
    Tip("optimization", "Performance Optimization", Window(1260, 210)),
    Tip("test-generation", "Auto-Generate Tests", Window(1470, 180)),
    Tip("refactoring", "Smart Refactoring", Window(1650, 180)),
    Tip("documentation", "Auto Documentation", Window(1830, 150))
  ]

  /** Frames covered by the tips: `[900, 1980)`. */
  const TipsStart := 900
  const TipsEnd := 1980

  /** `videoScript.totalDuration`. */
  const TotalDuration := 2000

  datatype ScriptScene = ScriptScene(name: string, frames: Span)

  const VideoScenes: seq<ScriptScene> := [
    ScriptScene("Introduction", Span(0, 180)),
    ScriptScene("The Problem", Span(180, 420)),
    ScriptScene("Claude Code Arrives", Span(420, 720)),
    ScriptScene("Feature Showcase", Span(720, 1800)),
    ScriptScene("Conclusion", Span(1800, 2000))
  ]

  function SceneSpans(scenes: seq<ScriptScene>): (spans: seq<Span>)
    ensures |spans| == |scenes|
    ensures forall i :: 0 <= i < |scenes| ==> spans[i] == scenes[i].frames
  {
    seq(|scenes|, i requires 0 <= i < |scenes| => scenes[i].frames)
  }

  /** Tip ids are pairwise distinct. */
  lemma ScriptTipIdsDistinct()
    ensures DistinctIds(ScriptTips)
  {
  }

  /** The timings column of the tip table. */
  lemma ScriptTipTimings()
    ensures Timings(ScriptTips) == [Window(900, 180), Window(1080, 180), Window(1260, 210),
                                    Window(1470, 180), Window(1650, 180), Window(1830, 150)]
  {
  }

  /**
   Each tip starts where the previous one ends, every duration is positive,
   and together the tips cover exactly `[900, 1980)`, inside the video.
   */
  lemma ScriptTipsTile()
    ensures Tiles(Timings(ScriptTips), TipsStart, TipsEnd)
    ensures 0 <= TipsStart && TipsEnd <= TotalDuration
  {
    ScriptTipTimings();
    var ws := Timings(ScriptTips);
    assert ws[6..] == [];
    TilesStep(ws, 5, TipsEnd);
    TilesStep(ws, 4, TipsEnd);
    TilesStep(ws, 3, TipsEnd);
    TilesStep(ws, 2, TipsEnd);
    TilesStep(ws, 1, TipsEnd);
    TilesStep(ws, 0, TipsEnd);
    assert ws[0..] == ws;
  }

  /** Each tip starts where the previous one ends, and tips are sorted by start. */
  lemma ScriptTipsContiguous()
    ensures forall i, j :: 0 <= i < |ScriptTips| && 0 <= j < |ScriptTips| && j == i + 1 ==> ScriptTips[i].timing.End() == ScriptTips[j].timing.start
    ensures forall i, j :: 0 <= i < j < |ScriptTips| ==> ScriptTips[i].timing.start < ScriptTips[j].timing.start
  {
  }

  /**
   First-match selection over the script tips finds a tip for every frame of
   `[900, 1980)`, and none outside; the tip found is the only one containing
   the frame.
   */
  lemma ScriptTipSelection(frame: int)
    ensures CurrentTip(ScriptTips, frame).Some? <==> TipsStart <= frame < TipsEnd
    ensures forall i :: 0 <= i < |ScriptTips| && ScriptTips[i].timing.Contains(frame) ==> CurrentTip(ScriptTips, frame) == Some(ScriptTips[i])
  {
    ScriptTipsTile();
    TilesCover(Timings(ScriptTips), TipsStart, TipsEnd, frame);
    TilesDisjoint(Timings(ScriptTips), TipsStart, TipsEnd, frame);
  }

  /** The script scenes as `{from, durationInFrames}` windows. */
  lemma VideoSceneWindows()
    ensures ToWindows(SceneSpans(VideoScenes)) == [Window(0, 180), Window(180, 240), Window(420, 300), Window(720, 1080), Window(1800, 200)]
  {
  }

  /** The scene windows lie end to end over `[0, totalDuration)`. */
  lemma VideoSceneWindowsTile()
    ensures Tiles(ToWindows(SceneSpans(VideoScenes)), 0, TotalDuration)
  {
    var ws := [Window(0, 180), Window(180, 240), Window(420, 300), Window(720, 1080), Window(1800, 200)];
    assert ws[5..] == [];
    TilesStep(ws, 4, TotalDuration);
    TilesStep(ws, 3, TotalDuration);
    TilesStep(ws, 2, TotalDuration);
    TilesStep(ws, 1, TotalDuration);
    TilesStep(ws, 0, TotalDuration);
    assert ws[0..] == ws;
    VideoSceneWindows();
  }

  /**
   The scenes tile the video: the first starts at 0, each ends where the
   next starts, the last ends at `totalDuration`, and each has start < end.
   */
  lemma VideoScenesChained()
    ensures Chained(SceneSpans(VideoScenes), 0, TotalDuration)
  {
  }

  /** Exactly one script scene holds each frame of the video. */
  lemma VideoSceneAtEveryFrame(frame: int)
    requires 0 <= frame < TotalDuration
    ensures FirstContaining(ToWindows(SceneSpans(VideoScenes)), frame).Some?
    ensures forall j :: 0 <= j < |VideoScenes| && ToWindows(SceneSpans(VideoScenes))[j].Contains(frame)
              ==> j == FirstContaining(ToWindows(SceneSpans(VideoScenes)), frame).value
  {
    VideoSceneWindowsTile();
    TilesSelectExactlyOne(ToWindows(SceneSpans(VideoScenes)), 0, TotalDuration, frame);
  }
}
