/**
 Frame windows and the rules that place them on a timeline.

 A `Window` is the half-open frame interval `[start, start + duration)`. It is
 both a tip's `timing` and a `<Sequence from durationInFrames>` placement. The
 Sequence rule used here (local frame = global frame - from; the sequence is
 mounted iff 0 <= local < duration) is an assumed semantics of the animation
 library, not code of this repository.
 */
module Timeline {
  import opened Wrappers

  datatype Window = Window(start: int, duration: int) {

    /** First frame after the window. */
    function End(): int { start + duration }

    /** Start inclusive, end exclusive. */
    predicate Contains(frame: int) { start <= frame < start + duration }

    /** The frame a child of a Sequence placed at `start` sees. */
    function Local(frame: int): int { frame - start }
  }

  /** Whether a Sequence placed at `w` is mounted at global frame `frame`. */
  function SequenceActive(w: Window, frame: int): (active: bool)
    ensures active <==> w.Contains(frame)
    ensures active ==> 0 <= w.Local(frame) < w.duration
  {
    0 <= w.Local(frame) < w.duration
  }

  /** Index of the first window (in list order) containing `frame`, as `find` scans. */
  function FirstContaining(ws: seq<Window>, frame: int): (r: Option<nat>)
    ensures r.Some? ==> r.value < |ws| && ws[r.value].Contains(frame)
    ensures r.Some? ==> forall j :: 0 <= j < r.value ==> !ws[j].Contains(frame)
    ensures r.None? <==> forall j :: 0 <= j < |ws| ==> !ws[j].Contains(frame)
    decreases |ws|
  {
    if |ws| == 0 then None
    else if ws[0].Contains(frame) then Some(0)
    else
      match FirstContaining(ws[1..], frame)
      case None => None
      case Some(i) => Some(i + 1)
  }

  /**
   `ws` lays windows of positive duration end to end, the first starting at
   `lo` and the last ending at `hi`.
   */
  predicate Tiles(ws: seq<Window>, lo: int, hi: int)
    decreases |ws|
  {
    if |ws| == 0 then lo == hi
    else ws[0].start == lo && ws[0].duration > 0 && Tiles(ws[1..], ws[0].End(), hi)
  }

  /** A tiling grows by one window at the front: the step used to check a concrete table. */
  lemma TilesStep(ws: seq<Window>, k: nat, hi: int)
    requires k < |ws|
    requires ws[k].duration > 0
    requires Tiles(ws[k + 1..], ws[k].End(), hi)
    ensures Tiles(ws[k..], ws[k].start, hi)
  {
  }

  /** A tiling stays inside `[lo, hi)` and is sorted: each window ends no later than any later one starts. */
  lemma {:induction false} TilesOrdered(ws: seq<Window>, lo: int, hi: int)
    requires Tiles(ws, lo, hi)
    ensures lo <= hi
    ensures |ws| > 0 ==> ws[0].start == lo && ws[|ws| - 1].End() == hi
    ensures forall i :: 0 <= i < |ws| ==> lo <= ws[i].start && 0 < ws[i].duration && ws[i].End() <= hi
    ensures forall i, j :: 0 <= i < j < |ws| ==> ws[i].End() <= ws[j].start
    decreases |ws|
  {
    if |ws| > 0 {
      var rest := ws[1..];
      TilesOrdered(rest, ws[0].End(), hi);
      assert forall i :: 1 <= i < |ws| ==> ws[i] == rest[i - 1];
      forall i, j | 0 <= i < j < |ws|
        ensures ws[i].End() <= ws[j].start
      {
        if i > 0 {
          assert ws[i] == rest[i - 1] && ws[j] == rest[j - 1];
        } else {
          assert ws[j] == rest[j - 1];
        }
      }
    }
  }

  /** In a tiling each window starts exactly where the previous one ends. */
  lemma {:induction false} TilesAdjacent(ws: seq<Window>, lo: int, hi: int)
    requires Tiles(ws, lo, hi)
    ensures forall i, j :: 0 <= i < |ws| && 0 <= j < |ws| && j == i + 1 ==> ws[i].End() == ws[j].start
    decreases |ws|
  {
    if |ws| > 1 {
      var rest := ws[1..];
      TilesAdjacent(rest, ws[0].End(), hi);
      forall i, j | 0 <= i < |ws| && 0 <= j < |ws| && j == i + 1
        ensures ws[i].End() == ws[j].start
      {
        if i > 0 {
          assert ws[i] == rest[i - 1] && ws[j] == rest[j - 1];
        } else {
          assert ws[j] == rest[0];
        }
      }
    }
  }

  /** In a tiling no frame lies in two windows. */
  lemma TilesDisjoint(ws: seq<Window>, lo: int, hi: int, frame: int)
    requires Tiles(ws, lo, hi)
    ensures forall i, j :: 0 <= i < |ws| && 0 <= j < |ws| && ws[i].Contains(frame) && ws[j].Contains(frame) ==> i == j
  {
    TilesOrdered(ws, lo, hi);
  }

  /** A tiling of `[lo, hi)` covers every frame of it and nothing else. */
  lemma {:induction false} TilesCover(ws: seq<Window>, lo: int, hi: int, frame: int)
    requires Tiles(ws, lo, hi)
    ensures FirstContaining(ws, frame).Some? <==> lo <= frame < hi
    decreases |ws|
  {
    TilesOrdered(ws, lo, hi);
    if |ws| > 0 && !ws[0].Contains(frame) {
      TilesCover(ws[1..], ws[0].End(), hi, frame);
    }
  }

  /**
   Exactly one window of a tiling of `[lo, hi)` contains each frame of it; the
   first-match scan finds that window and no window contains frames outside.
   */
  lemma TilesSelectExactlyOne(ws: seq<Window>, lo: int, hi: int, frame: int)
    requires Tiles(ws, lo, hi)
    requires lo <= frame < hi
    ensures FirstContaining(ws, frame).Some?
    ensures forall j :: 0 <= j < |ws| && ws[j].Contains(frame) ==> j == FirstContaining(ws, frame).value
  {
    TilesCover(ws, lo, hi, frame);
    TilesDisjoint(ws, lo, hi, frame);
  }

  /** A scene written as `{start, end}` instead of `{from, durationInFrames}`. */
  datatype Span = Span(start: int, end: int)

  function ToWindow(s: Span): (w: Window)
    ensures w.start == s.start && w.End() == s.end
  {
    Window(s.start, s.end - s.start)
  }

  function ToWindows(spans: seq<Span>): (ws: seq<Window>)
    ensures |ws| == |spans|
    ensures forall i :: 0 <= i < |spans| ==> ws[i] == ToWindow(spans[i])
  {
    seq(|spans|, i requires 0 <= i < |spans| => ToWindow(spans[i]))
  }

  /**
   The declarative reading of a scene table: the first scene starts at `lo`,
   each scene's end is the next one's start, the last ends at `hi`, and every
   scene has `start < end`.
   */
  predicate Chained(spans: seq<Span>, lo: int, hi: int) {
    && (|spans| == 0 ==> lo == hi)
    && (|spans| > 0 ==> spans[0].start == lo && spans[|spans| - 1].end == hi)
    && (forall i, j :: 0 <= i < |spans| && 0 <= j < |spans| && j == i + 1 ==> spans[i].end == spans[j].start)
    && (forall i :: 0 <= i < |spans| ==> spans[i].start < spans[i].end)
  }

  /** The declarative chaining of spans and the recursive tiling of their windows agree. */
  lemma {:induction false} ChainedIffTiles(spans: seq<Span>, lo: int, hi: int)
    ensures Chained(spans, lo, hi) <==> Tiles(ToWindows(spans), lo, hi)
    decreases |spans|
  {
    if |spans| > 0 {
      var rest := spans[1..];
      var mid := spans[0].end;
      assert ToWindows(spans)[1..] == ToWindows(rest);
      ChainedIffTiles(rest, mid, hi);
      assert forall i :: 1 <= i < |spans| ==> spans[i] == rest[i - 1];
      if Chained(spans, lo, hi) {
        if |rest| > 0 {
          assert rest[0] == spans[1];
          assert rest[|rest| - 1] == spans[|spans| - 1];
        }
        forall i, j | 0 <= i && j == i + 1 && j < |rest|
          ensures rest[i].end == rest[j].start
        {
          assert rest[i] == spans[i + 1] && rest[j] == spans[j + 1];
        }
        assert Chained(rest, mid, hi);
      }
      if Tiles(ToWindows(spans), lo, hi) {
        assert Chained(rest, mid, hi);
        if |rest| > 0 {
          assert rest[|rest| - 1] == spans[|spans| - 1];
        }
        forall i, j | 0 <= i && j == i + 1 && j < |spans|
          ensures spans[i].end == spans[j].start
        {
          if i > 0 {
            assert spans[i] == rest[i - 1] && spans[j] == rest[j - 1];
          }
        }
        assert Chained(spans, lo, hi);
      }
    }
  }
}
