/**
 The per-frame reveal arithmetic of the editor mock-up. `frame` is the frame
 the component sees: inside a Sequence it is the Sequence-local frame, which
 is never negative while the component is mounted.
 */
module CodingEnvironment {
  import opened Interpolation

  function Min(a: int, b: int): int {
    if a <= b then a else b
  }

  /** Frames the typing animation takes (6 seconds at 30 fps). */
  const TypingFrames := 180

  /** `codeProgress`: linear from 0 at frame 0 to 1 at frame 180, clamped on the right only. */
  function CodeProgress(frame: int): (p: real)
    ensures frame >= 0 ==> 0.0 <= p <= 1.0
    ensures frame >= TypingFrames ==> p == 1.0
  {
    var p := Interpolate(frame as real, 0.0, 180.0, 0.0, 1.0, Extend, Clamp);
    assert 0 <= frame <= TypingFrames ==> 0.0 <= p <= 1.0 by {
      if 0 <= frame <= TypingFrames {
        InterpolateMonotone(0.0, frame as real, 0.0, 180.0, 0.0, 1.0, Extend, Clamp);
        InterpolateMonotone(frame as real, 180.0, 0.0, 180.0, 0.0, 1.0, Extend, Clamp);
      }
    }
    p
  }

  /** For every frame the component can see, the progress is `min(frame, 180) / 180`. */
  lemma CodeProgressIsMinRatio(frame: int)
    requires frame >= 0
    ensures CodeProgress(frame) == Min(frame, TypingFrames) as real / 180.0
  {
  }

  /** `Math.floor(fullCode.length * codeProgress)`, the end handed to `slice`. */
  function TypedEnd(len: nat, frame: int): (e: int)
    ensures frame >= 0 ==> 0 <= e <= len
    ensures frame >= TypingFrames ==> e == len
    ensures frame == 0 ==> e == 0
  {
    var p := CodeProgress(frame);
    assert frame >= 0 ==> 0.0 <= len as real * p <= len as real by {
      if frame >= 0 {
        ScaleByFraction(len as real, p);
      }
    }
    (len as real * p).Floor
  }

  /** Scaling by a fraction in `[0, 1]` keeps a non-negative value between 0 and itself. */
  lemma ScaleByFraction(a: real, p: real)
    requires 0.0 <= a && 0.0 <= p <= 1.0
    ensures 0.0 <= a * p <= a
  {
    assert a - a * p == a * (1.0 - p);
  }

  /** Where `s.slice(0, end)` stops on a string of length `len`: a negative end counts back from the end. */
  function SliceEnd(len: nat, end: int): (k: nat)
    ensures k <= len
    ensures 0 <= end ==> k == Min(end, len)
    ensures end < 0 ==> k == if len + end < 0 then 0 else len + end
  {
    if end < 0 then (if len + end < 0 then 0 else len + end)
    else if end > len then len
    else end
  }

  /**
   The value `displayedCode = fullCode.slice(0, …)`: always a prefix of the
   full text. The component computes it but draws fixed markup instead.
   */
  function DisplayedCode(code: string, frame: int): (shown: string)
    ensures shown <= code
  {
    code[..SliceEnd(|code|, TypedEnd(|code|, frame))]
  }

  /** The length of the value is `floor(len * min(frame, 180) / 180)`. */
  lemma DisplayedLength(code: string, frame: int)
    requires frame >= 0
    ensures |DisplayedCode(code, frame)| == |code| * Min(frame, TypingFrames) / 180
  {
  }

  /** The value is empty at frame 0 and the whole text from frame 180 on. */
  lemma DisplayedCodeEnds(code: string, frame: int)
    ensures DisplayedCode(code, 0) == []
    ensures frame >= TypingFrames ==> DisplayedCode(code, frame) == code
  {
  }

  /** Typing only moves forward: the value at a later frame extends the value at an earlier one. */
  lemma DisplayedCodeGrows(code: string, frame: int, frame': int)
    requires 0 <= frame <= frame'
    ensures DisplayedCode(code, frame) <= DisplayedCode(code, frame')
    ensures |DisplayedCode(code, frame)| <= |DisplayedCode(code, frame')|
  {
    DisplayedLength(code, frame);
    DisplayedLength(code, frame');
    var len, m, m' := |code|, Min(frame, TypingFrames), Min(frame', TypingFrames);
    MulDivMonotone(len, m, m');
  }

  /** `len * m / 180` grows with `m`. */
  lemma MulDivMonotone(len: nat, m: nat, m': nat)
    requires m <= m'
    ensures len * m / 180 <= len * m' / 180
  {
    assert len * m <= len * m' by {
      assert len * m' == len * m + len * (m' - m);
    }
  }

  /** `codeProgress > 0.7`: the button lines of the snippet are drawn. */
  predicate ButtonShown(frame: int): (shown: bool)
    ensures frame <= 0 ==> !shown
    ensures frame >= TypingFrames ==> shown
  {
    CodeProgress(frame) > 0.7
  }

  /** In exact arithmetic the button lines appear from frame 127 on, and only then. */
  lemma ButtonShownIff(frame: int)
    ensures ButtonShown(frame) <==> frame >= 127
  {
  }

  /** JavaScript's `%`: the remainder takes the sign of the dividend. */
  function JsRemainder(a: int, b: int): (r: int)
    requires b > 0
    ensures -b < r < b
    ensures a >= 0 ==> r == a % b
    ensures a < 0 ==> r <= 0
    ensures a == b * (if a >= 0 then a / b else -((-a) / b)) + r
  {
    if a >= 0 then a % b else -((-a) % b)
  }

  /** `frame % 60 < 30`: the editor cursor is drawn. */
  predicate CursorShown(frame: int): (shown: bool)
    ensures frame < 30 ==> shown
    ensures 30 <= frame < 60 ==> !shown
  {
    JsRemainder(frame, 60) < 30
  }

  /** From frame 0 on, the cursor repeats every 60 frames. */
  lemma CursorPeriodic(frame: int)
    requires frame >= 0
    ensures CursorShown(frame + 60) == CursorShown(frame)
  {
  }

  /** Frames the cursor is drawn on among the `n` frames starting at `start`. */
  function CursorCount(start: int, n: nat): (c: nat)
    ensures c <= n
    decreases n
  {
    if n == 0 then 0 else (if CursorShown(start) then 1 else 0) + CursorCount(start + 1, n - 1)
  }

  /** Counting over a window splits at any point. */
  lemma {:induction false} CursorCountSplit(start: int, m: nat, n: nat)
    ensures CursorCount(start, m + n) == CursorCount(start, m) + CursorCount(start + m, n)
    decreases m
  {
    if m > 0 {
      CursorCountSplit(start + 1, m - 1, n);
    }
  }

  /** Over a run of frames whose remainders all lie on one side of 30 the count is all or nothing. */
  lemma {:induction false} CursorCountUniform(start: int, n: nat)
    requires 0 <= start && start + n <= 60
    ensures start + n <= 30 ==> CursorCount(start, n) == n
    ensures 30 <= start ==> CursorCount(start, n) == 0
    decreases n
  {
    if n > 0 {
      CursorCountUniform(start + 1, n - 1);
    }
  }

  /** Shifting a 60-frame window by one frame keeps its count. */
  lemma CursorCountShift(start: int)
    requires start >= 0
    ensures CursorCount(start + 1, 60) == CursorCount(start, 60)
  {
    CursorCountSplit(start + 1, 59, 1);
    CursorPeriodic(start);
  }

  /**
   Frames 0 to 29 show the cursor and frames 30 to 59 do not. The start is a
   parameter fixed to 0 rather than the literal 0, so that the verifier does
   not unroll the count over literal frames one by one.
   */
  lemma CursorFirstWindow(start: int)
    requires start == 0
    ensures CursorCount(start, 60) == 30
  {
    CursorCountSplit(start, 30, 30);
    CursorCountUniform(start, 30);
    CursorCountUniform(start + 30, 30);
  }

  /** The cursor is drawn on exactly 30 of any 60 consecutive frames from frame 0 on. */
  lemma {:induction false} CursorHalfTheTime(start: int)
    requires start >= 0
    ensures CursorCount(start, 60) == 30
    decreases start
  {
    if start == 0 {
      CursorFirstWindow(start);
    } else {
      CursorHalfTheTime(start - 1);
      CursorCountShift(start - 1);
    }
  }

  /** Number of advice lines in the Claude Code panel. */
  const AdviceCount := 4

  /** `shouldShow` of advice `i`: 0 to 1 over frames `[60 + 30i, 90 + 30i]`, clamped on both sides. */
  function ShouldShow(i: nat, frame: int): (v: real)
    ensures 0.0 <= v <= 1.0
  {
    ClampedStaysInRange(frame as real, (60 + 30 * i) as real, (90 + 30 * i) as real, 0.0, 1.0);
    Interpolate(frame as real, (60 + 30 * i) as real, (90 + 30 * i) as real, 0.0, 1.0, Clamp, Clamp)
  }

  /** The fade is `clamp01((frame - 60 - 30i) / 30)`: 0 up to frame 60 + 30i and 1 from frame 90 + 30i. */
  lemma ShouldShowIsClamp01(i: nat, frame: int)
    ensures ShouldShow(i, frame) == Clamp01((frame - 60 - 30 * i) as real / 30.0)
    ensures frame <= 60 + 30 * i ==> ShouldShow(i, frame) == 0.0
    ensures frame >= 90 + 30 * i ==> ShouldShow(i, frame) == 1.0
  {
  }

  /** `shouldShow > 0`: advice `i` is rendered at all. */
  predicate AdviceRendered(i: nat, frame: int): (rendered: bool)
    ensures rendered ==> frame > 60
    ensures frame >= 90 + 30 * i ==> rendered
  {
    ShouldShow(i, frame) > 0.0
  }

  /** Advice `i` is rendered exactly after frame 60 + 30i. */
  lemma AdviceRenderedIff(i: nat, frame: int)
    ensures AdviceRendered(i, frame) <==> frame > 60 + 30 * i
  {
  }

  /** Rendered advice is a prefix of the list: an item shows only after every earlier item. */
  lemma AdviceRenderedPrefix(i: nat, j: nat, frame: int)
    requires j <= i
    requires AdviceRendered(i, frame)
    ensures AdviceRendered(j, frame)
  {
  }

  /** After frame 150 all four advice lines are rendered. */
  lemma AllAdviceAfter150(frame: int)
    requires frame > 150
    ensures forall i: nat :: i < AdviceCount ==> AdviceRendered(i, frame)
  {
  }

  /** `(1 - shouldShow) * 20`: the item slides up from 20 pixels below into place. */
  function AdviceOffset(i: nat, frame: int): (dy: real)
    ensures 0.0 <= dy <= 20.0
    ensures frame >= 90 + 30 * i ==> dy == 0.0
  {
    ShouldShowIsClamp01(i, frame);
    (1.0 - ShouldShow(i, frame)) * 20.0
  }

  /** A rendered advice line: its position in the list, opacity and offset. */
  datatype AdviceItem = AdviceItem(index: nat, opacity: real, offset: real)

  function ItemAt(i: nat, frame: int): AdviceItem {
    AdviceItem(i, ShouldShow(i, frame), AdviceOffset(i, frame))
  }

  /**
   The advice lines the panel renders, in order: none when the panel is off;
   otherwise exactly the items with `shouldShow > 0`, which are always the
   first few of the list.
   */
  method RenderAdvicePanel(showClaudeCode: bool, frame: int) returns (items: seq<AdviceItem>)
    ensures !showClaudeCode ==> items == []
    ensures |items| <= AdviceCount
    ensures forall k :: 0 <= k < |items| ==> items[k] == ItemAt(k, frame)
    ensures showClaudeCode ==> forall i: nat :: i < AdviceCount ==> (i < |items| <==> AdviceRendered(i, frame))
  {
    items := [];
    if !showClaudeCode {
      return;
    }
    var i := 0;
    while i < AdviceCount
      invariant 0 <= i <= AdviceCount
      invariant |items| <= i
      invariant forall k :: 0 <= k < |items| ==> items[k] == ItemAt(k, frame)
      invariant forall k: nat :: k < i ==> (k < |items| <==> AdviceRendered(k, frame))
      invariant |items| < i ==> !AdviceRendered(|items|, frame)
    {
      if ShouldShow(i, frame) > 0.0 {
        items := items + [ItemAt(i, frame)];
      }
      i := i + 1;
    }
  }
}
