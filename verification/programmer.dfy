/**
 The programmer character's face: the mood-to-expression table and the
 mouth and eye sizes drawn from it. Whether the eyes are mid-blink is
 `Math.sin(frame * 0.1) < -0.9` in the component; here it is a boolean input.
 */
module Programmer {

  /** The four moods the component's prop type admits. */
  datatype Mood = Happy | Confused | Focused | Excited

  /** The prop's default. */
  const DefaultMood := Focused

  datatype Expression = Expression(eyeHeight: real, mouthCurve: int)

  /** `getMoodExpression`: three named moods; every other mood takes the default branch. */
  function MoodExpression(mood: Mood): (e: Expression)
    ensures 0.7 <= e.eyeHeight <= 1.2
    ensures -5 <= e.mouthCurve <= 20
    ensures e.mouthCurve > 0 <==> mood != Confused
  {
    match mood
    case Happy => Expression(1.0, 15)
    case Confused => Expression(0.7, -5)
    case Excited => Expression(1.2, 20)
    case _ => Expression(1.0, 5)
  }

  /** The default mood falls through to the neutral expression (eyes 1, mouth 5). */
  lemma DefaultMoodIsNeutral()
    ensures DefaultMood != Happy && DefaultMood != Confused && DefaultMood != Excited
    ensures MoodExpression(DefaultMood) == Expression(1.0, 5)
  {
  }

  /** Height and borders of the mouth box; a smile is a box open at the top. */
  datatype MouthStyle = MouthStyle(height: int, borderTop: bool, borderBottom: bool)

  /** Smile (height 8, bottom but not top border) when the curve is positive, otherwise frown (height 6, top but not bottom border). */
  function MouthFor(e: Expression): (m: MouthStyle)
    ensures m.borderTop != m.borderBottom
  {
    if e.mouthCurve > 0 then MouthStyle(8, false, true) else MouthStyle(6, true, false)
  }

  /** Of the four moods only `confused` draws a frown; the other three smile. */
  lemma OnlyConfusedFrowns(mood: Mood)
    ensures MouthFor(MoodExpression(mood)) == (if mood == Confused then MouthStyle(6, true, false) else MouthStyle(8, false, true))
    ensures MouthFor(MoodExpression(mood)).borderTop <==> mood == Confused
  {
  }

  /** The eye scale while blinking (0.1) or open (1). */
  function BlinkFactor(blinking: bool): (b: real)
    ensures b == 0.1 || b == 1.0
  {
    if blinking then 0.1 else 1.0
  }

  datatype Eyes = Eyes(left: real, right: real)

  /** Both eyes are `12 * eyeHeight * blink` high. */
  function EyesFor(mood: Mood, blinking: bool): (eyes: Eyes)
    ensures eyes.left == eyes.right
    ensures 0.0 < eyes.left <= 14.4
  {
    var h := 12.0 * MoodExpression(mood).eyeHeight * BlinkFactor(blinking);
    assert 12.0 * 0.7 * 0.1 <= h <= 12.0 * 1.2 * 1.0;
    Eyes(h, h)
  }

  /** The tallest eyes, 14.4, are drawn exactly for `excited` with the eyes open. */
  lemma TallestEyes(mood: Mood, blinking: bool)
    ensures EyesFor(mood, blinking).left == 14.4 <==> mood == Excited && !blinking
  {
  }

  /** Blinking always makes the eyes shorter than the same mood with eyes open. */
  lemma BlinkShrinksEyes(mood: Mood)
    ensures EyesFor(mood, true).left < EyesFor(mood, false).left
  {
  }
}
