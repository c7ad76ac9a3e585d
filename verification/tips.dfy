/**
 Tips and the first-match tip selection the compositions run every frame
 (`getCurrentTip`), plus which TipCard is marked visible.
 */
module Tips {
  import opened Wrappers
  import opened Timeline

  /** A tip with the fields the timeline uses; the other text fields are content only. */
  datatype Tip = Tip(id: string, title: string, timing: Window)

  function Timings(tips: seq<Tip>): (ws: seq<Window>)
    ensures |ws| == |tips|
    ensures forall i :: 0 <= i < |tips| ==> ws[i] == tips[i].timing
  {
    seq(|tips|, i requires 0 <= i < |tips| => tips[i].timing)
  }

  predicate DistinctIds(tips: seq<Tip>) {
    forall i, j :: 0 <= i < |tips| && 0 <= j < |tips| && i != j ==> tips[i].id != tips[j].id
  }

  /**
   The first tip in list order whose timing contains `frame`, or None: a
   returned tip contains the frame and no earlier tip does.
   */
  function CurrentTip(tips: seq<Tip>, frame: int): (r: Option<Tip>)
    ensures r.None? <==> forall j :: 0 <= j < |tips| ==> !tips[j].timing.Contains(frame)
    ensures r.Some? ==> exists i :: 0 <= i < |tips| && tips[i] == r.value && tips[i].timing.Contains(frame)
                                    && forall j :: 0 <= j < i ==> !tips[j].timing.Contains(frame)
  {
    match FirstContaining(Timings(tips), frame)
    case None => None
    case Some(i) => Some(tips[i])
  }

  /** `visible={currentTip?.id === tip.id}`: no current tip makes every card hidden. */
  predicate Visible(tips: seq<Tip>, frame: int, tip: Tip): (v: bool)
    ensures v ==> exists i :: 0 <= i < |tips| && tips[i].id == tip.id && tips[i].timing.Contains(frame)
    ensures (forall j :: 0 <= j < |tips| ==> !tips[j].timing.Contains(frame)) ==> !v
  {
    match CurrentTip(tips, frame)
    case None => false
    case Some(t) => t.id == tip.id
  }

  /** With distinct ids, at most one card of the list is visible at any frame. */
  lemma AtMostOneVisible(tips: seq<Tip>, frame: int, i: nat, j: nat)
    requires DistinctIds(tips)
    requires i < |tips| && j < |tips|
    requires Visible(tips, frame, tips[i]) && Visible(tips, frame, tips[j])
    ensures i == j
  {
  }

  /**
   With distinct ids, the visible card is the one at the first-match index,
   and only that one.
   */
  lemma VisibleIsFirstMatch(tips: seq<Tip>, frame: int, i: nat)
    requires DistinctIds(tips)
    requires i < |tips|
    ensures Visible(tips, frame, tips[i]) <==> FirstContaining(Timings(tips), frame) == Some(i)
  {
  }

  /**
   When the timings tile a span, a card is visible exactly while its own
   timing contains the frame.
   */
  lemma VisibleIffContains(tips: seq<Tip>, lo: int, hi: int, frame: int, i: nat)
    requires DistinctIds(tips)
    requires Tiles(Timings(tips), lo, hi)
    requires i < |tips|
    ensures Visible(tips, frame, tips[i]) <==> tips[i].timing.Contains(frame)
  {
    VisibleIsFirstMatch(tips, frame, i);
    TilesDisjoint(Timings(tips), lo, hi, frame);
  }

  /** Opacity and vertical offset of a tip card. */
  datatype CardStyle = CardStyle(opacity: real, translateY: real)
}
