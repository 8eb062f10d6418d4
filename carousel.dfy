/**
 * A category row's horizontal carousel: the two flags that decide whether
 * the left and right arrows are drawn, and the target of an arrow click.
 */
module Carousel {
  import opened Options

  datatype Direction = Left | Right

  /** How far one arrow click asks the strip to scroll. */
  const ScrollAmount := 400

  /** What the scrolling element reports about itself. */
  datatype StripMetrics = StripMetrics(scrollLeft: int, scrollWidth: int, clientWidth: int)

  /** The offset an arrow click asks the strip to scroll to: 400 units from
      where it is now, in the chosen direction. It is not clamped to the
      scrollable range; the browser's `scrollTo` does that. */
  function ScrollTarget(dir: Direction, scrollLeft: int): (target: int)
    ensures dir == Left ==> target < scrollLeft && scrollLeft - target == ScrollAmount
    ensures dir == Right ==> target > scrollLeft && target - scrollLeft == ScrollAmount
  {
    scrollLeft + (if dir == Left then -ScrollAmount else ScrollAmount)
  }

  /** A right click followed by a left click, each from where the previous
      one asked to go, asks to return to the starting offset, and so does
      the other order. */
  lemma RoundTrip(scrollLeft: int)
    ensures ScrollTarget(Left, ScrollTarget(Right, scrollLeft)) == scrollLeft
    ensures ScrollTarget(Right, ScrollTarget(Left, scrollLeft)) == scrollLeft
  {
  }

  /** From the left edge, a left click asks for a negative offset, and at
      1000 in a 2000-unit strip shown 800 units wide a right click asks for
      more than the largest offset, 1200. */
  lemma TargetsAreNotClamped()
    ensures ScrollTarget(Left, 0) < 0
    ensures ScrollTarget(Right, 1000) > 2000 - 800
  {
  }

  /** The left arrow is needed once the strip has left its left edge. */
  predicate LeftFlagFor(m: StripMetrics) {
    m.scrollLeft > 0
  }

  /** The right arrow is needed while the strip is more than one unit short
      of its largest offset, `scrollWidth - clientWidth`. */
  predicate RightFlagFor(m: StripMetrics) {
    m.scrollLeft < m.scrollWidth - m.clientWidth - 1
  }

  /** The right flag is set exactly when more than one unit of the strip
      remains hidden to the right of the viewport. */
  lemma RightFlagMeansHiddenContent(m: StripMetrics)
    ensures RightFlagFor(m) <==> m.scrollWidth - (m.scrollLeft + m.clientWidth) > 1
  {
  }

  /** A strip whose content fits its viewport never needs the right arrow,
      although the arrow is drawn until the first scroll event. */
  lemma FittingContentNeedsNoRightArrow(m: StripMetrics)
    requires m.scrollLeft >= 0 && m.scrollWidth <= m.clientWidth + 1
    ensures !RightFlagFor(m)
  {
  }

  /** With a 2000-unit strip in an 800-unit viewport: at the left edge only
      the right arrow is needed; the right arrow disappears at 1199, one
      unit before the end, and is still needed at 1198. */
  lemma BoundaryExample()
    ensures !LeftFlagFor(StripMetrics(0, 2000, 800)) && RightFlagFor(StripMetrics(0, 2000, 800))
    ensures RightFlagFor(StripMetrics(1198, 2000, 800))
    ensures !RightFlagFor(StripMetrics(1199, 2000, 800))
  {
  }

  /** The component's state. `lastRequest` is the offset most recently
      passed to `scrollTo`, the only effect an arrow click has. */
  class CategorySection {
    var canScrollLeft: bool
    var canScrollRight: bool
    var lastRequest: Option<int>

    /** Before any scroll event: the strip is assumed to start at its left
        edge with content hidden to the right. */
    constructor ()
      ensures !canScrollLeft && canScrollRight && lastRequest == None
    {
      canScrollLeft := false;
      canScrollRight := true;
      lastRequest := None;
    }

    /** The strip's scroll listener: both flags recomputed from the strip's
        metrics, when the strip element is attached (`strip` is `Some`). */
    method HandleScroll(strip: Option<StripMetrics>)
      modifies this`canScrollLeft, this`canScrollRight
      ensures strip.Some? ==> canScrollLeft == LeftFlagFor(strip.value) && canScrollRight == RightFlagFor(strip.value)
      ensures strip.None? ==> canScrollLeft == old(canScrollLeft) && canScrollRight == old(canScrollRight)
    {
      if strip.Some? {
        var m := strip.value;
        canScrollLeft := m.scrollLeft > 0;
        canScrollRight := m.scrollLeft < m.scrollWidth - m.clientWidth - 1;
      }
    }

    /** An arrow click: ask the attached strip to scroll 400 units in the
        chosen direction. Neither flag changes until the resulting scroll
        event arrives. */
    method Scroll(dir: Direction, strip: Option<StripMetrics>)
      modifies this`lastRequest
      ensures strip.Some? ==> lastRequest == Some(ScrollTarget(dir, strip.value.scrollLeft))
      ensures strip.None? ==> lastRequest == old(lastRequest)
      ensures canScrollLeft == old(canScrollLeft) && canScrollRight == old(canScrollRight)
    {
      if strip.Some? {
        var newScrollLeft := strip.value.scrollLeft + (if dir == Left then -ScrollAmount else ScrollAmount);
        lastRequest := Some(newScrollLeft);
      }
    }
  }
}
