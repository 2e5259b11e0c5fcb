/** Geometry of one featured poster cell: the stretchy-header height and vertical pin driven
    by the page's vertical scroll offset, and the horizontal parallax drift driven by the
    cell's own horizontal position `minX` in the carousel. */
module Parallax {

  /** Fraction of the cell's horizontal displacement the image moves against. */
  const Damping: real := 0.6

  function Max(a: real, b: real): real { if a >= b then a else b }
  function Min(a: real, b: real): real { if a <= b then a else b }

  /** Image height: the base height, grown by how far the page is pulled down past its top. */
  function StretchHeight(base: real, scrollOffset: real): (h: real)
    ensures h >= base
    ensures h == base <==> scrollOffset >= 0.0
    ensures scrollOffset < 0.0 ==> h - base == -scrollOffset
  {
    base + Max(0.0, -scrollOffset)
  }

  /** Vertical shift of the image: moves up by the pull-down distance, never down. */
  function VerticalPin(scrollOffset: real): (dy: real)
    ensures dy <= 0.0 && dy <= scrollOffset
    ensures dy == 0.0 <==> scrollOffset >= 0.0
    ensures scrollOffset < 0.0 ==> dy == scrollOffset
  {
    Min(0.0, scrollOffset)
  }

  /** Horizontal image offset: against the cell's displacement, at 60% of it. */
  function HorizontalDrift(minX: real): (dx: real)
    ensures dx == 0.0 <==> minX == 0.0
    ensures minX > 0.0 ==> dx < 0.0 && -dx < minX
    ensures minX < 0.0 ==> dx > 0.0 && dx < -minX
  {
    -minX * Damping
  }

  /** The image's bottom edge stays where the unstretched cell ends: what the stretch adds
      at the top is exactly what the pin shifts up. */
  lemma BottomEdgeStaysPut(base: real, scrollOffset: real)
    ensures VerticalPin(scrollOffset) + StretchHeight(base, scrollOffset) == base
  {
  }

  /** The page's content sits `-scrollOffset` below the viewport top; the image's top edge in
      the viewport is therefore never below the viewport top, and is at it while pulled down. */
  lemma NoGapAboveImage(scrollOffset: real)
    ensures -scrollOffset + VerticalPin(scrollOffset) <= 0.0
    ensures scrollOffset <= 0.0 ==> -scrollOffset + VerticalPin(scrollOffset) == 0.0
  {
  }

  /** While a cell is swiped, the image inside it moves at 40% of the cell's speed. */
  lemma DriftIsSlowerThanScroll(minX1: real, minX2: real)
    ensures (minX2 + HorizontalDrift(minX2)) - (minX1 + HorizontalDrift(minX1)) == 0.4 * (minX2 - minX1)
  {
  }

  /** Pulled down by 40 points: 40 taller and shifted up 40. Scrolled up by 40: unchanged. */
  lemma PullDownScenario(base: real)
    ensures StretchHeight(base, -40.0) == base + 40.0 && VerticalPin(-40.0) == -40.0
    ensures StretchHeight(base, 40.0) == base && VerticalPin(40.0) == 0.0
  {
  }
}
