/** The featured-carousel controller: page index, auto-advance progress, the user-scrolling
    flag and the ambient vertical scroll offset, driven by host events. Every event is a pure
    transition; an auto-advance is returned as an outbound scroll command rather than applied
    to the index, since the index only moves when the host later reports a page as visible. */
module Carousel {
  import opened Wrappers
  import opened Sequences
  import opened Posters

  /** Progress value after every reset, and at start-up. */
  const Start: real := 0.2

  /** Length of one auto-advance, in seconds. */
  const AutoAdvanceSeconds: real := 5.0

  /** Period of the timer, in seconds. */
  const TimerInterval: real := 0.01

  /** Progress added per timer tick so that one page lasts `duration` seconds. */
  function Increment(duration: real, interval: real): (inc: real)
    requires duration > 0.0 && interval > 0.0
    ensures inc > 0.0
    ensures inc * (duration / interval) == 1.0 - Start
  {
    (1.0 - Start) / (duration / interval)
  }

  /** The increment every non-dropped tick adds. */
  const TickIncrement: real := Increment(AutoAdvanceSeconds, TimerInterval)

  /** The increment at the shipped settings is exactly 0.0016, one 500th of the range. */
  lemma TickIncrementValue()
    ensures TickIncrement == 0.0016
    ensures 500.0 * TickIncrement == 1.0 - Start
  {
  }

  datatype CarouselState = CarouselState(
    index: int,          // page reported visible most recently
    progress: real,      // auto-advance progress of the current page
    isScrolling: bool,   // the user is dragging or the view is settling
    scrollOffset: real)  // vertical content offset; negative while pulled down

  /** The two outbound commands the controller can issue to the host's scroll position. */
  datatype ScrollCommand = ScrollToLeadingEdge | ScrollToX(x: real)

  /** Events delivered by the host. */
  datatype Event =
    | Tick
    | VisibilityChange(item: MoviePoster, isVisible: bool)
    | ScrollPhaseChange(isScrolling: bool)
    | ScrollGeometryChange(offset: real)

  /** State at start-up. */
  const Initial: CarouselState := CarouselState(0, Start, false, 0.0)

  /** The at-rest invariant over a featured list: a valid page, progress in [Start, 1). */
  predicate Valid(s: CarouselState, items: seq<MoviePoster>) {
    && 0 <= s.index < |items|
    && Start <= s.progress < 1.0
  }

  lemma InitialIsValid(items: seq<MoviePoster>)
    requires |items| >= 1
    ensures Valid(Initial, items)
  {
  }

  // ---------------------------------------------------------------------------
  // One handler per host callback

  /** Timer tick: dropped while scrolling, otherwise adds one increment. */
  function OnTimer(s: CarouselState): (r: CarouselState)
    ensures s.isScrolling ==> r == s
    ensures !s.isScrolling ==> r.progress - s.progress == 0.0016
    ensures r.(progress := s.progress) == s
  {
    TickIncrementValue();
    if s.isScrolling then s else s.(progress := s.progress + TickIncrement)
  }

  /** Where the page at position `k` begins when every page is `width` wide. */
  function PageOffset(k: int, width: real): real {
    width * k as real
  }

  /** Where a command leaves the carousel's content offset. */
  function TargetOffset(c: ScrollCommand): real {
    match c
    case ScrollToLeadingEdge => 0.0
    case ScrollToX(x) => x
  }

  /** The x offset the code scrolls to when advancing past the page at `index`: one page
      width beyond where the current page begins. */
  function NextCellOffset(index: int, width: real): (x: real)
    ensures x == PageOffset(index, width) + width
  {
    PageOffset(index + 1, width)
  }

  /** The command issued when the page at `index` of `count` completes: the leading-edge wrap
      on the last page, otherwise a scroll to the next cell. */
  function AdvanceCommand(index: int, count: int, width: real): (c: ScrollCommand)
    ensures c.ScrollToLeadingEdge? <==> index == count - 1
    ensures c.ScrollToX? ==> c.x == PageOffset(index, width) + width
    ensures TargetOffset(c) == 0.0 || TargetOffset(c) == PageOffset(index + 1, width)
  {
    if index == count - 1 then ScrollToLeadingEdge else ScrollToX(NextCellOffset(index, width))
  }

  /** Progress observer: on reaching 1, one scroll command (wrap on the last page) and a reset. */
  function OnProgressChange(s: CarouselState, count: int, width: real)
    : (r: (CarouselState, Option<ScrollCommand>))
    ensures s.progress < 1.0 ==> r == (s, None)
    ensures s.progress >= 1.0 ==> r.0 == s.(progress := Start)
    ensures s.progress >= 1.0 ==> r.1 == Some(AdvanceCommand(s.index, count, width))
    ensures r.1 == Some(ScrollToLeadingEdge) <==> s.progress >= 1.0 && s.index == count - 1
    ensures r.0.index == s.index
  {
    if s.progress >= 1.0 then (s.(progress := Start), Some(AdvanceCommand(s.index, count, width)))
    else (s, None)
  }

  /** Visibility callback of one poster cell: a visible cell moves the index to its position. */
  function OnVisibility(s: CarouselState, items: seq<MoviePoster>, item: MoviePoster, isVisible: bool)
    : (r: CarouselState)
    ensures !isVisible || item !in items ==> r == s
    ensures isVisible && item in items ==> 0 <= r.index < |items| && items[r.index] == item
    ensures r.(index := s.index) == s
  {
    if !isVisible then s
    else
      match FirstIndex(items, item)
      case None => s
      case Some(i) => s.(index := i)
  }

  /** Index observer: a new page restarts the progress. */
  function OnIndexChange(s: CarouselState): (r: CarouselState)
    ensures r.progress == Start
    ensures r.(progress := s.progress) == s
  {
    s.(progress := Start)
  }

  /** Scroll-phase callback: records whether the user is scrolling. */
  function OnScrollPhase(s: CarouselState, isScrolling: bool): (r: CarouselState)
    ensures r.isScrolling == isScrolling
    ensures r.(isScrolling := s.isScrolling) == s
  {
    s.(isScrolling := isScrolling)
  }

  /** Vertical scroll-geometry callback: records the latest offset. */
  function OnScrollGeometry(s: CarouselState, offset: real): (r: CarouselState)
    ensures r.scrollOffset == offset
    ensures r.(scrollOffset := s.scrollOffset) == s
  {
    s.(scrollOffset := offset)
  }

  // ---------------------------------------------------------------------------
  // One complete reaction to a host event

  /** The direct handler of an event, before any observer fires. */
  function Handle(s: CarouselState, items: seq<MoviePoster>, e: Event): CarouselState {
    match e
    case Tick => OnTimer(s)
    case VisibilityChange(item, visible) => OnVisibility(s, items, item, visible)
    case ScrollPhaseChange(scrolling) => OnScrollPhase(s, scrolling)
    case ScrollGeometryChange(offset) => OnScrollGeometry(s, offset)
  }

  /** The handler, then the index observer if the index changed, then the progress observer
      if the progress changed; observers fire only on an actual change of their value. */
  function Step(s: CarouselState, items: seq<MoviePoster>, width: real, e: Event)
    : (r: (CarouselState, Option<ScrollCommand>))
    ensures Valid(s, items) ==> Valid(r.0, items)
    ensures r.1.Some? ==> e.Tick? && !s.isScrolling && r.0.index == s.index && r.0.progress == Start
    ensures r.0.index != s.index ==> e.VisibilityChange? && r.0.progress == Start
    ensures !e.ScrollPhaseChange? ==> r.0.isScrolling == s.isScrolling
  {
    var s1 := Handle(s, items, e);
    var s2 := if s1.index != s.index then OnIndexChange(s1) else s1;
    if s2.progress != s.progress then OnProgressChange(s2, |items|, width) else (s2, None)
  }

  /** A tick during scrolling is dropped: nothing changes and nothing is issued. */
  lemma TickWhileScrollingIsDropped(s: CarouselState, items: seq<MoviePoster>, width: real)
    requires s.isScrolling
    ensures Step(s, items, width, Tick) == (s, None)
  {
  }

  /** Below the threshold a tick adds exactly 0.0016 and issues nothing. */
  lemma TickBelowThreshold(s: CarouselState, items: seq<MoviePoster>, width: real)
    requires !s.isScrolling
    requires s.progress + 0.0016 < 1.0
    ensures Step(s, items, width, Tick) == (s.(progress := s.progress + 0.0016), None)
  {
  }

  /** The tick that takes progress to 1 or beyond issues one command and resets the progress:
      wrap to the leading edge on the last page, otherwise scroll to the next page's offset. */
  lemma TickAtThreshold(s: CarouselState, items: seq<MoviePoster>, width: real)
    requires !s.isScrolling
    requires s.progress + 0.0016 >= 1.0
    ensures Step(s, items, width, Tick).0 == s.(progress := Start)
    ensures s.index == |items| - 1 ==> Step(s, items, width, Tick).1 == Some(ScrollToLeadingEdge)
    ensures s.index != |items| - 1 ==>
      Step(s, items, width, Tick).1 == Some(ScrollToX(width * (s.index + 1) as real))
  {
  }

  /** Both branches of the advance aim at the page after the current one, cyclically:
      the progress observer's command scrolls to where page `(index + 1) mod n` begins. */
  lemma AdvanceTargetsNextPage(s: CarouselState, count: int, width: real)
    requires 0 <= s.index < count
    requires s.progress >= 1.0
    ensures OnProgressChange(s, count, width).1.Some?
    ensures TargetOffset(OnProgressChange(s, count, width).1.value) == PageOffset((s.index + 1) % count, width)
  {
    var index := s.index;
    if index == count - 1 {
      assert (index + 1) % count == 0;
    } else {
      assert (index + 1) % count == index + 1;
    }
  }

  /** Visibility of a listed poster moves the index to its position; the progress restarts
      only when the index actually changes. */
  lemma VisibilityOfListedPoster(s: CarouselState, items: seq<MoviePoster>, width: real, p: nat)
    requires Distinct(items)
    requires p < |items|
    ensures p != s.index ==>
      Step(s, items, width, VisibilityChange(items[p], true)) == (s.(index := p, progress := Start), None)
    ensures p == s.index ==> Step(s, items, width, VisibilityChange(items[p], true)) == (s, None)
  {
    FirstIndexOfDistinct(items, p);
  }

  /** Visibility of a poster that is not listed, or a cell becoming invisible, changes nothing. */
  lemma VisibilityWithoutEffect(s: CarouselState, items: seq<MoviePoster>, width: real,
                                item: MoviePoster, isVisible: bool)
    requires !isVisible || item !in items
    ensures Step(s, items, width, VisibilityChange(item, isVisible)) == (s, None)
  {
  }
}
