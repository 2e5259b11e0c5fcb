/** Sequences of host events fed through the carousel controller, and the laws that hold
    across them: the at-rest invariant, dropped ticks, and the 500-tick page cadence. */
module Runs {
  import opened Wrappers
  import opened Sequences
  import opened Posters
  import opened Carousel

  /** The commands of one step, as a list of zero or one. */
  function Issued(c: Option<ScrollCommand>): seq<ScrollCommand> {
    match c
    case None => []
    case Some(cmd) => [cmd]
  }

  /** Final state and every command issued, in order, after processing `events` from `s`. */
  function Run(s: CarouselState, items: seq<MoviePoster>, width: real, events: seq<Event>)
    : (r: (CarouselState, seq<ScrollCommand>))
    decreases |events|
  {
    if |events| == 0 then (s, [])
    else
      var prev := Run(s, items, width, events[..|events| - 1]);
      var next := Step(prev.0, items, width, events[|events| - 1]);
      (next.0, prev.1 + Issued(next.1))
  }

  /** `k` timer ticks in a row. */
  function Ticks(k: nat): seq<Event> {
    seq(k, _ => Tick)
  }

  /** `Ticks(k)` is `Ticks(k - 1)` followed by one more tick. */
  lemma TicksSnoc(k: nat)
    requires k > 0
    ensures |Ticks(k)| == k
    ensures Ticks(k)[..k - 1] == Ticks(k - 1)
    ensures Ticks(k)[k - 1] == Tick
  {
  }

  /** Processing `k` ticks is processing `k - 1` of them and then one more. */
  lemma RunOneMoreTick(s: CarouselState, items: seq<MoviePoster>, width: real, k: nat)
    requires k > 0
    ensures Run(s, items, width, Ticks(k)) ==
      var prev := Run(s, items, width, Ticks(k - 1));
      var next := Step(prev.0, items, width, Tick);
      (next.0, prev.1 + Issued(next.1))
  {
    TicksSnoc(k);
  }

  /** Whatever events arrive, the controller is at rest with a valid page and progress in
      [0.2, 1) after each of them. */
  lemma {:induction false} RunPreservesValid(s: CarouselState, items: seq<MoviePoster>, width: real,
                                             events: seq<Event>)
    requires Valid(s, items)
    ensures Valid(Run(s, items, width, events).0, items)
    decreases |events|
  {
    if |events| > 0 {
      RunPreservesValid(s, items, width, events[..|events| - 1]);
    }
  }

  /** No event issues more than one command. */
  lemma {:induction false} RunIssuesAtMostOnePerEvent(s: CarouselState, items: seq<MoviePoster>,
                                                     width: real, events: seq<Event>)
    ensures |Run(s, items, width, events).1| <= |events|
    decreases |events|
  {
    if |events| > 0 {
      RunIssuesAtMostOnePerEvent(s, items, width, events[..|events| - 1]);
    }
  }

  /** Ticks delivered while the user scrolls are dropped, not queued: however many arrive,
      the state is unchanged and nothing is issued. */
  lemma {:induction false} TicksWhileScrollingAreDropped(s: CarouselState, items: seq<MoviePoster>,
                                                         width: real, k: nat)
    requires s.isScrolling
    ensures Run(s, items, width, Ticks(k)) == (s, [])
  {
    if k > 0 {
      RunOneMoreTick(s, items, width, k);
      TicksWhileScrollingAreDropped(s, items, width, k - 1);
      TickWhileScrollingIsDropped(s, items, width);
      assert [] + Issued(None) == [];
    }
  }

  /** From a freshly reset page with no scrolling, each of the first 499 ticks adds 0.0016
      and none of them issues a command. */
  lemma {:induction false} TicksBeforeAdvance(s: CarouselState, items: seq<MoviePoster>,
                                              width: real, k: nat)
    requires !s.isScrolling && s.progress == Start
    requires k < 500
    ensures Run(s, items, width, Ticks(k)) == (s.(progress := Start + k as real * 0.0016), [])
  {
    if k > 0 {
      RunOneMoreTick(s, items, width, k);
      TicksBeforeAdvance(s, items, width, k - 1);
      var mid := s.(progress := Start + (k - 1) as real * 0.0016);
      TickBelowThreshold(mid, items, width);
      assert [] + Issued(None) == [];
    }
  }

  /** The 500th tick is the first to complete the page: it issues exactly one advance
      command and progress is back at 0.2, with the index not yet moved. */
  lemma FiveHundredthTickAdvances(s: CarouselState, items: seq<MoviePoster>, width: real)
    requires !s.isScrolling && s.progress == Start
    ensures Run(s, items, width, Ticks(500)) ==
      (s, [AdvanceCommand(s.index, |items|, width)])
  {
    ThresholdTick(s, items, width, 500);
  }

  /** The tick numbered `k = 500`, taken as a parameter so the proof reasons about it
      symbolically rather than unfolding a 500-element sequence. */
  lemma ThresholdTick(s: CarouselState, items: seq<MoviePoster>, width: real, k: nat)
    requires !s.isScrolling && s.progress == Start
    requires k == 500
    ensures Run(s, items, width, Ticks(k)) == (s, [AdvanceCommand(s.index, |items|, width)])
  {
    RunOneMoreTick(s, items, width, k);
    TicksBeforeAdvance(s, items, width, k - 1);
    var mid := s.(progress := Start + (k - 1) as real * 0.0016);
    TickAtThreshold(mid, items, width);
    assert [] + Issued(Some(AdvanceCommand(s.index, |items|, width))) == [AdvanceCommand(s.index, |items|, width)];
  }


  /** Six featured posters, start-up state, 500 undisturbed ticks: one command to the second
      page's offset; the host then reports that page visible, giving index 1 and progress 0.2. */
  lemma SixPageScenario(items: seq<MoviePoster>, width: real)
    requires |items| == 6 && Distinct(items)
    ensures Run(Initial, items, width, Ticks(500)) == (Initial, [ScrollToX(width)])
    ensures Step(Initial, items, width, VisibilityChange(items[1], true)).0.index == 1
    ensures Step(Initial, items, width, VisibilityChange(items[1], true)).0.progress == Start
  {
    FiveHundredthTickAdvances(Initial, items, width);
    VisibilityOfListedPoster(Initial, items, width, 1);
  }

  /** A visibility event for the poster at position 3 of 6 moves the index there at once and
      discards any progress made on the previous page. */
  lemma VisibilityOverridesProgress(s: CarouselState, items: seq<MoviePoster>, width: real)
    requires |items| == 6 && Distinct(items) && s.index != 3
    ensures Step(s, items, width, VisibilityChange(items[3], true)) == (s.(index := 3, progress := Start), None)
  {
    VisibilityOfListedPoster(s, items, width, 3);
  }
}
