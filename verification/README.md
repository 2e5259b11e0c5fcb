# AppleTVScrollAnimation — carousel controller and age-rating model in Dafny

The app shows one screen: a paged hero carousel of TV-series posters with an animated
capsule page indicator that auto-advances on a timer, above a "Top Chart: Movies" rail.
This project models the logic underneath it as pure Dafny functions and proves its laws.

- `posters.dfy` (`Posters`): the `MoviePoster` record, the rating-to-age lookup and the
  initializer that derives `minimumAge`.
- `carousel.dfy` (`Carousel`): the controller state `{index, progress, isScrolling,
  scrollOffset}`, one transition per host callback (timer tick, visibility of a poster cell,
  scroll phase, vertical scroll geometry, and the two `onChange` observers on progress and on
  index), and `Step`, which chains a callback with the observers that fire after it. An
  auto-advance is returned as a `ScrollCommand` (`ScrollToLeadingEdge` or `ScrollToX(x)`);
  the index itself only moves when the host later reports the target page visible.
- `runs.dfy` (`Runs`): event sequences through `Step`, the at-rest invariant
  `0 <= index < n`, `0.2 <= progress < 1`, dropped ticks, and the 500-tick page cadence.
- `parallax.dfy` (`Parallax`): stretchy-header height, vertical pin, horizontal drift.
- `page_indicator.dfy` (`PageIndicator`): capsule widths and the progress fill.
- `top_chart.dfy` (`TopChart`): the 1-based rank label of the rail.
- `sequences.dfy` (`Sequences`): `firstIndex(of:)` as `FirstIndex`; `wrappers.dfy`: `Option`.

Progress is an exact `real`. The tick increment is `(1 - 0.2) / (5.0 / 0.01) = 0.0016`, so
in exact arithmetic the 500th undisturbed tick from 0.2 is the first to reach 1.

Two facts about the code shape the model:
- When progress reaches 1 the code issues a scroll command and resets progress; it does not
  move the index. The index changes when the target cell reports itself visible.
  `Runs.SixPageScenario` shows the index becoming 1 only after that visibility event.
- At rest, progress lies in [0.2, 1), because every reset goes to 0.2.

## Model

| member | source | states |
|---|---|---|
| Sequences.FirstIndex | AppleTVScrollAnimation/Views/ImageScrollAnimationView.swift:44-46 | Found exactly when the poster is in the list; the result is a position holding it, and no earlier position holds it |
| Sequences.FirstIndexOfDistinct | AppleTVScrollAnimation/Views/ImageScrollAnimationView.swift:44-47 | In a list of distinct posters, looking up the poster at position i yields i |
| Posters.MinimumAge | AppleTVScrollAnimation/Models/MoviePoster.swift:23-40 | Total on every string; the age is one of 0, 7, 13, 14, 17, 18, hence within [0, 18] |
| Posters.MinimumAgeIsTableLookup | AppleTVScrollAnimation/Models/MoviePoster.swift:24-38 | For every string the age equals the rating table's entry when the code is listed, else 0 |
| Posters.UnknownRatingIsZero | AppleTVScrollAnimation/Models/MoviePoster.swift:38 | Every code outside the table maps to the default age 0 |
| Posters.FilmRatingAges | AppleTVScrollAnimation/Models/MoviePoster.swift:25-29 | G is 0, PG is 7, PG-13 is 13, R is 17, NC-17 is 18 |
| Posters.TvRatingAges | AppleTVScrollAnimation/Models/MoviePoster.swift:31-36 | TV-Y is 0, TV-Y7 is 7, TV-G is 0, TV-PG is 7, TV-14 is 14, TV-MA is 17 |
| Posters.FilmRatingsMonotone | AppleTVScrollAnimation/Models/MoviePoster.swift:25-29 | Along G, PG, PG-13, R, NC-17 the minimum age never decreases |
| Posters.Make | AppleTVScrollAnimation/Models/MoviePoster.swift:13-21 | The record's minimum age is the lookup of its rating code, within [0, 18]; every other field is copied unchanged |
| Carousel.Increment | AppleTVScrollAnimation/Views/ImageScrollAnimationView.swift:258-261 | The increment is positive and duration/interval ticks of it take progress exactly from 0.2 to 1 |
| Carousel.TickIncrementValue | AppleTVScrollAnimation/Views/ImageScrollAnimationView.swift:123-127 | With 5 s and 0.01 s the increment is 0.0016, and 500 of them span 0.2 to 1 |
| Carousel.InitialIsValid | AppleTVScrollAnimation/Views/ImageScrollAnimationView.swift:9-13 | The start-up state (index 0, progress 0.2, not scrolling) satisfies the at-rest invariant for any non-empty list |
| Carousel.OnTimer | AppleTVScrollAnimation/Views/ImageScrollAnimationView.swift:119-128 | While scrolling the state is unchanged; otherwise progress grows by exactly 0.0016; no other field changes |
| Carousel.NextCellOffset | AppleTVScrollAnimation/Views/ImageScrollAnimationView.swift:263-266 | The next-cell offset is one page width past where the current page begins, i.e. where page index + 1 begins |
| Carousel.AdvanceCommand | AppleTVScrollAnimation/Views/ImageScrollAnimationView.swift:110-114 | The command is the leading-edge wrap exactly on the last page; otherwise it scrolls one page width past the current page's start |
| Carousel.OnProgressChange | AppleTVScrollAnimation/Views/ImageScrollAnimationView.swift:108-117 | Below 1 nothing happens; at or above 1 the advance command for the current page is issued and progress is reset to 0.2; the command is the leading-edge wrap exactly when the index is the last page; the index never changes |
| Carousel.OnVisibility | AppleTVScrollAnimation/Views/ImageScrollAnimationView.swift:42-49 | A visible listed poster sets the index to a position holding it, within the list; an invisible or unlisted poster changes nothing; no other field changes |
| Carousel.OnIndexChange | AppleTVScrollAnimation/Views/ImageScrollAnimationView.swift:129-131 | Progress is back at 0.2 and nothing else changes |
| Carousel.OnScrollPhase | AppleTVScrollAnimation/Views/ImageScrollAnimationView.swift:63-65 | The scrolling flag takes the reported phase and nothing else changes |
| Carousel.OnScrollGeometry | AppleTVScrollAnimation/Views/ImageScrollAnimationView.swift:101-106 | The stored vertical offset takes the reported value and nothing else changes |
| Carousel.Step | AppleTVScrollAnimation/Views/ImageScrollAnimationView.swift:108-131 | Preserves the at-rest invariant; a command comes only from an undropped tick, leaves the index alone and resets progress; the index changes only on a visibility event, and then progress is 0.2 |
| Carousel.TickWhileScrollingIsDropped | AppleTVScrollAnimation/Views/ImageScrollAnimationView.swift:119-122 | A tick while scrolling leaves the whole state unchanged and issues nothing |
| Carousel.TickBelowThreshold | AppleTVScrollAnimation/Views/ImageScrollAnimationView.swift:123-127 | A tick that keeps progress below 1 adds exactly 0.0016, changes nothing else and issues nothing |
| Carousel.TickAtThreshold | AppleTVScrollAnimation/Views/ImageScrollAnimationView.swift:108-117 | A tick reaching 1 resets progress to 0.2 with the index unchanged, and issues the leading-edge wrap on the last page, otherwise a scroll to x = width * (index + 1) |
| Carousel.AdvanceTargetsNextPage | AppleTVScrollAnimation/Views/ImageScrollAnimationView.swift:108-117 | Whenever the progress observer fires, its command, in either branch, scrolls to where page (index + 1) mod n begins: the next page, cyclically |
| Carousel.VisibilityOfListedPoster | AppleTVScrollAnimation/Views/ImageScrollAnimationView.swift:42-49 | Visibility of the poster at position p sets the index to p and resets progress when p differs from the index; when p is already the index, nothing changes |
| Carousel.VisibilityWithoutEffect | AppleTVScrollAnimation/Views/ImageScrollAnimationView.swift:43-46 | An unlisted poster, or a cell turning invisible, leaves the state unchanged and issues nothing |
| Runs.RunPreservesValid | AppleTVScrollAnimation/Views/ImageScrollAnimationView.swift:108-131 | After any sequence of events from a valid state, 0 <= index < n and 0.2 <= progress < 1 |
| Runs.RunIssuesAtMostOnePerEvent | AppleTVScrollAnimation/Views/ImageScrollAnimationView.swift:108-117 | A run issues no more commands than it has events |
| Runs.TicksWhileScrollingAreDropped | AppleTVScrollAnimation/Views/ImageScrollAnimationView.swift:119-122 | Any number of ticks while scrolling leave the state unchanged and issue nothing: dropped, not queued |
| Runs.TicksBeforeAdvance | AppleTVScrollAnimation/Views/ImageScrollAnimationView.swift:123-127 | From progress 0.2, after k < 500 undisturbed ticks progress is 0.2 + k * 0.0016 and no command was issued |
| Runs.FiveHundredthTickAdvances | AppleTVScrollAnimation/Views/ImageScrollAnimationView.swift:108-128 | The 500th undisturbed tick is the first to issue a command; exactly one is issued and progress is back at 0.2 with the index unchanged |
| Runs.SixPageScenario | AppleTVScrollAnimation/Views/ImageScrollAnimationView.swift:108-131 | With six posters from start-up, 500 ticks issue one scroll to x = width; the visibility of the second poster then gives index 1 and progress 0.2 |
| Runs.VisibilityOverridesProgress | AppleTVScrollAnimation/Views/ImageScrollAnimationView.swift:129-131 | Visibility of the poster at position 3 of 6 moves the index there and discards the progress made on the previous page |
| Parallax.StretchHeight | AppleTVScrollAnimation/Views/ImageScrollAnimationView.swift:144-147 | The height is at least the base, equals it exactly when the offset is not negative, and grows by the pull-down distance otherwise |
| Parallax.VerticalPin | AppleTVScrollAnimation/Views/ImageScrollAnimationView.swift:179 | The shift is never positive, is zero exactly when the offset is not negative, and equals the offset otherwise |
| Parallax.HorizontalDrift | AppleTVScrollAnimation/Views/ImageScrollAnimationView.swift:139-143 | The drift is zero only for a cell at the origin, opposes the cell's displacement and is smaller in size |
| Parallax.BottomEdgeStaysPut | AppleTVScrollAnimation/Views/ImageScrollAnimationView.swift:144-179 | Shift plus stretched height equals the base height: the image's bottom edge does not move |
| Parallax.NoGapAboveImage | AppleTVScrollAnimation/Views/ImageScrollAnimationView.swift:179 | The image's top edge is never below the viewport top, and sits on it while the page is pulled down |
| Parallax.DriftIsSlowerThanScroll | AppleTVScrollAnimation/Views/ImageScrollAnimationView.swift:139-143 | The image moves 40% of the distance its cell moves |
| Parallax.PullDownScenario | AppleTVScrollAnimation/Views/ImageScrollAnimationView.swift:144-147 | Offset -40 gives height base + 40 and shift -40; offset +40 gives height base and shift 0 |
| PageIndicator.CapsuleAt | AppleTVScrollAnimation/Views/ImageScrollAnimationView.swift:74-84 | A capsule is 20 or 6 wide; it is 20 wide and carries a fill exactly at the current index, and the fill is the progress fraction of its width |
| PageIndicator.Row | AppleTVScrollAnimation/Views/ImageScrollAnimationView.swift:69-85 | One capsule per featured poster; for a current index in range, exactly that position is expanded, and its capsule is 20 wide with fill 20 * progress; every other capsule is 6 wide with no fill |
| PageIndicator.OnlyCurrentIsExpanded | AppleTVScrollAnimation/Views/ImageScrollAnimationView.swift:69-77 | The set of positions drawn 20 wide is exactly the current index, whose capsule is 20 wide with fill 20 * progress; every other capsule is 6 wide with no fill |
| PageIndicator.ExactlyOneFilled | AppleTVScrollAnimation/Views/ImageScrollAnimationView.swift:78-85 | Exactly one capsule carries a fill, the current page's |
| PageIndicator.FillWithinCapsule | AppleTVScrollAnimation/Views/ImageScrollAnimationView.swift:78-82 | Under the at-rest invariant the fill width 20 * progress lies in [4, 20) |
| TopChart.Rank | AppleTVScrollAnimation/Views/ImageScrollAnimationView.swift:219-225 | A label exists exactly for listed movies; it lies in 1..n and names the position holding the movie, counted from 1 |
| TopChart.RankOfPosition | AppleTVScrollAnimation/Views/ImageScrollAnimationView.swift:219-225 | In a chart of distinct movies, the movie at position i is labelled i + 1 |

## Left out

- View tree, fonts, colours, colour scheme, padding and scale of the capsule row, capsule height, and the two fixed gradient overlays: constant styling, not computed from state.
- `scrollTransition` opacity, blur and scale of carousel and rail cells: applied by the framework.
- The timer publisher and its lifetime: modelled as the abstract `Tick` event.
- Scroll animation of `ScrollPosition`: the controller's output is the command; the host reports where scrolling ends through later visibility events.
- `GeometryReader` and `onScrollGeometryChange`: the page width and the offsets `scrollOffset` and `minX` are given real inputs.
- UUID generation: the id is a parameter of `Posters.Make`; equality of posters compares every field, as the synthesized `Hashable` does.
- The mock poster and movie arrays: static content.
- Year-string formatting in the rail (`replacingOccurrences`): display only.
- Floating-point rounding of the `CGFloat` progress: the model uses exact reals so that the progress laws can be stated without rounding.
- An empty featured list: `Carousel.Valid` requires at least one poster, because the wrap test compares against `count - 1`.
- Carousel.Increment: requires a positive duration and interval; the code only calls it with 5.0 and 0.01. Outside that domain IEEE division gives a zero, negative, infinite or NaN increment; none of these is modelled.
