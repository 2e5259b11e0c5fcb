/** The 1-based rank label shown beside each movie of the top-chart rail. */
module TopChart {
  import opened Wrappers
  import opened Sequences
  import opened Posters

  /** The rank of `movie` in `chart`, counted from 1; no label when the movie is not listed. */
  function Rank(chart: seq<MoviePoster>, movie: MoviePoster): (r: Option<int>)
    ensures r.Some? <==> movie in chart
    ensures r.Some? ==> 1 <= r.value <= |chart| && chart[r.value - 1] == movie
  {
    match FirstIndex(chart, movie)
    case None => None
    case Some(i) => Some(i + 1)
  }

  /** In a chart without repeats, the movie at position `i` is labelled `i + 1`. */
  lemma RankOfPosition(chart: seq<MoviePoster>, i: nat)
    requires Distinct(chart)
    requires i < |chart|
    ensures Rank(chart, chart[i]) == Some(i + 1)
  {
    FirstIndexOfDistinct(chart, i);
  }
}
