/** Position lookup in an ordered collection, as done by Swift's `Array.firstIndex(of:)`. */
module Sequences {
  import opened Wrappers

  /** No element occurs twice; true of poster lists because every poster carries its own id. */
  predicate Distinct<T(==)>(xs: seq<T>) {
    forall i, j :: 0 <= i < j < |xs| ==> xs[i] != xs[j]
  }

  /** The position of the first occurrence of `x` in `xs`, or None when `x` does not occur. */
  function FirstIndex<T(==)>(xs: seq<T>, x: T): (r: Option<nat>)
    ensures r.Some? <==> x in xs
    ensures r.Some? ==> r.value < |xs| && xs[r.value] == x
    ensures r.Some? ==> forall j :: 0 <= j < r.value ==> xs[j] != x
  {
    if |xs| == 0 then None
    else if xs[0] == x then Some(0)
    else
      match FirstIndex(xs[1..], x)
      case None => None
      case Some(i) => Some(i + 1)
  }

  /** In a list without repetitions, looking up the element at position `i` gives back `i`. */
  lemma FirstIndexOfDistinct<T>(xs: seq<T>, i: nat)
    requires Distinct(xs)
    requires i < |xs|
    ensures FirstIndex(xs, xs[i]) == Some(i)
  {
  }
}
