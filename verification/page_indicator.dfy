/** The capsule row under the carousel: one capsule per featured poster, the current one
    expanded and partly filled in proportion to the auto-advance progress. */
module PageIndicator {
  import opened Wrappers
  import Carousel

  const ExpandedWidth: real := 20.0
  const CompactWidth: real := 6.0

  /** One capsule: its width, and the width of the white fill drawn over it, if any. */
  datatype Capsule = Capsule(width: real, fill: Option<real>)

  /** The capsule at position `i` when the page at `index` is current: only the current
      page's capsule is expanded, and only it carries a fill, proportional to the progress. */
  function CapsuleAt(index: int, i: int, progress: real): (c: Capsule)
    ensures c.width == ExpandedWidth || c.width == CompactWidth
    ensures c.width == ExpandedWidth <==> i == index
    ensures c.fill.Some? <==> i == index
    ensures c.fill.Some? ==> c.fill.value == progress * c.width
  {
    if i == index then Capsule(ExpandedWidth, Some(ExpandedWidth * progress))
    else Capsule(CompactWidth, None)
  }

  /** The whole row for a featured list of `count` posters: one capsule per poster, the
      current page's expanded to 20 and filled to 20 * progress, every other one 6 wide
      and unfilled. */
  function Row(count: nat, index: int, progress: real): (caps: seq<Capsule>)
    ensures |caps| == count
    ensures 0 <= index < count ==> ExpandedPositions(caps) == {index}
    ensures 0 <= index < count ==> caps[index] == Capsule(20.0, Some(20.0 * progress))
    ensures forall i :: 0 <= i < count && i != index ==> caps[i] == Capsule(6.0, None)
  {
    seq(count, i => CapsuleAt(index, i, progress))
  }

  /** Positions whose capsule is drawn expanded. */
  function ExpandedPositions(caps: seq<Capsule>): set<int> {
    set i | 0 <= i < |caps| && caps[i].width == ExpandedWidth
  }

  /** Number of capsules that carry a fill. */
  function FilledCount(caps: seq<Capsule>): nat {
    if |caps| == 0 then 0
    else FilledCount(caps[..|caps| - 1]) + (if caps[|caps| - 1].fill.Some? then 1 else 0)
  }

  /** Exactly the current page's capsule is expanded. */
  lemma OnlyCurrentIsExpanded(count: nat, index: int, progress: real)
    requires 0 <= index < count
    ensures ExpandedPositions(Row(count, index, progress)) == {index}
    ensures Row(count, index, progress)[index] == Capsule(20.0, Some(20.0 * progress))
    ensures forall i :: 0 <= i < count && i != index ==> Row(count, index, progress)[i] == Capsule(6.0, None)
  {
    var caps := Row(count, index, progress);
    assert caps[index].width == ExpandedWidth;
  }

  /** The first `k` capsules of a row carry as many fills as the current page lies among them. */
  lemma {:induction false} FilledCountPrefix(count: nat, index: int, progress: real, k: nat)
    requires k <= count
    ensures FilledCount(Row(count, index, progress)[..k]) == (if 0 <= index < k then 1 else 0)
  {
    if k > 0 {
      var caps := Row(count, index, progress);
      assert caps[..k][..k - 1] == caps[..k - 1];
      FilledCountPrefix(count, index, progress, k - 1);
    }
  }

  /** Exactly one capsule carries a fill: the current page's. */
  lemma ExactlyOneFilled(count: nat, index: int, progress: real)
    requires 0 <= index < count
    ensures FilledCount(Row(count, index, progress)) == 1
    ensures Row(count, index, progress)[index].fill.Some?
  {
    var caps := Row(count, index, progress);
    FilledCountPrefix(count, index, progress, count);
    assert caps[..count] == caps;
  }

  /** Under the controller's at-rest invariant the fill width lies in [4, 20). */
  lemma FillWithinCapsule(count: nat, index: int, progress: real)
    requires 0 <= index < count
    requires Carousel.Start <= progress < 1.0
    ensures 4.0 <= Row(count, index, progress)[index].fill.value < ExpandedWidth
  {
  }
}
