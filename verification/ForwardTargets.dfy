/** Which pane a move heads for: the nearest one facing it, on planned frames the very next one. */
module ForwardTargets {
  import opened Geometry
  import opened BspTree
  import opened GeometricMove

  // ---------------------------------------------------------------- the least region comes first

  ghost predicate Orders(le: (Region, Region) -> bool) {
    && (forall a, b :: le(a, b) || le(b, a))
    && (forall a, b, c :: le(a, b) && le(b, c) ==> le(a, c))
  }

  lemma {:induction false} FirstIsLeast(regions: seq<Region>, le: (Region, Region) -> bool, r: Region)
    requires Orders(le) && r in regions
    ensures le(SortRegions(regions, le)[0], r)
  {
    var sorted := SortRegions(regions[1..], le);
    if sorted != [] {
      var least := sorted[0];
      assert regions[1..] != [];
      if r == regions[0] {
        assert le(r, r) && (le(r, least) || le(least, r));
      } else {
        FirstIsLeast(regions[1..], le, r);
        assert le(regions[0], least) && le(least, r) ==> le(regions[0], r);
      }
    } else {
      assert regions == [regions[0]];
      assert le(r, r);
    }
  }

  lemma NoFartherOrders(origin: Region, dimension: Axis)
    ensures Orders((a: Region, b: Region) => NoFarther(origin, dimension, a, b))
  {
    hide Overlap, IntervalGap, Squared, CenterOffset;
  }

  /** A forward pane there is makes for a target, and the target is forward and no farther than any forward pane. */
  lemma TargetIsNearest(origin: Region, leaves: seq<Region>, dimension: Axis, before: bool, r: Region)
    requires r in leaves && IsForward(origin, r, dimension, before)
    ensures var target := ForwardTarget(origin, leaves, dimension, before);
            target.Some? && IsForward(origin, target.value, dimension, before) && NoFarther(origin, dimension, target.value, r)
  {
    hide IsForward, NoFarther, SortRegions, Keep;
    var candidates := Keep(leaves, (x: Region) => IsForward(origin, x, dimension, before));
    var le := (a: Region, b: Region) => NoFarther(origin, dimension, a, b);
    NoFartherOrders(origin, dimension);
    FirstIsLeast(candidates, le, r);
    var sorted := SortRegions(candidates, le);
    assert sorted[0] in sorted;
    assert sorted[0] in candidates;
  }

  lemma TargetIsForward(origin: Region, leaves: seq<Region>, dimension: Axis, before: bool)
    requires ForwardTarget(origin, leaves, dimension, before).Some?
    ensures IsForward(origin, ForwardTarget(origin, leaves, dimension, before).value, dimension, before)
  {
    hide IsForward, NoFarther, SortRegions, Keep;
    var candidates := Keep(leaves, (x: Region) => IsForward(origin, x, dimension, before));
    var sorted := SortRegions(candidates, (a: Region, b: Region) => NoFarther(origin, dimension, a, b));
    assert sorted[0] in sorted;
    assert sorted[0] in candidates;
  }

  // ---------------------------------------------------------------- panes side by side

  /** `b` follows `a` a gap further along the axis, just as broad. */
  predicate Follows(a: Frame, b: Frame, axis: Axis, gap: int) {
    && Start(b, axis) == End(a, axis) + gap
    && Start(a, Other(axis)) == Start(b, Other(axis)) && Length(a, Other(axis)) == Length(b, Other(axis))
  }

  /** `b` is next to `a` in the direction of a move. */
  predicate NextTo(a: Frame, b: Frame, axis: Axis, before: bool, gap: int) {
    if before then Follows(b, a, axis, gap) else Follows(a, b, axis, gap)
  }

  lemma NextIsForward(origin: Region, next: Region, axis: Axis, before: bool, gap: int)
    requires gap >= 0 && NextTo(origin.frame, next.frame, axis, before, gap) && origin.node != next.node
    requires Length(origin.frame, axis) > BORDER_TOLERANCE && Length(next.frame, axis) > BORDER_TOLERANCE
    ensures IsForward(origin, next, axis, before)
  {
  }

  lemma Square(a: int, b: int)
    requires 0 <= a < b
    ensures Squared(a) < Squared(b)
  {
    assert a * a <= a * b;
    assert a * b < b * b;
  }

  lemma FacingDistance(origin: Region, a: Region, b: Region, axis: Axis)
    requires Overlap(origin.frame, a.frame, Other(axis)) > 0
    requires Overlap(origin.frame, b.frame, Other(axis)) > 0 ==>
               IntervalGap(origin.frame, a.frame, axis) < IntervalGap(origin.frame, b.frame, axis)
    ensures !NoFarther(origin, axis, b, a)
  {
    if Overlap(origin.frame, b.frame, Other(axis)) > 0 {
      Square(IntervalGap(origin.frame, a.frame, axis), IntervalGap(origin.frame, b.frame, axis));
      assert IntervalGap(origin.frame, a.frame, Other(axis)) == 0 == IntervalGap(origin.frame, b.frame, Other(axis));
      hide IntervalGap, Squared, Overlap, CenterOffset;
    }
  }

  /** Of panes a gap apart, none is as near as the one next to the moved pane. */
  lemma NextIsNearest(origin: Region, next: Region, other: Region, axis: Axis, before: bool, gap: int)
    requires gap >= 0 && Positive(origin.frame) && Positive(next.frame) && Positive(other.frame)
    requires NextTo(origin.frame, next.frame, axis, before, gap) && IsForward(origin, other, axis, before)
    requires Separated(origin.frame, other.frame, gap) && Separated(next.frame, other.frame, gap)
    ensures !NoFarther(origin, axis, other, next)
  {
    hide NoFarther;
    FacingDistance(origin, next, other, axis);
  }

  predicate Between(a: Frame, middle: Frame, b: Frame, axis: Axis, gap: int) {
    End(a, axis) + gap <= Start(middle, axis) && End(middle, axis) + gap <= Start(b, axis)
  }

  predicate Within(a: Frame, outer: Frame, axis: Axis) {
    Start(outer, axis) <= Start(a, axis) && End(a, axis) <= End(outer, axis)
  }

  /** A pane in between, no broader than the moved one, is a nearer forward pane. */
  lemma BetweenIsNearer(origin: Region, middle: Region, target: Region, axis: Axis, before: bool, gap: int)
    requires gap >= 0 && Positive(origin.frame) && Positive(middle.frame) && Positive(target.frame)
    requires middle.node != origin.node && Within(middle.frame, origin.frame, Other(axis))
    requires Length(origin.frame, axis) > BORDER_TOLERANCE && Length(middle.frame, axis) > BORDER_TOLERANCE
    requires if before then Between(target.frame, middle.frame, origin.frame, axis, gap)
             else Between(origin.frame, middle.frame, target.frame, axis, gap)
    ensures IsForward(origin, middle, axis, before) && !NoFarther(origin, axis, target, middle)
  {
    hide NoFarther;
    FacingDistance(origin, middle, target, axis);
  }
}
