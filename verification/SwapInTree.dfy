/** The swap of two panes inside a whole layout, whatever its windows are constrained to. */
module SwapInTree {
  import opened Geometry
  import opened BspTree
  import opened Partition
  import opened Planner
  import opened Subtrees
  import opened Insertion
  import opened GeometricMove
  import opened GeometricMoveProofs
  import opened SwapTheorems
  import opened RunBounds

  /** The rectangle a plan gives to a pane. */
  function RectOf(tree: Node, rect: Frame, gap: int, resolve: Resolver, part: Node): Frame {
    if tree == part || tree.Leaf? then rect else
      var r := Halve(tree, rect, gap, resolve);
      if Sub(tree.first, part) then RectOf(tree.first, FirstRect(rect, tree.axis, r.first), gap, resolve, part)
      else RectOf(tree.second, SecondRect(rect, tree.axis, r.first, r.second, gap), gap, resolve, part)
  }

  lemma {:induction false} PartIsSolved(tree: Node, rect: Frame, gap: int, resolve: Resolver, part: Node)
    requires Distinct(tree) && Sub(tree, part) && Solve(tree, rect, gap, resolve).Some? && Positive(rect)
    ensures var r := RectOf(tree, rect, gap, resolve, part);
            && Positive(r) && Solve(part, r, gap, resolve).Some?
            && Shows(Solve(tree, rect, gap, resolve).value, part, Solve(part, r, gap, resolve).value)
  {
    if tree != part {
      PlanHalves(tree, rect, gap, resolve);
      hide Halve, Solve, Has, Bag, Distinct, Shows;
      var plan := Solve(tree, rect, gap, resolve).value;
      var r := Halve(tree, rect, gap, resolve);
      var in1 := Sub(tree.first, part);
      var half := if in1 then tree.first else tree.second;
      var halfRect := if in1 then FirstRect(rect, tree.axis, r.first) else SecondRect(rect, tree.axis, r.first, r.second, gap);
      PartIsSolved(half, halfRect, gap, resolve, part);
      ShowsThrough(plan, Solve(half, halfRect, gap, resolve).value, half, part,
                   Solve(part, RectOf(half, halfRect, gap, resolve, part), gap, resolve).value);
    } else {
      hide Halve, Solve;
    }
  }

  lemma ShowsThrough(plan: Frames, inHalf: Frames, half: Node, part: Node, planned: Frames)
    requires Sub(half, part) && Shows(inHalf, part, planned)
    requires forall id :: Has(half, id) ==> id in plan && id in inHalf && plan[id] == inHalf[id]
    ensures Shows(plan, part, planned)
  {
    hide Sub, Has;
    forall id | Has(part, id) ensures Has(half, id) { SubHas(half, part, id); }
  }

  lemma PlanHalves(tree: Node, rect: Frame, gap: int, resolve: Resolver)
    requires tree.Split? && Distinct(tree) && Solve(tree, rect, gap, resolve).Some? && Positive(rect)
    ensures var r := Halve(tree, rect, gap, resolve);
            var firstRect := FirstRect(rect, tree.axis, r.first);
            var secondRect := SecondRect(rect, tree.axis, r.first, r.second, gap);
            var plan := Solve(tree, rect, gap, resolve).value;
            && Distinct(tree.first) && Distinct(tree.second) && Positive(firstRect) && Positive(secondRect)
            && Solve(tree.first, firstRect, gap, resolve).Some? && Solve(tree.second, secondRect, gap, resolve).Some?
            && (forall id :: Has(tree.first, id) ==> id in plan && plan[id] == Solve(tree.first, firstRect, gap, resolve).value[id])
            && (forall id :: Has(tree.second, id) ==> id in plan && plan[id] == Solve(tree.second, secondRect, gap, resolve).value[id])
  {
    hide Halve, Distinct, Has;
    SolveOfSplit(tree, rect, gap, resolve);
    SplitLengths(tree, rect, gap, resolve);
    DistinctParts(tree);
  }

  /** A split whose halves are exchanged for interchangeable ones keeps its divider and is interchangeable itself. */
  lemma SplitStays(tree: Node, first: Node, second: Node, rect: Frame, gap: int, resolve: Resolver)
    requires gap >= 0 && tree.Split? && Positive(rect) && Solve(tree, rect, gap, resolve).Some?
    requires var r := Halve(tree, rect, gap, resolve);
             && Interchangeable(tree.first, first, FirstRect(rect, tree.axis, r.first), gap, resolve)
             && Interchangeable(tree.second, second, SecondRect(rect, tree.axis, r.first, r.second, gap), gap, resolve)
    ensures var other := tree.(first := first, second := second);
            && Halve(other, rect, gap, resolve) == Halve(tree, rect, gap, resolve)
            && Interchangeable(tree, other, rect, gap, resolve)
  {
    hide Solve, Interchangeable, AggregateBounds, AsGood, PartitionLengths;
    var other := tree.(first := first, second := second);
    SolveOfSplit(tree, rect, gap, resolve);
    SplitLengths(tree, rect, gap, resolve);
    var r := Halve(tree, rect, gap, resolve);
    var firstRect := FirstRect(rect, tree.axis, r.first);
    var secondRect := SecondRect(rect, tree.axis, r.first, r.second, gap);
    InterchangeableAlong(tree.first, first, firstRect, gap, resolve, tree.axis);
    InterchangeableAlong(tree.second, second, secondRect, gap, resolve, tree.axis);
    SlackPartition(Length(rect, tree.axis), gap, tree.ratio,
                   AggregateBounds(tree.first, tree.axis, gap, resolve), AggregateBounds(tree.second, tree.axis, gap, resolve),
                   AggregateBounds(first, tree.axis, gap, resolve), AggregateBounds(second, tree.axis, gap, resolve));
    SplitAsGood(tree, other, rect, firstRect, secondRect, gap, resolve, Vertical);
    SplitAsGood(tree, other, rect, firstRect, secondRect, gap, resolve, Horizontal);
    BothAxes(tree, other, rect, gap, resolve);
  }

  lemma BothAxes(a: Node, b: Node, rect: Frame, gap: int, resolve: Resolver)
    requires AsGood(AggregateBounds(a, Vertical, gap, resolve), AggregateBounds(b, Vertical, gap, resolve), Length(rect, Vertical))
    requires AsGood(AggregateBounds(a, Horizontal, gap, resolve), AggregateBounds(b, Horizontal, gap, resolve),
                    Length(rect, Horizontal))
    ensures Interchangeable(a, b, rect, gap, resolve)
  {
  }

  lemma SplitAsGood(tree: Node, other: Node, rect: Frame, firstRect: Frame, secondRect: Frame, gap: int, resolve: Resolver, axis: Axis)
    requires gap >= 0 && tree.Split? && other.Split? && tree.axis == other.axis
    requires Length(firstRect, axis) > 0 && Length(secondRect, axis) > 0
    requires if tree.axis == axis then Length(firstRect, axis) + gap + Length(secondRect, axis) == Length(rect, axis)
             else Length(firstRect, axis) == Length(rect, axis) == Length(secondRect, axis)
    requires Solve(tree.first, firstRect, gap, resolve).Some? && Solve(tree.second, secondRect, gap, resolve).Some?
    requires Interchangeable(tree.first, other.first, firstRect, gap, resolve)
    requires Interchangeable(tree.second, other.second, secondRect, gap, resolve)
    ensures AsGood(AggregateBounds(tree, axis, gap, resolve), AggregateBounds(other, axis, gap, resolve), Length(rect, axis))
  {
    hide Solve, Interchangeable, AggregateBounds, AsGood;
    BoundsPropagate(tree.first, firstRect, gap, resolve, axis);
    BoundsPropagate(tree.second, secondRect, gap, resolve, axis);
    InterchangeableAlong(tree.first, other.first, firstRect, gap, resolve, axis);
    InterchangeableAlong(tree.second, other.second, secondRect, gap, resolve, axis);
    HalvesComeToTheSame(tree, other, axis, Length(firstRect, axis), Length(secondRect, axis), Length(rect, axis), gap, resolve);
  }

  lemma AlreadyInterchangeable(a: Node, rect: Frame, gap: int, resolve: Resolver)
    ensures Interchangeable(a, a, rect, gap, resolve)
  {
  }

  /** Re-planning a tree in which a pane was exchanged, in place, for one that demands the same changes that pane's
      frames only. */
  lemma {:induction false} ReplacePlansInPlace(tree: Node, rect: Frame, gap: int, resolve: Resolver, part: Node, other: Node)
    requires gap >= 0 && Distinct(tree) && Sub(tree, part) && Bag(other) == Bag(part) && Positive(rect)
    requires Solve(tree, rect, gap, resolve).Some?
    requires var r := RectOf(tree, rect, gap, resolve, part);
             Solve(other, r, gap, resolve).Some? && Interchangeable(part, other, r, gap, resolve)
    ensures Solve(Replace(tree, part, other), rect, gap, resolve)
            == Some(Solve(tree, rect, gap, resolve).value
                  + Solve(other, RectOf(tree, rect, gap, resolve, part), gap, resolve).value)
    ensures Interchangeable(tree, Replace(tree, part, other), rect, gap, resolve)
  {
    hide Interchangeable;
    var r := RectOf(tree, rect, gap, resolve, part);
    var replanned := Solve(other, r, gap, resolve).value;
    if tree == part {
      WholeIsReplaced(Solve(tree, rect, gap, resolve).value, replanned, tree, other);
    } else {
      hide Halve, Solve;
      var id := SomeWindow(part);
      OneSide(tree, part, id);
      var h := Halve(tree, rect, gap, resolve);
      SolveOfSplit(tree, rect, gap, resolve);
      PlanHalves(tree, rect, gap, resolve);
      HasInParts(tree);
      var firstRect := FirstRect(rect, tree.axis, h.first);
      var secondRect := SecondRect(rect, tree.axis, h.first, h.second, gap);
      var a := Solve(tree.first, firstRect, gap, resolve).value;
      var b := Solve(tree.second, secondRect, gap, resolve).value;
      var replaced := Replace(tree, part, other);
      if Sub(tree.first, part) {
        ReplacePlansInPlace(tree.first, firstRect, gap, resolve, part, other);
        ReplaceMissing(tree.second, part, other);
        AlreadyInterchangeable(tree.second, secondRect, gap, resolve);
        SplitStays(tree, replaced.first, replaced.second, rect, gap, resolve);
        SolveFromHalves(replaced, rect, gap, resolve);
        MergeAssociates(b, a, replanned);
      } else {
        ReplacePlansInPlace(tree.second, secondRect, gap, resolve, part, other);
        ReplaceMissing(tree.first, part, other);
        AlreadyInterchangeable(tree.first, firstRect, gap, resolve);
        SplitStays(tree, replaced.first, replaced.second, rect, gap, resolve);
        SolveFromHalves(replaced, rect, gap, resolve);
        SubBag(tree.second, part);
        DistinctParts(tree);
        forall id | id in a ensures id !in b && id !in replanned {
          assert Has(tree.first, id);
        }
        MergeOver(a, b, replanned);
      }
    }
  }

  lemma WholeIsReplaced(planned: Frames, replanned: Frames, tree: Node, other: Node)
    requires Bag(tree) == Bag(other)
    requires forall id :: id in planned <==> Has(tree, id)
    requires forall id :: id in replanned <==> Has(other, id)
    ensures planned + replanned == replanned
  {
    hide Bag;
    forall id ensures id in planned <==> id in replanned {
      assert Has(tree, id) <==> Has(other, id);
    }
    Covered(planned, replanned);
  }

  lemma Covered(planned: Frames, replanned: Frames)
    requires forall id :: id in planned <==> id in replanned
    ensures planned + replanned == replanned
  {
  }

  lemma SolveFromHalves(node: Node, rect: Frame, gap: int, resolve: Resolver)
    requires node.Split? && Halve(node, rect, gap, resolve).feasible
    ensures var r := Halve(node, rect, gap, resolve);
            var a := Solve(node.first, FirstRect(rect, node.axis, r.first), gap, resolve);
            var b := Solve(node.second, SecondRect(rect, node.axis, r.first, r.second, gap), gap, resolve);
            a.Some? && b.Some? ==> Solve(node, rect, gap, resolve) == Some(b.value + a.value)
  {
    hide Halve;
  }

  /** Replacing twice in the same place is replacing once. */
  lemma {:induction false} ReplaceAgain(tree: Node, part: Node, middle: Node, last: Node)
    requires Distinct(tree) && Sub(tree, part) && Bag(middle) == Bag(part)
    ensures Replace(Replace(tree, part, middle), middle, last) == Replace(tree, part, last)
  {
    if tree != part {
      var id := SomeWindow(part);
      assert Bag(tree)[id] <= 1;
      OneSide(tree, part, id);
      OneSideByWindow(tree, part, middle);
      DistinctParts(tree);
      RearrangeConserves(tree, part, middle);
      ProperPartIsSmaller(tree, part);
      hide Bag, Has, Distinct;
      ReplaceOnce(tree, part, middle);
      ReplaceOnce(tree, part, last);
      var halfway := Replace(tree, part, middle);
      if Sub(tree.first, part) {
        ReplaceAgain(tree.first, part, middle, last);
        ReplaceMissing(tree.second, part, middle);
        ReplaceMissing(tree.second, part, last);
        ReplaceMissing(tree.second, middle, last);
      } else {
        ReplaceAgain(tree.second, part, middle, last);
        ReplaceMissing(tree.first, part, middle);
        ReplaceMissing(tree.first, part, last);
        ReplaceMissing(tree.first, middle, last);
      }
      ReplaceOnce(halfway, middle, last);
    }
  }

  lemma ReplaceOnce(tree: Node, part: Node, other: Node)
    requires tree.Split? && tree != part
    ensures Replace(tree, part, other)
            == tree.(first := Replace(tree.first, part, other), second := Replace(tree.second, part, other))
  {
  }

  lemma OneSideByWindow(tree: Node, part: Node, other: Node)
    requires tree.Split? && Distinct(tree) && Bag(part) == Bag(other)
    ensures Sub(tree.first, part) ==> !Sub(tree.second, other)
    ensures Sub(tree.second, part) ==> !Sub(tree.first, other)
  {
    var id := SomeWindow(part);
    DistinctParts(tree);
    if Sub(tree.first, part) { SubHas(tree.first, part, id); }
    if Sub(tree.second, part) { SubHas(tree.second, part, id); }
    if Sub(tree.first, other) { SubHas(tree.first, other, id); }
    if Sub(tree.second, other) { SubHas(tree.second, other, id); }
  }

  lemma {:induction false} ProperPartIsSmaller(tree: Node, part: Node)
    requires Sub(tree, part) && tree != part
    ensures Bag(part) != Bag(tree)
  {
    hide Bag;
    BagCountsLeaves(tree);
    BagCountsLeaves(part);
    FewerLeaves(tree, part);
    assert |multiset(Leaves(tree))| == |Leaves(tree)| && |multiset(Leaves(part))| == |Leaves(part)|;
  }

  lemma {:induction false} FewerLeaves(tree: Node, part: Node)
    requires Sub(tree, part)
    ensures tree == part || |Leaves(part)| < |Leaves(tree)|
  {
    if tree != part {
      if Sub(tree.first, part) { FewerLeaves(tree.first, part); } else { FewerLeaves(tree.second, part); }
    }
  }

  // ---------------------------------------------------------------- the theorem

  lemma {:induction false} HullAgrees(node: Node, a: Frames, b: Frames)
    requires forall id :: Has(node, id) ==> id in a && id in b && a[id] == b[id]
    ensures Hull(node, a) == Hull(node, b)
  {
    if node.Split? {
      HasInParts(node);
      HullAgrees(node.first, a, b);
      HullAgrees(node.second, a, b);
    } else {
      assert Has(node, node.id);
    }
  }

  lemma MeasureAgrees(run: Node, axis: Axis, a: Frames, b: Frames)
    requires forall id :: Has(run, id) ==> id in a && id in b && a[id] == b[id]
    ensures Measure(Flatten(run, axis), a, axis) == Measure(Flatten(run, axis), b, axis)
  {
    hide Hull, Flatten, Bag;
    var panes := Flatten(run, axis);
    forall k | 0 <= k < |panes| ensures Hull(panes[k], a) == Hull(panes[k], b) {
      FlattenSub(run, axis, k);
      SubBag(run, panes[k]);
      HullAgrees(panes[k], a, b);
    }
  }

  /** What the move computes from observed regions is the swap of measured panes. */
  lemma SwapAlongAxisIsSwapped(tree: Node, ancestor: Node, origin: Region, target: Region, frames: Frames,
                               axis: Axis, gap: int)
    requires Visit(tree, [], frames).1.Some? && Sub(tree, ancestor)
    ensures var panes := Flatten(ancestor, axis);
            var i, j := IndexOf(panes, origin.node), IndexOf(panes, target.node);
            i >= 0 && j >= 0 ==>
              SwapAlongAxis(tree, ancestor, origin, target, Visit(tree, [], frames).0, axis, gap)
              == Some(Replace(tree, ancestor, Swapped(ancestor, axis, frames, i, j, gap)))
  {
    hide Visit, Sub, Flatten, Rebuild, Hull, FrameOf, Replace;
    var regions := Visit(tree, [], frames).0;
    var panes := Flatten(ancestor, axis);
    var i, j := IndexOf(panes, origin.node), IndexOf(panes, target.node);
    if i >= 0 && j >= 0 {
      var ordered := panes[i := target.node][j := origin.node];
      var turned := SwapPanes(Measure(panes, frames, axis), i, j);
      forall k | 0 <= k < |panes| ensures FrameOf(panes[k], regions) == Hull(panes[k], frames) {
        FlattenSub(ancestor, axis, k);
        SubTransitive(tree, ancestor, panes[k]);
        FrameOfIsHull(tree, frames, panes[k]);
      }
      SizedIsMeasured(ordered, regions, axis, frames);
      var measured := Measure(ordered, frames, axis);
      assert measured == turned;
    }
  }

  lemma {:induction false} SizedIsMeasured(nodes: seq<Node>, regions: seq<Region>, axis: Axis, frames: Frames)
    requires forall k :: 0 <= k < |nodes| ==> FrameOf(nodes[k], regions) == Hull(nodes[k], frames)
    ensures Sized(nodes, regions, axis) == Measure(nodes, frames, axis)
  {
    hide FrameOf, Hull;
    if nodes != [] {
      SizedIsMeasured(nodes[1..], regions, axis, frames);
    }
  }

  /** Swapping two panes of a run in a layout, on the frames of its own plan. The new tree is planned in the same
      content; windows outside the run keep their frames, each pane of the run keeps its length in its new place, and
      the same swap in the new plan restores every frame. */
  lemma SwapIsUndoneBySwap(tree: Node, content: Frame, gap: int, resolve: Resolver, ancestor: Node, axis: Axis, i: nat, j: nat)
    requires gap >= 0 && Distinct(tree) && Positive(content) && Sub(tree, ancestor)
    requires i < |Flatten(ancestor, axis)| && j < |Flatten(ancestor, axis)|
    requires Solve(tree, content, gap, resolve).Some?
    ensures var before := Solve(tree, content, gap, resolve).value;
            var run := Swapped(ancestor, axis, before, i, j, gap);
            var swapped := Replace(tree, ancestor, run);
            var after := Solve(swapped, content, gap, resolve);
            && after.Some?
            && (forall id :: Has(tree, id) && !Has(ancestor, id) ==>
                  id in after.value && id in before && after.value[id] == before[id])
            && (forall pane :: pane in Flatten(ancestor, axis) ==>
                  Length(Hull(pane, after.value), axis) == Length(Hull(pane, before), axis))
            && |Flatten(run, axis)| == |Flatten(ancestor, axis)|
            && Solve(Replace(swapped, run, Swapped(run, axis, after.value, i, j, gap)), content, gap, resolve)
               == Some(before)
  {
    hide Solve, Flatten, Bag, Replace, Hull, Distinct, RectOf, Sub, Rebuild, Measure, SwapPanes, Interchangeable;
    var before := Solve(tree, content, gap, resolve).value;
    var rect := RectOf(tree, content, gap, resolve, ancestor);
    PartIsSolved(tree, content, gap, resolve, ancestor);
    SubDistinct(tree, ancestor);
    var mine := Solve(ancestor, rect, gap, resolve).value;
    MeasureAgrees(ancestor, axis, before, mine);
    SwapCarriesLengths(ancestor, rect, axis, gap, resolve, i, j);
    var run := Swapped(ancestor, axis, mine, i, j, gap);
    assert run == Swapped(ancestor, axis, before, i, j, gap);
    var again := SwappedTwice(ancestor, rect, axis, gap, resolve, i, j);
    var theirs := Solve(run, rect, gap, resolve).value;
    ReplacePlansInPlace(tree, content, gap, resolve, ancestor, run);
    var after := before + theirs;
    MeasureAgrees(run, axis, after, theirs);
    assert again == Swapped(run, axis, after, i, j, gap);
    ReplaceAgain(tree, ancestor, run, again);
    ReplacePlansInPlace(tree, content, gap, resolve, ancestor, again);
    assert before + mine == before;
    forall pane | pane in Flatten(ancestor, axis)
      ensures Length(Hull(pane, after), axis) == Length(Hull(pane, before), axis)
    {
      PaneAgrees(ancestor, axis, pane, before, mine);
      PaneAgrees(ancestor, axis, pane, after, theirs);
    }
  }

  /** What the run becomes by the swap, and by the second one, has the same windows and makes the same demands. */
  lemma SwappedTwice(ancestor: Node, rect: Frame, axis: Axis, gap: int, resolve: Resolver, i: nat, j: nat) returns (again: Node)
    requires gap >= 0 && Distinct(ancestor) && Positive(rect) && Solve(ancestor, rect, gap, resolve).Some?
    requires i < |Flatten(ancestor, axis)| && j < |Flatten(ancestor, axis)|
    ensures var run := Swapped(ancestor, axis, Solve(ancestor, rect, gap, resolve).value, i, j, gap);
            && Solve(run, rect, gap, resolve).Some? && Bag(run) == Bag(ancestor)
            && Interchangeable(ancestor, run, rect, gap, resolve)
            && |Flatten(run, axis)| == |Flatten(ancestor, axis)|
            && again == Swapped(run, axis, Solve(run, rect, gap, resolve).value, i, j, gap)
            && Bag(again) == Bag(ancestor)
            && Solve(again, rect, gap, resolve) == Solve(ancestor, rect, gap, resolve)
            && Interchangeable(ancestor, again, rect, gap, resolve)
  {
    hide Solve, Flatten, Bag, Hull, Rebuild, Interchangeable;
    SwapCarriesLengths(ancestor, rect, axis, gap, resolve, i, j);
    var mine := Solve(ancestor, rect, gap, resolve).value;
    var run := Swapped(ancestor, axis, mine, i, j, gap);
    SwappedPanes(ancestor, axis, mine, i, j, gap);
    var theirs := Solve(run, rect, gap, resolve).value;
    again := Swapped(run, axis, theirs, i, j, gap);
    SwappedPanes(run, axis, theirs, i, j, gap);
    ExchangedRunIsInterchangeable(ancestor, run, rect, axis, gap, resolve, i, j);
    var panes := Flatten(ancestor, axis);
    assert panes[i := panes[i]][j := panes[j]] == panes == Flatten(again, axis);
    ExchangedRunIsInterchangeable(ancestor, again, rect, axis, gap, resolve, i, i);
  }

  lemma PaneAgrees(run: Node, axis: Axis, pane: Node, a: Frames, b: Frames)
    requires pane in Flatten(run, axis)
    requires forall id :: Has(run, id) ==> id in a && id in b && a[id] == b[id]
    ensures Hull(pane, a) == Hull(pane, b)
  {
    hide Hull, Flatten, Bag;
    var k :| 0 <= k < |Flatten(run, axis)| && Flatten(run, axis)[k] == pane;
    FlattenSub(run, axis, k);
    SubBag(run, pane);
    HullAgrees(pane, a, b);
  }
}
