/** Where a moved window lands when nothing lies ahead of it, said of tree and frames alone. */
module EdgeMoves {
  import opened Geometry
  import opened BspTree
  import opened Partition
  import opened Planner
  import opened Subtrees
  import Insertion
  import opened GeometricMove
  import opened GeometricMoveProofs
  import opened GeometricEdgeProofs
  import opened GeometricMoveTheorems
  import opened SwapTheorems
  import opened SwapInTree
  import opened MoveBack
  import opened MoveTargets
  import opened MoveLanding
  import opened EdgeTargets

  // ---------------------------------------------------------------- on its side of a divider

  /** A split along the axis with the window on the side the direction names and all of the others on the other. */
  ghost predicate Divides(s: Node, axis: Axis, before: bool, moved: WindowId, others: Node) {
    && s.Split? && s.axis == axis && Has(if before then s.first else s.second, moved)
    && forall id :: Has(others, id) ==> Has(if before then s.second else s.first, id)
  }

  ghost predicate Lands(tree: Node, axis: Axis, before: bool, moved: WindowId, others: Node) {
    exists s :: Sub(tree, s) && Divides(s, axis, before, moved, others)
  }

  lemma LandsThere(tree: Node, s: Node, axis: Axis, before: bool, moved: WindowId, others: Node)
    requires Sub(tree, s) && Divides(s, axis, before, moved, others)
    ensures Lands(tree, axis, before, moved, others)
  {
    hide Divides;
  }

  lemma TowardDivides(axis: Axis, ratio: real, near: Node, far: Node, before: bool, moved: WindowId, others: Node)
    requires Has(near, moved) && forall id :: Has(others, id) ==> Has(far, id)
    ensures Divides(SplitToward(axis, ratio, near, far, before), axis, before, moved, others)
  {
    hide Has;
  }

  /** Planned, that is: wholly on that side, a gap apart. */
  lemma LandedFrames(tree: Node, content: Frame, gap: int, resolve: Resolver, axis: Axis, before: bool, moved: WindowId,
                     others: Node, id: WindowId)
    requires gap >= 0 && Distinct(tree) && Positive(content) && Solve(tree, content, gap, resolve).Some?
    requires Lands(tree, axis, before, moved, others) && Has(others, id)
    ensures var plan := Solve(tree, content, gap, resolve).value;
            && moved in plan && id in plan
            && if before then End(plan[moved], axis) + gap <= Start(plan[id], axis)
               else End(plan[id], axis) + gap <= Start(plan[moved], axis)
  {
    hide Solve, Has, Distinct, Sub, RectOf, Insertion.Shows, Halve;
    var plan := Solve(tree, content, gap, resolve).value;
    var s :| Sub(tree, s) && Divides(s, axis, before, moved, others);
    PartIsSolved(tree, content, gap, resolve, s);
    SubDistinct(tree, s);
    var rect := RectOf(tree, content, gap, resolve, s);
    HullOfHalves(s, rect, gap, resolve, plan);
    PlanHalves(s, rect, gap, resolve);
    var r := Halve(s, rect, gap, resolve);
    var firstRect := FirstRect(rect, s.axis, r.first);
    var secondRect := SecondRect(rect, s.axis, r.first, r.second, gap);
    var (a, b) := if before then (moved, id) else (id, moved);
    SolvedFrameFits(s.first, firstRect, gap, resolve, a);
    SolvedFrameFits(s.second, secondRect, gap, resolve, b);
    ShownIn(plan, s.first, firstRect, gap, resolve, a);
    ShownIn(plan, s.second, secondRect, gap, resolve, b);
  }

  lemma ShownIn(plan: Frames, half: Node, rect: Frame, gap: int, resolve: Resolver, id: WindowId)
    requires Solve(half, rect, gap, resolve).Some? && Insertion.Shows(plan, half, Solve(half, rect, gap, resolve).value) && Has(half, id)
    ensures id in plan && plan[id] == Solve(half, rect, gap, resolve).value[id]
  {
    hide Solve;
  }

  // ---------------------------------------------------------------- the three ways to pair up

  lemma {:induction false} JoinedHas(panes: seq<SizedPane>, axis: Axis, gap: int, k: nat)
    requires k < |panes|
    ensures Sub(JoinPanes(panes, axis, gap).node, panes[k].node)
    decreases |panes|
  {
    hide RatioForLength;
    if |panes| > 1 && k > 0 {
      JoinedHas(panes[1..], axis, gap, k - 1);
    }
  }

  lemma SplicedHas(panes: seq<SizedPane>, start: int, merged: SizedPane) returns (k: nat)
    requires -|panes| <= start <= |panes|
    ensures k < |Splice(panes, start, 2, merged)| && Splice(panes, start, 2, merged)[k] == merged
  {
    k := if start < 0 then |panes| + start else start;
  }

  lemma SubPutIn(tree: Node, part: Node, other: Node, inner: Node)
    requires Sub(tree, part) && Sub(other, inner)
    ensures Sub(Replace(tree, part, other), inner)
  {
    hide Sub, Replace;
    ReplacedIsThere(tree, part, other);
    SubTransitive(Replace(tree, part, other), other, inner);
  }

  lemma MergedIsThere(tree: Node, run: Node, panes: seq<SizedPane>, start: int, merged: SizedPane, axis: Axis, gap: int)
    requires Sub(tree, run) && -|panes| <= start <= |panes|
    ensures var ordered := Splice(panes, start, 2, merged);
            ordered != [] && Sub(Replace(tree, run, JoinPanes(ordered, axis, gap).node), merged.node)
  {
    hide Sub, Replace, JoinPanes, Splice;
    var k := SplicedHas(panes, start, merged);
    JoinedHas(Splice(panes, start, 2, merged), axis, gap, k);
    SubPutIn(tree, run, JoinPanes(Splice(panes, start, 2, merged), axis, gap).node, merged.node);
  }

  lemma OthersRemain(pair: Node, removed: Node, moved: WindowId, others: Node)
    requires Bag(removed) + multiset{moved} == Bag(pair)
    requires !Has(others, moved) && forall id :: Has(others, id) ==> Has(pair, id)
    ensures forall id :: Has(others, id) ==> Has(removed, id)
    ensures Has(Leaf(moved), moved)
  {
    forall id | Has(others, id) ensures Has(removed, id) {
      assert Bag(pair)[id] == Bag(removed)[id] + multiset{moved}[id];
    }
  }

  lemma SameBagSameWindows(a: Node, b: Node)
    requires Bag(a) == Bag(b)
    ensures forall id :: Has(a, id) <==> Has(b, id)
  {
    hide Bag;
  }

  /** Turning the pair out: the moved window by itself on its side, everyone else of the pair on the other. */
  lemma PairTurnsOut(pair: Node, origin: Region, target: Region, axis: Axis, before: bool, moved: WindowId, others: Node)
    requires pair.Split? && Distinct(pair) && origin.node == Leaf(moved) && origin.path != [] && target.path != []
    requires Has(pair, moved) && !Has(others, moved) && forall id :: Has(others, id) ==> Has(pair, id)
    ensures var turned := EdgePair(pair, origin, target, axis, before, moved);
            Divides(turned, axis, before, moved, others) && (if before then turned.first else turned.second) == Leaf(moved)
  {
    hide Sub, Replace, Distinct, Without, Has, Bag, Divides;
    HasLeaf(pair, moved);
    WithoutConserves(pair, moved);
    var removed := Without(pair, moved);
    OthersRemain(pair, removed, moved, others);
    var targetParent := Last(target.path);
    if targetParent.Split? {
      var turned := targetParent.(axis := Other(axis));
      BagOfHalves(targetParent);
      BagOfHalves(turned);
      RearrangeConserves(removed, targetParent, turned);
      SameBagSameWindows(removed, Replace(removed, targetParent, turned));
    }
    var turned := EdgePair(pair, origin, target, axis, before, moved);
    TowardDivides(axis, turned.ratio, Leaf(moved), if before then turned.second else turned.first, before, moved, others);
  }

  lemma RotationLands(input: MoveInput, origin: Region, target: Region, ancestor: Node)
    requires Situated(input, origin, target) && AllSeen(input)
    ensures var before, dimension := MovedLeafIsFirst(input.direction), Dimension(input.direction);
            var r := RotateOuterEdge(input, origin, target, RegionsOf(input), ancestor, dimension, before);
            r.Some? ==> Lands(r.value, dimension, before, input.moved, target.node)
  {
    hide Has, Sub, AtPath, Distinct, Flatten, Replace, JoinPanes, Splice, RatioForLength, RunStart, FrameOf, Visit, IndexOf, Sized,
         AllSeen, Divides, Lands;
    var before, dimension := MovedLeafIsFirst(input.direction), Dimension(input.direction);
    var regions := RegionsOf(input);
    if RotationApplies(origin, target, ancestor, dimension, before) {
      var parentIndex := |origin.path| - 2;
      var parent := origin.path[parentIndex];
      var run := RunStart(origin.path, parentIndex, dimension);
      var panes := Flatten(run, dimension);
      var index := IndexOf(panes, ancestor);
      var outerIndex := index + (if before then 1 else -1);
      if 0 <= outerIndex < |panes| {
        var at := Min(index, outerIndex);
        var sized := Sized(panes, regions, dimension);
        var outerPane := panes[outerIndex];
        var outerSize := Length(FrameOf(outerPane, regions), dimension);
        var ancestorSize := Length(FrameOf(ancestor, regions), dimension);
        var ratio := if |panes| == 2 then parent.ratio
                     else if at < 0 then 0.0
                     else RatioForLength(sized[at].size as real, outerSize + ancestorSize);
        var pair := SplitToward(dimension, ancestor.ratio, origin.node, outerPane, before);
        var rotated := SplitToward(dimension, ratio, pair, target.node, before);
        OnPathHolds(input.tree, origin, run);
        MergedIsThere(input.tree, run, sized, at, SizedPane(rotated, outerSize + input.gap + ancestorSize), dimension, input.gap);
        PairHasMoved(dimension, ancestor.ratio, origin.node, outerPane, before, input.moved);
        TowardDivides(dimension, ratio, pair, target.node, before, input.moved, target.node);
        var r := RotateOuterEdge(input, origin, target, regions, ancestor, dimension, before);
        LandsThere(r.value, rotated, dimension, before, input.moved, target.node);
      }
    }
  }

  lemma PairHasMoved(axis: Axis, ratio: real, near: Node, far: Node, before: bool, moved: WindowId)
    requires near == Leaf(moved)
    ensures Has(SplitToward(axis, ratio, near, far, before), moved)
  {
    assert Has(near, moved);
    HasInParts(SplitToward(axis, ratio, near, far, before));
  }

  /** Two neighbouring panes of a run, one with the moved window and one with its match, as the pair they make. */
  lemma NeighboursPair(input: MoveInput, ancestor: Node, origin: Region, target: Region, axis: Axis, ratio: real, from: nat, to: nat)
    requires Situated(input, origin, target) && ancestor.Split? && Sub(input.tree, ancestor)
    requires from < |Flatten(ancestor, axis)| && to < |Flatten(ancestor, axis)| && Abs(from - to) == 1
    requires HoldsRegion(Flatten(ancestor, axis)[from], origin) && HoldsRegion(Flatten(ancestor, axis)[to], target)
    ensures var panes, at := Flatten(ancestor, axis), Min(from, to);
            at + 1 < |panes|
            && var pair := if |panes| == 2 then ancestor else Split(axis, ratio, panes[at], panes[at + 1]);
               pair.Split? && Distinct(pair) && Has(pair, input.moved) && forall id :: Has(target.node, id) ==> Has(pair, id)
  {
    hide Has, Sub, AtPath, Distinct, Flatten, HoldsRegion, Bag;
    var panes, at := Flatten(ancestor, axis), Min(from, to);
    AdjacentPair(input.tree, ancestor, axis, at, ratio, from, origin);
    AdjacentPair(input.tree, ancestor, axis, at, ratio, to, target);
    var pair := if |panes| == 2 then ancestor else Split(axis, ratio, panes[at], panes[at + 1]);
    HasLeaf(pair, input.moved);
    forall id | Has(target.node, id) ensures Has(pair, id) {
      SubHas(pair, target.node, id);
    }
  }

  lemma AdjacentLands(input: MoveInput, ancestor: Node, origin: Region, target: Region)
    requires Situated(input, origin, target) && AllSeen(input) && ancestor.Split? && Sub(input.tree, ancestor)
    requires !Has(target.node, input.moved)
    ensures var before, dimension := MovedLeafIsFirst(input.direction), Dimension(input.direction);
            var r := PairAdjacentRegions(input, ancestor, origin, target, RegionsOf(input), dimension, before);
            r.Some? ==> Lands(r.value, dimension, before, input.moved, target.node)
  {
    hide Has, Sub, AtPath, Distinct, Flatten, Replace, JoinPanes, Splice, RatioForLength, Visit, IndexHolding, Sized, HoldsRegion,
         AllSeen, Divides, Lands, EdgePair, RegionsOf;
    var before, dimension := MovedLeafIsFirst(input.direction), Dimension(input.direction);
    var axis := Other(dimension);
    var panes := Flatten(ancestor, axis);
    var from, to := IndexHolding(panes, origin), IndexHolding(panes, target);
    if from >= 0 && to >= 0 && Abs(from - to) == 1 {
      var at := Min(from, to);
      var sized := Sized(panes, RegionsOf(input), axis);
      var ratio := RatioForLength(sized[at].size as real, sized[at].size + sized[at + 1].size);
      NeighboursPair(input, ancestor, origin, target, axis, ratio, from, to);
      var pair := if |panes| == 2 then ancestor else Split(axis, ratio, panes[at], panes[at + 1]);
      PairTurnsOut(pair, origin, target, dimension, before, input.moved, target.node);
      var rotated := EdgePair(pair, origin, target, dimension, before, input.moved);
      MergedIsThere(input.tree, ancestor, sized, at, SizedPane(rotated, sized[at].size + input.gap + sized[at + 1].size), axis, input.gap);
      var ordered := Splice(sized, at, 2, SizedPane(rotated, sized[at].size + input.gap + sized[at + 1].size));
      LandsThere(Replace(input.tree, ancestor, JoinPanes(ordered, axis, input.gap).node), rotated, dimension, before, input.moved, target.node);
    }
  }

  lemma TowardEdgePaneLands(input: MoveInput, origin: Region, target: Region)
    requires Situated(input, origin, target) && AllSeen(input) && !Has(target.node, input.moved)
    ensures var before, dimension := MovedLeafIsFirst(input.direction), Dimension(input.direction);
            Lands(MoveTowardEdgePane(input, origin, RegionsOf(input), target, dimension, before), dimension, before, input.moved, target.node)
  {
    hide Has, Sub, AtPath, Distinct, Replace, Visit, AllSeen, Divides, Lands, EdgePair, RotateOuterEdge, PairAdjacentRegions, CommonAncestor;
    var before, dimension := MovedLeafIsFirst(input.direction), Dimension(input.direction);
    SituatedFacts(input, origin, target);
    BothStartAtRoot(input, origin, target);
    var ancestor := CommonAncestor(origin.path, target.path).value;
    CommonAncestorHolds(input.tree, origin, target);
    RotationLands(input, origin, target, ancestor);
    AdjacentLands(input, ancestor, origin, target);
    SubDistinct(input.tree, ancestor);
    HasLeaf(ancestor, input.moved);
    forall id | Has(target.node, id) ensures Has(ancestor, id) {
      SubHas(ancestor, target.node, id);
    }
    PairTurnsOut(ancestor, origin, target, dimension, before, input.moved, target.node);
    var pair := EdgePair(ancestor, origin, target, dimension, before, input.moved);
    ReplacedIsThere(input.tree, ancestor, pair);
    LandsThere(Replace(input.tree, ancestor, pair), pair, dimension, before, input.moved, target.node);
  }

  lemma BothStartAtRoot(input: MoveInput, origin: Region, target: Region)
    requires Situated(input, origin, target)
    ensures CommonAncestor(origin.path, target.path).Some?
  {
    StartsWithRoot(input.tree, origin.path, origin.node);
    StartsWithRoot(input.tree, target.path, target.node);
  }

  // ---------------------------------------------------------------- a tie: everyone else closes up

  /** A tree with the places of its dividers along the axis left open. */
  function Outline(node: Node, axis: Axis): Node {
    match node
    case Leaf(_) => node
    case Split(divider, ratio, first, second) =>
      Split(divider, if divider == axis then 0.5 else ratio, Outline(first, axis), Outline(second, axis))
  }

  /** Every divider along the axis is an old one between the same panes, or divides its two sides as they measure. */
  ghost predicate InProportion(tree: Node, rest: Node, axis: Axis, frames: Frames, gap: int) {
    forall s :: Sub(rest, s) && s.Split? && s.axis == axis && !Sub(tree, s) ==> AsMeasured(s, axis, frames, gap)
  }

  predicate AsMeasured(s: Node, axis: Axis, frames: Frames, gap: int)
    requires s.Split?
  {
    var a, b := Insertion.SubtreeLength(s.first, axis, frames, gap), Insertion.SubtreeLength(s.second, axis, frames, gap);
    a.Some? && b.Some? && s.ratio == RatioForLength(a.value as real, a.value + b.value)
  }

  lemma {:induction false} ExtentIsLength(node: Node, axis: Axis, frames: Frames, gap: int)
    requires forall id :: Has(node, id) ==> id in frames
    ensures Insertion.SubtreeLength(node, axis, frames, gap) == Some(Extent(node, axis, frames, gap))
  {
    if node.Split? {
      HasInParts(node);
      ExtentIsLength(node.first, axis, frames, gap);
      ExtentIsLength(node.second, axis, frames, gap);
    } else {
      assert Has(node, node.id);
    }
  }

  /** The windows left, arranged as before, in proportion. */
  ghost predicate ClosedUp(tree: Node, rest: Option<Node>, moved: WindowId, axis: Axis, frames: Frames, gap: int) {
    && rest.Some? && RemoveLeaf(tree, moved).Some?
    && Outline(rest.value, axis) == Outline(RemoveLeaf(tree, moved).value, axis)
    && InProportion(tree, rest.value, axis, frames, gap)
    && (forall id :: Has(rest.value, id) <==> Has(tree, id) && id != moved)
    && (!Has(tree, moved) ==> rest.value == tree)
  }

  lemma {:induction false} ClosesUp(tree: Node, moved: WindowId, axis: Axis, frames: Frames, gap: int)
    requires Distinct(tree) && tree != Leaf(moved) && forall id :: Has(tree, id) ==> id in frames
    ensures ClosedUp(tree, RemoveForEdge(tree, moved, axis, frames, gap), moved, axis, frames, gap)
  {
    WindowsLeft(tree, moved, axis, frames, gap);
    if tree.Split? {
      DistinctParts(tree);
      HasInParts(tree);
      hide ClosedUp, RemoveForEdge, Has, Distinct;
      if tree.first != Leaf(moved) {
        ClosesUp(tree.first, moved, axis, frames, gap);
      }
      if tree.second != Leaf(moved) {
        ClosesUp(tree.second, moved, axis, frames, gap);
      }
      ClosesUpStep(tree, moved, axis, frames, gap);
    } else {
      ItselfInProportion(tree, tree, axis, frames, gap);
    }
  }

  lemma WindowsLeft(tree: Node, moved: WindowId, axis: Axis, frames: Frames, gap: int)
    requires Distinct(tree) && tree != Leaf(moved)
    ensures var rest := RemoveForEdge(tree, moved, axis, frames, gap);
            && rest.Some? && (forall id :: Has(rest.value, id) <==> Has(tree, id) && id != moved)
            && (!Has(tree, moved) ==> rest.value == tree)
  {
    hide RemoveForEdge;
    RemoveForEdgeConserves(tree, moved, axis, frames, gap);
    var rest := RemoveForEdge(tree, moved, axis, frames, gap);
    if Has(tree, moved) {
      forall id ensures Has(rest.value, id) <==> Has(tree, id) && id != moved {
        assert Bag(rest.value)[id] + multiset{moved}[id] == Bag(tree)[id];
        assert Bag(tree)[id] <= 1;
      }
    }
  }

  lemma ItselfInProportion(tree: Node, part: Node, axis: Axis, frames: Frames, gap: int)
    requires Sub(tree, part)
    ensures InProportion(tree, part, axis, frames, gap)
  {
    hide Sub;
    forall s | Sub(part, s) ensures Sub(tree, s) {
      SubTransitive(tree, part, s);
    }
  }

  lemma EdgeRemovalOfSplit(tree: Node, moved: WindowId, axis: Axis, frames: Frames, gap: int)
    requires tree.Split?
    ensures var a, b := RemoveForEdge(tree.first, moved, axis, frames, gap), RemoveForEdge(tree.second, moved, axis, frames, gap);
            RemoveForEdge(tree, moved, axis, frames, gap) ==
              if a.None? then b else if b.None? then a
              else if a.value == tree.first && b.value == tree.second then Some(tree)
              else
                var ea, eb := Extent(a.value, axis, frames, gap), Extent(b.value, axis, frames, gap);
                Some(Split(tree.axis, if tree.axis == axis then RatioForLength(ea as real, ea + eb) else tree.ratio, a.value, b.value))
    ensures var a, b := RemoveLeaf(tree.first, moved), RemoveLeaf(tree.second, moved);
            RemoveLeaf(tree, moved) == if a.None? then Some(tree.second) else if b.None? then Some(tree.first)
                                       else Some(tree.(first := a.value, second := b.value))
    ensures RemoveForEdge(Leaf(moved), moved, axis, frames, gap).None? && RemoveLeaf(Leaf(moved), moved).None?
  {
    hide RatioForLength, Extent;
  }

  lemma ClosesUpStep(tree: Node, moved: WindowId, axis: Axis, frames: Frames, gap: int)
    requires tree.Split? && Distinct(tree) && forall id :: Has(tree, id) ==> id in frames
    requires tree.first != Leaf(moved) ==>
               ClosedUp(tree.first, RemoveForEdge(tree.first, moved, axis, frames, gap), moved, axis, frames, gap)
    requires tree.second != Leaf(moved) ==>
               ClosedUp(tree.second, RemoveForEdge(tree.second, moved, axis, frames, gap), moved, axis, frames, gap)
    ensures ClosedUp(tree, RemoveForEdge(tree, moved, axis, frames, gap), moved, axis, frames, gap)
  {
    hide RemoveForEdge, Has, Distinct, InProportion, Sub, RemoveLeaf, Extent, RatioForLength, Outline;
    WindowsLeft(tree, moved, axis, frames, gap);
    WholeHalf(tree, moved);
    EdgeRemovalOfSplit(tree, moved, axis, frames, gap);
    PartsOfItself(tree);
    var a, b := RemoveForEdge(tree.first, moved, axis, frames, gap), RemoveForEdge(tree.second, moved, axis, frames, gap);
    if tree.first == Leaf(moved) {
      ItselfInProportion(tree, tree.second, axis, frames, gap);
    } else if tree.second == Leaf(moved) {
      ItselfInProportion(tree, tree.first, axis, frames, gap);
    } else {
      OutlinesJoin(tree, a.value, b.value, RemoveLeaf(tree.first, moved).value, RemoveLeaf(tree.second, moved).value, axis);
      if a.value == tree.first && b.value == tree.second {
        ItselfInProportion(tree, tree, axis, frames, gap);
      } else {
        HasInParts(tree);
        ExtentIsLength(a.value, axis, frames, gap);
        ExtentIsLength(b.value, axis, frames, gap);
        HalvesInProportion(tree, RemoveForEdge(tree, moved, axis, frames, gap).value, axis, frames, gap);
      }
    }
  }

  /** A window that is a whole half is in no other. */
  lemma WholeHalf(tree: Node, moved: WindowId)
    requires tree.Split? && Distinct(tree)
    ensures tree.first == Leaf(moved) ==> !Has(tree.second, moved) && Has(tree.first, moved) && Has(tree, moved)
    ensures tree.second == Leaf(moved) ==> !Has(tree.first, moved) && Has(tree.second, moved) && Has(tree, moved)
    ensures Distinct(tree.first) && Distinct(tree.second)
    ensures tree.first == Leaf(moved) ==> tree.second != Leaf(moved)
  {
    DistinctParts(tree);
    HasInParts(tree);
    assert Has(Leaf(moved), moved);
  }

  lemma PartsOfItself(tree: Node)
    ensures Sub(tree, tree) && (tree.Split? ==> Sub(tree, tree.first) && Sub(tree, tree.second))
  {
  }

  lemma OutlinesJoin(tree: Node, a: Node, b: Node, c: Node, d: Node, axis: Axis)
    requires tree.Split? && Outline(a, axis) == Outline(c, axis) && Outline(b, axis) == Outline(d, axis)
    ensures forall ratio {:trigger tree.(ratio := ratio, first := a, second := b)} :: (tree.axis != axis ==> ratio == tree.ratio) ==>
              Outline(tree.(ratio := ratio, first := a, second := b), axis) == Outline(tree.(first := c, second := d), axis)
  {
  }

  lemma HalvesInProportion(tree: Node, rest: Node, axis: Axis, frames: Frames, gap: int)
    requires tree.Split? && rest.Split?
    requires InProportion(tree.first, rest.first, axis, frames, gap) && InProportion(tree.second, rest.second, axis, frames, gap)
    requires rest.axis == axis ==> AsMeasured(rest, axis, frames, gap)
    ensures InProportion(tree, rest, axis, frames, gap)
  {
    hide AsMeasured;
    forall s | Sub(rest, s) && s.Split? && s.axis == axis && !Sub(tree, s) ensures AsMeasured(s, axis, frames, gap) {
      assert s == rest || Sub(rest.first, s) || Sub(rest.second, s);
      assert !Sub(tree.first, s) && !Sub(tree.second, s);
    }
  }

  /** Two panes match about equally well: the moved window gets half of everything on its side, and everyone else closes
      up in the other half, in the same arrangement, in the proportions they were seen in. */
  ghost predicate HalvesTheRest(input: MoveInput, result: Node)
    requires AllSeen(input)
  {
    var axis := Dimension(input.direction);
    exists rest ::
      && result == Split(axis, 0.5, if MovedLeafIsFirst(input.direction) then Leaf(input.moved) else rest,
                         if MovedLeafIsFirst(input.direction) then rest else Leaf(input.moved))
      && (forall id :: Has(rest, id) <==> Has(input.tree, id) && id != input.moved)
      && RemoveLeaf(input.tree, input.moved).Some?
      && Outline(rest, Other(axis)) == Outline(RemoveLeaf(input.tree, input.moved).value, Other(axis))
      && InProportion(input.tree, rest, Other(axis), input.frames, input.gap)
  }

  /** Nothing ahead: with no pane to match the window stays; with two that match about equally well it takes half of
      everything; else it lands beside the best match, on the side the direction names. */
  lemma EdgeMoveLands(input: MoveInput)
    requires Distinct(input.tree) && AllSeen(input) && NothingAhead(input)
    ensures var axis, before := Dimension(input.direction), MovedLeafIsFirst(input.direction);
            && ((forall pane :: !Matches(input, pane)) ==> MoveGeometrically(input) == input.tree)
            && (ATie(input) ==> HalvesTheRest(input, MoveGeometrically(input)))
            && (!ATie(input) ==> forall pane :: BestMatch(input, pane) ==>
                  Lands(MoveGeometrically(input), axis, before, input.moved, pane))
  {
    hide Has, Distinct, AllSeen, NothingAhead, Visit, Lands, ATie, Matches, BestMatch, ForwardTarget, Keep, HalvesTheRest, MoveTowardEdgePane,
         RankedCandidates, Tied, Origin, RemoveForEdge;
    OriginIffSeen(input);
    var o := Origin(input).value;
    TargetIsHeadedFor(input, o);
    LeafRegionFacts(input, o);
    var axis, before := Dimension(input.direction), MovedLeafIsFirst(input.direction);
    RankedFirstMatchesBest(input, o);
    var ranked := RankedCandidates(input, o, RegionsOf(input), axis, before);
    EdgeOf(input, o);
    if ranked == [] {
      NoTieOfNone(input);
    } else if Tied(ranked, o) {
      RestClosesUp(input);
    } else {
      BestIsMatch(input, ranked[0].node);
      MatchIsPane(input, ranked[0].node);
      TowardMatch(input, o, ranked[0]);
    }
  }

  lemma NoTieOfNone(input: MoveInput)
    requires AllSeen(input) && forall pane :: !Matches(input, pane)
    ensures !ATie(input) && forall pane :: !BestMatch(input, pane)
  {
    hide Matches;
  }

  lemma BestIsMatch(input: MoveInput, pane: Node)
    requires AllSeen(input) && BestMatch(input, pane)
    ensures Matches(input, pane)
  {
    hide Matches;
  }

  /** The edge branch, by what was ranked. */
  lemma EdgeOf(input: MoveInput, o: Region)
    requires Origin(input) == Some(o)
    requires ForwardTarget(o, LeafRegions(input), Dimension(input.direction), MovedLeafIsFirst(input.direction)).None?
    ensures var axis, before := Dimension(input.direction), MovedLeafIsFirst(input.direction);
            var ranked := RankedCandidates(input, o, RegionsOf(input), axis, before);
            MoveGeometrically(input) ==
              if ranked == [] then input.tree
              else if Tied(ranked, o) then
                var rest := RemoveForEdge(input.tree, input.moved, Other(axis), input.frames, input.gap);
                if rest.None? then input.tree else SplitToward(axis, 0.5, o.node, rest.value, before)
              else MoveTowardEdgePane(input, o, RegionsOf(input), ranked[0], axis, before)
  {
    hide Visit, RankedCandidates, Tied, RemoveForEdge, ForwardTarget, Origin, CommonAncestor, RotateOuterEdge, PairAdjacentRegions, EdgePair;
  }

  lemma RestClosesUp(input: MoveInput)
    requires Distinct(input.tree) && AllSeen(input)
    ensures var axis := Dimension(input.direction);
            var rest := RemoveForEdge(input.tree, input.moved, Other(axis), input.frames, input.gap);
            rest.Some? && HalvesTheRest(input, SplitToward(axis, 0.5, Leaf(input.moved), rest.value, MovedLeafIsFirst(input.direction)))
  {
    hide Has, Distinct, RemoveForEdge, InProportion, Outline, RemoveLeaf;
    ClosesUp(input.tree, input.moved, Other(Dimension(input.direction)), input.frames, input.gap);
  }

  lemma TowardMatch(input: MoveInput, o: Region, m: Region)
    requires Distinct(input.tree) && AllSeen(input) && o in LeafRegions(input) && o.node == Leaf(input.moved) && m in RegionsOf(input)
    requires !Has(m.node, input.moved)
    ensures var axis, before := Dimension(input.direction), MovedLeafIsFirst(input.direction);
            Lands(MoveTowardEdgePane(input, o, RegionsOf(input), m, axis, before), axis, before, input.moved, m.node)
  {
    hide Has, Distinct, Visit, Lands, MoveTowardEdgePane, AtPath;
    LeafRegionFacts(input, o);
    RegionFacts(input, m);
    DifferentPanes(input, o, m);
    TowardEdgePaneLands(input, o, m);
  }

  lemma DifferentPanes(input: MoveInput, o: Region, m: Region)
    requires Distinct(input.tree) && AllSeen(input) && o.node == Leaf(input.moved) && !Has(m.node, input.moved)
    requires AtPath(input.tree, o.path, o.node) && AtPath(input.tree, m.path, m.node)
    ensures Situated(input, o, m)
  {
    hide Distinct;
    assert Has(Leaf(input.moved), input.moved);
    StartsWithRoot(input.tree, o.path, o.node);
    StartsWithRoot(input.tree, m.path, m.node);
  }

  /** Planned again, the moved window lies wholly on the side of its match that the direction names, a gap away. */
  lemma EdgeMoveLandsOnItsSide(input: MoveInput, content: Frame, resolve: Resolver, pane: Node, id: WindowId)
    requires input.gap >= 0 && Distinct(input.tree) && Positive(content) && AllSeen(input) && NothingAhead(input)
    requires !ATie(input) && BestMatch(input, pane) && Has(pane, id)
    requires Distinct(MoveGeometrically(input)) && Solve(MoveGeometrically(input), content, input.gap, resolve).Some?
    ensures var axis, plan := Dimension(input.direction), Solve(MoveGeometrically(input), content, input.gap, resolve).value;
            && input.moved in plan && id in plan
            && if MovedLeafIsFirst(input.direction) then End(plan[input.moved], axis) + input.gap <= Start(plan[id], axis)
               else End(plan[id], axis) + input.gap <= Start(plan[input.moved], axis)
  {
    hide Solve, Has, Distinct, AllSeen, NothingAhead, ATie, BestMatch, MoveGeometrically, Lands;
    EdgeMoveLands(input);
    LandedFrames(MoveGeometrically(input), content, input.gap, resolve, Dimension(input.direction), MovedLeafIsFirst(input.direction),
                 input.moved, pane, id);
  }

  // ---------------------------------------------------------------- the same of the moves toward a window

  /** A window that paired up lands, in its pair, beside the other. */
  lemma PairedUpLands(tree: Node, result: Node, moved: WindowId, other: WindowId, axis: Axis, ratio: real, first: bool)
    requires var pair := Split(axis, ratio, Leaf(if first then moved else other), Leaf(if first then other else moved));
             OnlyPairedUp(tree, result, moved, pair)
    ensures Lands(result, axis, first, moved, Leaf(other))
  {
    hide Sub;
    var pair := Split(axis, ratio, Leaf(if first then moved else other), Leaf(if first then other else moved));
    assert Has(Leaf(moved), moved);
    LandsThere(result, pair, axis, first, moved, Leaf(other));
  }

  lemma BothSeen(input: MoveInput, target: WindowId)
    requires AllSeen(input) && HeadsFor(input, target)
    ensures input.moved in input.frames && target in input.frames
  {
  }

  /** Toward a window that does not face it: on the side it came from, across the move. */
  lemma DiagonalMoveLandsOnItsSide(input: MoveInput, target: WindowId)
    requires Distinct(input.tree) && AllSeen(input) && HeadsFor(input, target)
    requires !Share(input.frames[input.moved], input.frames[target], Other(Dimension(input.direction)), 1)
    ensures var across := Other(Dimension(input.direction));
            Lands(MoveGeometrically(input), across, Start(input.frames[input.moved], across) < Start(input.frames[target], across),
                  input.moved, Leaf(target))
  {
    hide Distinct, Share, MoveGeometrically, OnlyPairedUp, Lands;
    BothSeen(input, target);
    DiagonalMoveLands(input, target);
    var across := Other(Dimension(input.direction));
    PairedUpLands(input.tree, MoveGeometrically(input), input.moved, target, across, 0.5,
                  Start(input.frames[input.moved], across) < Start(input.frames[target], across));
  }

  /** Carried over with its divider: on the side it had in its pair. */
  lemma CarriedMoveLandsOnItsSide(input: MoveInput, target: WindowId, p: Node)
    requires Distinct(input.tree) && AllSeen(input) && HeadsFor(input, target)
    requires var axis, f, g := Dimension(input.direction), input.frames[input.moved], input.frames[target];
             && Share(f, g, Other(axis), 1) && !LinedUp(f, g, Other(axis))
             && Sub(input.tree, p) && IsParent(p, Leaf(input.moved)) && p.axis != axis
    ensures Lands(MoveGeometrically(input), p.axis, p.first == Leaf(input.moved), input.moved, Leaf(target))
  {
    hide Distinct, AllSeen, HeadsFor, Share, MoveGeometrically, OnlyPairedUp, Lands, Sub;
    CarriedMoveLands(input, target, p);
    PairedUpLands(input.tree, MoveGeometrically(input), input.moved, target, p.axis, p.ratio, p.first == Leaf(input.moved));
  }

  /** Traded with the one it heads for: beside that one's partner, on the partner's old side. */
  lemma TradedMoveLandsOnItsSide(input: MoveInput, target: WindowId, p: Node, q: Node)
    requires Distinct(input.tree) && AllSeen(input) && HeadsFor(input, target)
    requires var axis, f, g := Dimension(input.direction), input.frames[input.moved], input.frames[target];
             && Share(f, g, Other(axis), 1) && !LinedUp(f, g, Other(axis))
             && Sub(input.tree, p) && IsParent(p, Leaf(input.moved)) && p.axis == axis
             && Sub(input.tree, q) && IsParent(q, Leaf(target)) && q.axis != axis && !Has(q, input.moved)
    ensures Lands(MoveGeometrically(input), q.axis, q.second == Leaf(target), input.moved, OtherHalf(q, Leaf(target)))
  {
    hide Distinct, AllSeen, HeadsFor, Share, MoveGeometrically, Lands, Sub, Replace, SwapLeaves, Has;
    TradedMoveLands(input, target, p, q);
    OneChild(input.tree, q, target);
    var rest, first := OtherHalf(q, Leaf(target)), q.first == Leaf(target);
    var came := q.(first := if first then Leaf(input.moved) else rest, second := if first then rest else Leaf(input.moved));
    CameIn(input, target, q);
    ReplacedIsThere(SwapLeaves(input.tree, input.moved, target), came, came.(first := came.second, second := came.first));
    MovedIsThere(input.moved);
    LandsThere(MoveGeometrically(input), came.(first := came.second, second := came.first), q.axis, !first, input.moved, rest);
  }

  lemma MovedIsThere(id: WindowId)
    ensures Has(Leaf(id), id)
  {
  }

  /** Once the two have changed places the moved window is in the pair. */
  lemma {:induction false} CameIn(input: MoveInput, target: WindowId, q: Node)
    requires Distinct(input.tree) && Sub(input.tree, q) && IsParent(q, Leaf(target)) && !Has(q, input.moved)
    ensures var rest, first := OtherHalf(q, Leaf(target)), q.first == Leaf(target);
            Sub(SwapLeaves(input.tree, input.moved, target),
                q.(first := if first then Leaf(input.moved) else rest, second := if first then rest else Leaf(input.moved)))
  {
    hide Distinct, Sub, Has;
    SubDistinct(input.tree, q);
    ParentExchanged(q, input.moved, target);
    ExchangedSub(input.tree, q, input.moved, target);
  }

  lemma {:induction false} ExchangedSub(tree: Node, part: Node, a: WindowId, b: WindowId)
    requires Sub(tree, part)
    ensures Sub(SwapLeaves(tree, a, b), SwapLeaves(part, a, b))
  {
    if tree != part {
      if Sub(tree.first, part) { ExchangedSub(tree.first, part, a, b); } else { ExchangedSub(tree.second, part, a, b); }
    }
  }
}
