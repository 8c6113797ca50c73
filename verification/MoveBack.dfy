/** Moving a window along its run and moving it back: on a planned layout every frame returns. */
module MoveBack {
  import opened Geometry
  import opened BspTree
  import opened Partition
  import opened Planner
  import opened Subtrees
  import opened Insertion
  import opened GeometricMove
  import opened GeometricMoveProofs
  import opened GeometricEdgeProofs
  import opened GeometricMoveTheorems
  import opened SwapTheorems
  import opened SwapInTree
  import opened ForwardTargets

  // ---------------------------------------------------------------- a planned run, pane by pane

  /** The panes lie one after the other, a gap apart, from the start of the rectangle to its end, each as broad as
      the rectangle. */
  ghost predicate LaidOut(panes: seq<Node>, frames: Frames, rect: Frame, axis: Axis, gap: int) {
    && panes != []
    && Start(Hull(panes[0], frames), axis) == Start(rect, axis)
    && End(Hull(panes[|panes| - 1], frames), axis) == End(rect, axis)
    && (forall i :: 0 <= i < |panes| ==>
          var hull := Hull(panes[i], frames);
          && Length(hull, axis) > 0
          && Start(hull, Other(axis)) == Start(rect, Other(axis)) && Length(hull, Other(axis)) == Length(rect, Other(axis)))
    && (forall i :: 0 < i < |panes| ==> Follows(Hull(panes[i - 1], frames), Hull(panes[i], frames), axis, gap))
  }

  lemma LaidOutTogether(a: seq<Node>, b: seq<Node>, frames: Frames, rect: Frame, axis: Axis, first: int, second: int, gap: int)
    requires first + gap + second == Length(rect, axis)
    requires LaidOut(a, frames, FirstRect(rect, axis, first), axis, gap)
    requires LaidOut(b, frames, SecondRect(rect, axis, first, second, gap), axis, gap)
    ensures LaidOut(a + b, frames, rect, axis, gap)
  {
    hide Hull;
    var panes := a + b;
    forall i | 0 < i < |panes| ensures Follows(Hull(panes[i - 1], frames), Hull(panes[i], frames), axis, gap) {
      if i < |a| {
        assert panes[i - 1] == a[i - 1] && panes[i] == a[i];
      } else if i > |a| {
        assert panes[i - 1] == b[i - |a| - 1] && panes[i] == b[i - |a|];
      } else {
        assert panes[i - 1] == a[|a| - 1] && panes[i] == b[0];
      }
    }
  }

  /** A planned run is laid out in its rectangle. */
  lemma {:induction false} PlannedRunIsLaidOut(node: Node, rect: Frame, axis: Axis, gap: int, resolve: Resolver, frames: Frames)
    requires gap >= 0 && Distinct(node) && Positive(rect) && Solve(node, rect, gap, resolve).Some?
    requires Insertion.Shows(frames, node, Solve(node, rect, gap, resolve).value)
    ensures LaidOut(Flatten(node, axis), frames, rect, axis, gap)
  {
    hide Solve, Halve, Insertion.Shows, Distinct, Hull;
    if node.Split? && node.axis == axis {
      HullOfHalves(node, rect, gap, resolve, frames);
      var r := Halve(node, rect, gap, resolve);
      PlannedRunIsLaidOut(node.first, FirstRect(rect, axis, r.first), axis, gap, resolve, frames);
      PlannedRunIsLaidOut(node.second, SecondRect(rect, axis, r.first, r.second, gap), axis, gap, resolve, frames);
      LaidOutTogether(Flatten(node.first, axis), Flatten(node.second, axis), frames, rect, axis, r.first, r.second, gap);
    } else {
      HullIsRect(node, rect, gap, resolve, frames);
    }
  }

  lemma {:induction false} LaterLiesBehind(panes: seq<Node>, frames: Frames, rect: Frame, axis: Axis, gap: int, i: nat, j: nat)
    requires gap >= 0 && LaidOut(panes, frames, rect, axis, gap) && i < j < |panes|
    ensures End(Hull(panes[i], frames), axis) + gap <= Start(Hull(panes[j], frames), axis)
    decreases j
  {
    hide Hull;
    assert Follows(Hull(panes[j - 1], frames), Hull(panes[j], frames), axis, gap);
    if i < j - 1 {
      LaterLiesBehind(panes, frames, rect, axis, gap, i, j - 1);
    }
  }

  lemma {:induction false} WindowInHull(node: Node, frames: Frames, id: WindowId)
    requires Has(node, id) && forall other :: Has(node, other) ==> other in frames
    ensures Inside(frames[id], Hull(node, frames))
  {
    if node.Split? {
      HasInParts(node);
      WindowInHull(if Has(node.first, id) then node.first else node.second, frames, id);
    }
  }

  // ---------------------------------------------------------------- where the two panes' paths part

  lemma PathBelow(tree: Node, path: seq<Node>, part: Node)
    requires tree.Split? && tree != part && AtPath(tree, path, part)
    ensures path != [] && path[0] == tree
    ensures AtPath(tree.first, path[1..], part) || AtPath(tree.second, path[1..], part)
  {
  }

  /** A window's path goes into the half that has it. */
  lemma PathIntoHalf(tree: Node, path: seq<Node>, id: WindowId)
    requires Distinct(tree) && tree.Split? && AtPath(tree, path, Leaf(id))
    ensures path != [] && path[0] == tree
    ensures Has(tree.first, id) ==> AtPath(tree.first, path[1..], Leaf(id))
    ensures Has(tree.second, id) ==> AtPath(tree.second, path[1..], Leaf(id))
    ensures Has(tree.first, id) || Has(tree.second, id)
  {
    hide Has, Distinct;
    PathBelow(tree, path, Leaf(id));
    DistinctParts(tree);
    if AtPath(tree.first, path[1..], Leaf(id)) {
      AtPathIsSub(tree.first, path[1..], Leaf(id));
      HasLeaf(tree.first, id);
    } else {
      AtPathIsSub(tree.second, path[1..], Leaf(id));
      HasLeaf(tree.second, id);
    }
  }

  /** `a` is in one half of the split and `b` in the other. */
  predicate Parts(split: Node, a: WindowId, b: WindowId) {
    split.Split? && ((Has(split.first, a) && Has(split.second, b)) || (Has(split.second, a) && Has(split.first, b)))
  }

  lemma StartsWithRoot(tree: Node, path: seq<Node>, part: Node)
    requires AtPath(tree, path, part)
    ensures path != [] ==> path[0] == tree
    ensures path == [] ==> tree == part
  {
  }

  lemma ApartHaveNoCommon(a: Node, b: Node, pathA: seq<Node>, pathB: seq<Node>, x: Node, y: Node)
    requires a != b && AtPath(a, pathA, x) && AtPath(b, pathB, y)
    ensures CommonAncestor(pathA, pathB).None?
  {
    StartsWithRoot(a, pathA, x);
    StartsWithRoot(b, pathB, y);
  }

  /** The last split two windows' paths share is the one that has them in different halves. */
  lemma {:induction false} CommonAncestorParts(tree: Node, pathA: seq<Node>, pathB: seq<Node>, a: WindowId, b: WindowId)
    requires Distinct(tree) && a != b && AtPath(tree, pathA, Leaf(a)) && AtPath(tree, pathB, Leaf(b))
    ensures var common := CommonAncestor(pathA, pathB);
            common.Some? && Sub(tree, common.value) && Parts(common.value, a, b)
    decreases tree
  {
    hide Has, Distinct, AtPath;
    if tree.Leaf? {
      OnlyLeaf(tree, pathA, a);
      OnlyLeaf(tree, pathB, b);
      assert false;
    }
    PathIntoHalf(tree, pathA, a);
    PathIntoHalf(tree, pathB, b);
    DistinctParts(tree);
    if Has(tree.first, a) && Has(tree.first, b) {
      CommonAncestorParts(tree.first, pathA[1..], pathB[1..], a, b);
    } else if Has(tree.second, a) && Has(tree.second, b) {
      CommonAncestorParts(tree.second, pathA[1..], pathB[1..], a, b);
    } else {
      ChildrenDiffer(tree, tree);
      if Has(tree.first, a) {
        ApartHaveNoCommon(tree.first, tree.second, pathA[1..], pathB[1..], Leaf(a), Leaf(b));
      } else {
        ApartHaveNoCommon(tree.second, tree.first, pathA[1..], pathB[1..], Leaf(a), Leaf(b));
      }
    }
  }

  lemma OnlyLeaf(tree: Node, path: seq<Node>, id: WindowId)
    requires tree.Leaf? && AtPath(tree, path, Leaf(id))
    ensures tree == Leaf(id)
  {
  }

  /** Only one split has two windows in different halves. */
  lemma {:induction false} PartsOnce(tree: Node, a: WindowId, b: WindowId, one: Node, other: Node)
    requires Distinct(tree) && Sub(tree, one) && Sub(tree, other) && Parts(one, a, b) && Parts(other, a, b)
    ensures one == other
  {
    hide Has, Distinct;
    PartsHaveBoth(one, a, b);
    PartsHaveBoth(other, a, b);
    if tree.Split? {
      DistinctParts(tree);
      BelowOneHalf(tree, one, a, b);
      BelowOneHalf(tree, other, a, b);
      if tree != one && tree != other {
        if Has(tree.first, a) {
          PartsOnce(tree.first, a, b, one, other);
        } else {
          PartsOnce(tree.second, a, b, one, other);
        }
      }
    }
  }

  lemma PartsHaveBoth(split: Node, a: WindowId, b: WindowId)
    requires Parts(split, a, b)
    ensures Has(split, a) && Has(split, b)
  {
  }

  lemma BelowOneHalf(tree: Node, split: Node, a: WindowId, b: WindowId)
    requires tree.Split? && Sub(tree, split) && Has(split, a) && Has(split, b)
    ensures tree == split || (Sub(tree.first, split) && Has(tree.first, a) && Has(tree.first, b))
         || (Sub(tree.second, split) && Has(tree.second, a) && Has(tree.second, b))
  {
    hide Has;
    if tree != split {
      if Sub(tree.first, split) {
        SubHas(tree.first, split, a);
        SubHas(tree.first, split, b);
      } else {
        SubHas(tree.second, split, a);
        SubHas(tree.second, split, b);
      }
    }
  }

  // ---------------------------------------------------------------- windows as panes of a run

  /** A window is at one place of a run. */
  lemma {:induction false} OnePlaceInRun(run: Node, axis: Axis, i: nat, j: nat, id: WindowId)
    requires Distinct(run) && i < |Flatten(run, axis)| && j < |Flatten(run, axis)|
    requires Flatten(run, axis)[i] == Leaf(id) == Flatten(run, axis)[j]
    ensures i == j
  {
    hide Has, Distinct;
    if run.Split? && run.axis == axis {
      var n := |Flatten(run.first, axis)|;
      DistinctParts(run);
      PaneIsInHalf(run, axis, i, id);
      PaneIsInHalf(run, axis, j, id);
      if i < n {
        OnePlaceInRun(run.first, axis, i, j, id);
      } else {
        OnePlaceInRun(run.second, axis, i - n, j - n, id);
      }
    }
  }

  lemma PaneIsInHalf(run: Node, axis: Axis, i: nat, id: WindowId)
    requires run.Split? && run.axis == axis && i < |Flatten(run, axis)| && Flatten(run, axis)[i] == Leaf(id)
    ensures var n := |Flatten(run.first, axis)|;
            if i < n then Has(run.first, id) else Has(run.second, id)
  {
    hide Has;
    var n := |Flatten(run.first, axis)|;
    if i < n {
      FlattenSub(run.first, axis, i);
      HasLeaf(run.first, id);
    } else {
      FlattenSub(run.second, axis, i - n);
      HasLeaf(run.second, id);
    }
  }

  lemma IndexOfPane(run: Node, axis: Axis, i: nat, id: WindowId)
    requires Distinct(run) && i < |Flatten(run, axis)| && Flatten(run, axis)[i] == Leaf(id)
    ensures IndexOf(Flatten(run, axis), Leaf(id)) == i
  {
    hide Flatten, Distinct;
    OnePlaceInRun(run, axis, IndexOf(Flatten(run, axis), Leaf(id)), i, id);
  }

  lemma ReplacedIsThere(tree: Node, part: Node, other: Node)
    requires Sub(tree, part)
    ensures Sub(Replace(tree, part, other), other)
  {
  }

  /** A split that parts two windows which are panes of its run along an axis is on that axis. */
  lemma PartedRun(run: Node, axis: Axis, a: WindowId, b: WindowId)
    requires Parts(run, a, b) && Leaf(a) in Flatten(run, axis)
    ensures run.axis == axis
  {
  }

  /** Exchanging panes from the two halves of a run leaves them in different halves. */
  lemma SwappedParts(run: Node, axis: Axis, frames: Frames, i: nat, j: nat, gap: int, a: WindowId, b: WindowId)
    requires Distinct(run) && Parts(run, a, b) && i < |Flatten(run, axis)| && j < |Flatten(run, axis)|
    requires i != j && Flatten(run, axis)[i] == Leaf(a) && Flatten(run, axis)[j] == Leaf(b)
    ensures Parts(Swapped(run, axis, frames, i, j, gap), a, b)
  {
    hide Has, Distinct, Hull, Flatten, Rebuild, Bag;
    PartedRun(run, axis, a, b);
    DistinctParts(run);
    PaneIsInHalf(run, axis, i, a);
    PaneIsInHalf(run, axis, j, b);
    SwappedPanes(run, axis, frames, i, j, gap);
    TurnedOffAxis(run, axis, frames, i, j);
    RebuiltCount(run, axis, SwapPanes(Measure(Flatten(run, axis), frames, axis), i, j), gap);
    var swapped := Swapped(run, axis, frames, i, j, gap);
    PaneIsInHalf(swapped, axis, i, b);
    PaneIsInHalf(swapped, axis, j, a);
  }

  lemma {:induction false} RebuiltSplits(node: Node, axis: Axis, panes: seq<SizedPane>, gap: int)
    requires |panes| == |Flatten(node, axis)| && OffAxis(panes, axis)
    ensures |Flatten(Rebuild(node, axis, panes, gap).node, axis)| == |panes|
  {
    FlattenOfRebuilt(node, axis, panes, gap);
  }

  lemma RebuiltCount(run: Node, axis: Axis, panes: seq<SizedPane>, gap: int)
    requires run.Split? && run.axis == axis && |panes| == |Flatten(run, axis)|
    ensures var rebuilt := Rebuild(run, axis, panes, gap).node;
            && rebuilt.Split? && rebuilt.axis == axis
            && (OffAxis(panes, axis) ==> |Flatten(rebuilt.first, axis)| == |Flatten(run.first, axis)|)
  {
    hide RatioForLength;
    var n := |Flatten(run.first, axis)|;
    if OffAxis(panes, axis) {
      OffAxisParts(panes, axis, n);
      RebuiltSplits(run.first, axis, panes[..n], gap);
    }
  }

  // ---------------------------------------------------------------- planned layouts, seen

  /** The window's frames are those of the layout's own plan. */
  ghost predicate Planned(input: MoveInput, content: Frame, resolve: Resolver) {
    && input.gap >= 0 && Distinct(input.tree) && Positive(content)
    && Solve(input.tree, content, input.gap, resolve) == Some(input.frames)
  }

  function LeafRegions(input: MoveInput): seq<Region> {
    Keep(Visit(input.tree, [], input.frames).0, (r: Region) => r.node.Leaf?)
  }

  lemma PlannedIsVisible(input: MoveInput, content: Frame, resolve: Resolver)
    requires Planned(input, content, resolve)
    ensures forall id :: Has(input.tree, id) ==> id in input.frames && Positive(input.frames[id])
    ensures Visit(input.tree, [], input.frames).1.Some? && Distinct(input.tree)
  {
    hide Solve, Distinct, Has, Visit;
    forall id | Has(input.tree, id) ensures Positive(input.frames[id]) {
      SolvedFrameFits(input.tree, content, input.gap, resolve, id);
    }
    PlannedIsComplete(input.tree, [], input.frames);
  }

  /** What is seen of a window. */
  lemma LeafRegion(input: MoveInput, id: WindowId) returns (r: Region)
    requires Visit(input.tree, [], input.frames).1.Some? && Has(input.tree, id)
    ensures r in LeafRegions(input) && r.node == Leaf(id)
  {
    hide Visit, Has;
    HasLeaf(input.tree, id);
    r := EveryPaneHasRegion(input.tree, [], input.frames, Leaf(id));
  }

  lemma LeafRegionFacts(input: MoveInput, r: Region)
    requires r in LeafRegions(input)
    ensures r.node.Leaf? && Has(input.tree, r.node.id) && AtPath(input.tree, r.path, r.node)
    ensures r in Visit(input.tree, [], input.frames).0
    ensures r.node.id in input.frames ==> r.frame == input.frames[r.node.id]
  {
    hide Visit, AtPath, Sub, Has;
    RegionFrameIsHull(input.tree, [], input.frames, r);
    VisitPlaces(input.tree, [], input.frames, r);
    assert r.path[0..] == r.path;
    AtPathIsSub(input.tree, r.path, r.node);
    HasLeaf(input.tree, r.node.id);
  }

  lemma TwoLeaves(leaves: seq<Region>, a: Region, b: Region)
    requires a in leaves && b in leaves && a != b
    ensures |leaves| >= 2
  {
    var i :| 0 <= i < |leaves| && leaves[i] == a;
    var j :| 0 <= j < |leaves| && leaves[j] == b;
  }

  lemma OriginSeen(input: MoveInput, other: WindowId)
    requires Visit(input.tree, [], input.frames).1.Some?
    requires Has(input.tree, input.moved) && Has(input.tree, other) && other != input.moved
    ensures Origin(input).Some? && Origin(input).value.node == Leaf(input.moved) && Origin(input).value in LeafRegions(input)
  {
    hide Visit, Has, Keep, FindRegion;
    var a := LeafRegion(input, input.moved);
    var b := LeafRegion(input, other);
    TwoLeaves(LeafRegions(input), a, b);
    FindFinds(LeafRegions(input), (r: Region) => r.node == Leaf(input.moved), a);
  }

  // ---------------------------------------------------------------- heading for the next pane, and only for it

  /** On planned frames a move heads for the window next to the moved one, when there is one just as broad. */
  lemma NextIsTarget(input: MoveInput, content: Frame, resolve: Resolver, origin: Region, next: WindowId, axis: Axis, before: bool)
    requires Planned(input, content, resolve) && origin in LeafRegions(input) && origin.node == Leaf(input.moved)
    requires Has(input.tree, next) && next != input.moved
    requires input.moved in input.frames && next in input.frames
    requires NextTo(input.frames[input.moved], input.frames[next], axis, before, input.gap)
    requires Length(input.frames[input.moved], axis) > BORDER_TOLERANCE && Length(input.frames[next], axis) > BORDER_TOLERANCE
    ensures var target := ForwardTarget(origin, LeafRegions(input), axis, before);
            target.Some? && target.value.node == Leaf(next)
  {
    hide Solve, Distinct, Has, Visit, LeafRegions, ForwardTarget, NextTo, NoFarther, AtPath;
    PlannedIsVisible(input, content, resolve);
    LeafRegionFacts(input, origin);
    var region := LeafRegion(input, next);
    LeafRegionFacts(input, region);
    NextIsForward(origin, region, axis, before, input.gap);
    TargetIsNearest(origin, LeafRegions(input), axis, before, region);
    var target := ForwardTarget(origin, LeafRegions(input), axis, before).value;
    LeafRegionFacts(input, target);
    if target.node != Leaf(next) {
      SolvedFramesSeparate(input.tree, content, input.gap, resolve, input.moved, target.node.id);
      SolvedFramesSeparate(input.tree, content, input.gap, resolve, next, target.node.id);
      NextIsNearest(origin, region, target, axis, before, input.gap);
      assert false;
    }
  }

  /** Where a run of a planned layout lies. */
  lemma RunIsLaidOut(input: MoveInput, content: Frame, resolve: Resolver, run: Node, axis: Axis) returns (rect: Frame)
    requires Planned(input, content, resolve) && Sub(input.tree, run)
    ensures LaidOut(Flatten(run, axis), input.frames, rect, axis, input.gap)
    ensures Distinct(run) && input.gap >= 0
  {
    hide Solve, Distinct, Sub, Has, Insertion.Shows, LaidOut, RectOf;
    PartIsSolved(input.tree, content, input.gap, resolve, run);
    SubDistinct(input.tree, run);
    rect := RectOf(input.tree, content, input.gap, resolve, run);
    PlannedRunIsLaidOut(run, rect, axis, input.gap, resolve, input.frames);
  }

  lemma PaneWindow(input: MoveInput, content: Frame, resolve: Resolver, run: Node, axis: Axis, k: nat) returns (r: Region)
    requires Planned(input, content, resolve) && Sub(input.tree, run) && k < |Flatten(run, axis)|
    ensures r in LeafRegions(input) && Has(Flatten(run, axis)[k], r.node.id)
    ensures Positive(r.frame) && Inside(r.frame, Hull(Flatten(run, axis)[k], input.frames))
  {
    hide Has, Visit, Sub, Flatten, LeafRegions, Planned, Hull;
    PlannedIsVisible(input, content, resolve);
    var pane := Flatten(run, axis)[k];
    var id := SomeWindow(pane);
    FlattenSub(run, axis, k);
    SubTransitive(input.tree, run, pane);
    forall other | Has(pane, other) ensures other in input.frames {
      SubHas(input.tree, pane, other);
    }
    SubHas(input.tree, pane, id);
    WindowInHull(pane, input.frames, id);
    r := LeafRegion(input, id);
    LeafRegionFacts(input, r);
  }

  /** The move's origin and target, both panes of the run of their common ancestor, at these places. */
  ghost predicate SwapsPanes(input: MoveInput, origin: Region, target: Region, run: Node, i: nat, j: nat) {
    var dimension := Dimension(input.direction);
    && Origin(input) == Some(origin)
    && ForwardTarget(origin, LeafRegions(input), dimension, MovedLeafIsFirst(input.direction)) == Some(target)
    && CommonAncestor(origin.path, target.path) == Some(run)
    && i < |Flatten(run, dimension)| && Flatten(run, dimension)[i] == origin.node
    && j < |Flatten(run, dimension)| && Flatten(run, dimension)[j] == target.node
  }

  /** What holds of the panes of a swapping move. */
  lemma SwapFacts(input: MoveInput, content: Frame, resolve: Resolver, origin: Region, target: Region, run: Node, i: nat, j: nat)
    requires Planned(input, content, resolve) && SwapsPanes(input, origin, target, run, i, j)
    ensures origin in LeafRegions(input) && origin.node == Leaf(input.moved)
    ensures target in LeafRegions(input) && target.node.Leaf? && target.node != origin.node
    ensures Has(input.tree, input.moved) && Has(input.tree, target.node.id)
    ensures input.moved in input.frames && origin.frame == input.frames[input.moved]
    ensures target.node.id in input.frames && target.frame == input.frames[target.node.id]
    ensures Sub(input.tree, run) && Parts(run, input.moved, target.node.id) && i != j
    ensures Positive(origin.frame) && Positive(target.frame)
  {
    hide Solve, Distinct, Has, Visit, Sub, AtPath, CommonAncestor, Flatten, ForwardTarget, Parts, FindRegion, Keep;
    PlannedIsVisible(input, content, resolve);
    LeafRegionFacts(input, origin);
    LeafRegionFacts(input, target);
    CommonAncestorParts(input.tree, origin.path, target.path, input.moved, target.node.id);
  }

  /** A window of a pane between the two would be nearer. */
  lemma MiddleIsNearer(input: MoveInput, content: Frame, resolve: Resolver, origin: Region, target: Region, run: Node, i: nat, j: nat, k: nat)
    returns (r: Region)
    requires Planned(input, content, resolve) && SwapsPanes(input, origin, target, run, i, j)
    requires forall id :: Has(input.tree, id) ==>
               id in input.frames && Length(input.frames[id], Dimension(input.direction)) > BORDER_TOLERANCE
    requires if MovedLeafIsFirst(input.direction) then j < k < i else i < k < j
    ensures var axis, before := Dimension(input.direction), MovedLeafIsFirst(input.direction);
            r in LeafRegions(input) && IsForward(origin, r, axis, before) && !NoFarther(origin, axis, target, r)
  {
    hide Planned, Has, Visit, Sub, CommonAncestor, Flatten, ForwardTarget, Parts, LeafRegions, Origin, IsForward, NoFarther, LaidOut;
    SwapFacts(input, content, resolve, origin, target, run, i, j);
    var axis, before := Dimension(input.direction), MovedLeafIsFirst(input.direction);
    var rect := RunIsLaidOut(input, content, resolve, run, axis);
    var panes := Flatten(run, axis);
    r := PaneWindow(input, content, resolve, run, axis, k);
    LeafRegionFacts(input, r);
    EquallyBroad(panes, input.frames, rect, axis, input.gap, i, k);
    if before {
      LaterLiesBehind(panes, input.frames, rect, axis, input.gap, j, k);
      LaterLiesBehind(panes, input.frames, rect, axis, input.gap, k, i);
    } else {
      LaterLiesBehind(panes, input.frames, rect, axis, input.gap, i, k);
      LaterLiesBehind(panes, input.frames, rect, axis, input.gap, k, j);
    }
    BetweenIsNearer(origin, r, target, axis, before, input.gap);
  }

  lemma EquallyBroad(panes: seq<Node>, frames: Frames, rect: Frame, axis: Axis, gap: int, i: nat, j: nat)
    requires LaidOut(panes, frames, rect, axis, gap) && i < |panes| && j < |panes|
    ensures Start(Hull(panes[i], frames), Other(axis)) == Start(Hull(panes[j], frames), Other(axis))
    ensures Length(Hull(panes[i], frames), Other(axis)) == Length(Hull(panes[j], frames), Other(axis))
  {
    hide Hull;
  }

  /** The pane headed for is the next one of the run. */
  lemma TargetIsNeighbour(input: MoveInput, content: Frame, resolve: Resolver, origin: Region, target: Region, run: Node, i: nat, j: nat)
    requires Planned(input, content, resolve) && SwapsPanes(input, origin, target, run, i, j)
    requires forall id :: Has(input.tree, id) ==>
               id in input.frames && Length(input.frames[id], Dimension(input.direction)) > BORDER_TOLERANCE
    ensures if MovedLeafIsFirst(input.direction) then i == j + 1 else j == i + 1
  {
    hide Planned, Has, Visit, Sub, CommonAncestor, Flatten, ForwardTarget, Parts, LeafRegions, Origin, NoFarther, LaidOut;
    SwapFacts(input, content, resolve, origin, target, run, i, j);
    var axis, before := Dimension(input.direction), MovedLeafIsFirst(input.direction);
    var rect := RunIsLaidOut(input, content, resolve, run, axis);
    var panes := Flatten(run, axis);
    TargetIsForward(origin, LeafRegions(input), axis, before);
    if i < j {
      LaterLiesBehind(panes, input.frames, rect, axis, input.gap, i, j);
      assert !before;
    } else {
      LaterLiesBehind(panes, input.frames, rect, axis, input.gap, j, i);
      assert before;
    }
    var k := if before then i - 1 else j - 1;
    if k != i && k != j {
      var r := MiddleIsNearer(input, content, resolve, origin, target, run, i, j, k);
      TargetIsNearest(origin, LeafRegions(input), axis, before, r);
      assert false;
    }
  }

  // ---------------------------------------------------------------- the move, and the move back

  lemma Aligned(panes: seq<Node>, frames: Frames, rect: Frame, axis: Axis, gap: int, i: nat, j: nat)
    requires LaidOut(panes, frames, rect, axis, gap) && i < |panes| && j < |panes|
    requires Length(Hull(panes[i], frames), Other(axis)) > 0
    ensures var a, b, across := Hull(panes[i], frames), Hull(panes[j], frames), Other(axis);
            Overlap(a, b, across) > 0 && Close(Start(a, across), Start(b, across)) && Close(End(a, across), End(b, across))
  {
    hide Hull;
  }

  /** Such a move exchanges the two panes. */
  lemma MoveSwaps(input: MoveInput, content: Frame, resolve: Resolver, origin: Region, target: Region, run: Node, i: nat, j: nat)
    requires Planned(input, content, resolve) && SwapsPanes(input, origin, target, run, i, j)
    ensures MoveGeometrically(input)
            == Replace(input.tree, run, Swapped(run, Dimension(input.direction), input.frames, i, j, input.gap))
  {
    hide Planned, Has, Visit, Sub, CommonAncestor, Flatten, ForwardTarget, Parts, Origin, LaidOut, Overlap, Close, Replace,
         SwapAlongAxis, Rebuild, Keep;
    SwapFacts(input, content, resolve, origin, target, run, i, j);
    PlannedIsVisible(input, content, resolve);
    var axis := Dimension(input.direction);
    var rect := RunIsLaidOut(input, content, resolve, run, axis);
    Aligned(Flatten(run, axis), input.frames, rect, axis, input.gap, i, j);
    IndexOfPane(run, axis, i, input.moved);
    IndexOfPane(run, axis, j, target.node.id);
    SwapAlongAxisIsSwapped(input.tree, run, origin, target, input.frames, axis, input.gap);
    LeafRegionFacts(input, origin);
    LeafRegionFacts(input, target);
    ParentsAreSplits(input, origin, target);
  }

  lemma ParentsAreSplits(input: MoveInput, origin: Region, target: Region)
    requires AtPath(input.tree, origin.path, origin.node) && AtPath(input.tree, target.path, target.node)
    requires origin.node.Leaf? && target.node.Leaf? && origin.node != target.node
    ensures origin.path != [] && target.path != [] && Last(origin.path).Split? && Last(target.path).Split?
  {
    if origin.path != [] {
      LastOnPathIsParent(input.tree, origin.path, origin.node);
    }
    if target.path != [] {
      LastOnPathIsParent(input.tree, target.path, target.node);
    }
  }

  /** After the exchange the panes lie the other way round, in a layout that is planned like the one before. */
  lemma Exchanged(input: MoveInput, content: Frame, resolve: Resolver, run: Node, axis: Axis, i: nat, j: nat)
    requires Planned(input, content, resolve) && Sub(input.tree, run)
    requires i < |Flatten(run, axis)| && j < |Flatten(run, axis)|
    ensures var exchanged := Swapped(run, axis, input.frames, i, j, input.gap);
            var next := Replace(input.tree, run, exchanged);
            && Distinct(next) && (forall id :: Has(next, id) <==> Has(input.tree, id)) && Sub(next, exchanged)
            && Flatten(exchanged, axis)
               == Flatten(run, axis)[i := Flatten(run, axis)[j]][j := Flatten(run, axis)[i]]
            && Solve(next, content, input.gap, resolve).Some?
  {
    hide Solve, Sub, Flatten, Rebuild, Bag, Replace, Hull;
    SwappedPanes(run, axis, input.frames, i, j, input.gap);
    var exchanged := Swapped(run, axis, input.frames, i, j, input.gap);
    RearrangeConserves(input.tree, run, exchanged);
    ReplacedIsThere(input.tree, run, exchanged);
    SwapIsUndoneBySwap(input.tree, content, input.gap, resolve, run, axis, i, j);
  }

  function Opposite(direction: Direction): Direction {
    match direction
    case Left => Right
    case Right => Left
    case Up => Down
    case Down => Up
  }

  /** The same window moved the other way in the layout a move led to, on that layout's frames. */
  function Back(input: MoveInput, next: Node, frames: Frames): MoveInput {
    MoveInput(next, input.moved, Opposite(input.direction), frames, input.gap, input.groups)
  }

  /** In the layout after an exchange of neighbours the move the other way exchanges them again. */
  lemma BackSwaps(input: MoveInput, content: Frame, resolve: Resolver, target: WindowId, run: Node, i: nat, j: nat) returns (o: Region, t: Region)
    requires Planned(input, content, resolve) && Sub(input.tree, run) && Parts(run, input.moved, target) && input.moved != target
    requires var panes := Flatten(run, Dimension(input.direction));
             i < |panes| && j < |panes| && panes[i] == Leaf(input.moved) && panes[j] == Leaf(target)
    requires if MovedLeafIsFirst(input.direction) then i == j + 1 else j == i + 1
    requires input.moved in input.frames && target in input.frames
    requires Length(input.frames[input.moved], Dimension(input.direction)) > BORDER_TOLERANCE
    requires Length(input.frames[target], Dimension(input.direction)) > BORDER_TOLERANCE
    ensures SwapsPanes(input, o, t, run, i, j)
  {
    hide Planned, Has, Visit, Sub, CommonAncestor, Flatten, ForwardTarget, Parts, Origin, LaidOut, LeafRegions, AtPath;
    PlannedIsVisible(input, content, resolve);
    PartsHaveBoth(run, input.moved, target);
    SubHas(input.tree, run, input.moved);
    SubHas(input.tree, run, target);
    OriginSeen(input, target);
    o := Origin(input).value;
    var axis, before := Dimension(input.direction), MovedLeafIsFirst(input.direction);
    var rect := RunIsLaidOut(input, content, resolve, run, axis);
    Neighbours(Flatten(run, axis), input.frames, rect, axis, before, input.gap, i, j);
    NextIsTarget(input, content, resolve, o, target, axis, before);
    t := ForwardTarget(o, LeafRegions(input), axis, before).value;
    LeafRegionFacts(input, o);
    TargetIsSeen(input, o, axis, before);
    LeafRegionFacts(input, t);
    CommonAncestorParts(input.tree, o.path, t.path, input.moved, target);
    PartsOnce(input.tree, input.moved, target, CommonAncestor(o.path, t.path).value, run);
  }

  lemma TargetIsSeen(input: MoveInput, origin: Region, axis: Axis, before: bool)
    ensures var target := ForwardTarget(origin, LeafRegions(input), axis, before);
            target.Some? ==> target.value in LeafRegions(input)
  {
  }

  lemma Neighbours(panes: seq<Node>, frames: Frames, rect: Frame, axis: Axis, before: bool, gap: int, i: nat, j: nat)
    requires LaidOut(panes, frames, rect, axis, gap) && i < |panes| && j < |panes|
    requires if before then i == j + 1 else j == i + 1
    ensures NextTo(Hull(panes[i], frames), Hull(panes[j], frames), axis, before, gap)
  {
    hide Hull, Follows;
    var later := if before then i else j;
    assert Follows(Hull(panes[later - 1], frames), Hull(panes[later], frames), axis, gap);
  }

  /** The move takes the branch that exchanges two panes of a run: its target is, like the moved window itself, a pane
      of the run of their common ancestor along the move. */
  predicate SwapsAlongRun(input: MoveInput) {
    var dimension, origin := Dimension(input.direction), Origin(input);
    && origin.Some?
    && var target := ForwardTarget(origin.value, LeafRegions(input), dimension, MovedLeafIsFirst(input.direction));
       && target.Some?
       && var common := CommonAncestor(origin.value.path, target.value.path);
          && common.Some?
          && origin.value.node in Flatten(common.value, dimension)
          && target.value.node in Flatten(common.value, dimension)
  }

  lemma SwapsWhich(input: MoveInput) returns (origin: Region, target: Region, run: Node, i: nat, j: nat)
    requires SwapsAlongRun(input)
    ensures SwapsPanes(input, origin, target, run, i, j)
  {
    hide Origin, ForwardTarget, CommonAncestor, Flatten, LeafRegions;
    var dimension := Dimension(input.direction);
    origin := Origin(input).value;
    target := ForwardTarget(origin, LeafRegions(input), dimension, MovedLeafIsFirst(input.direction)).value;
    run := CommonAncestor(origin.path, target.path).value;
    var m: nat :| m < |Flatten(run, dimension)| && Flatten(run, dimension)[m] == origin.node;
    var n: nat :| n < |Flatten(run, dimension)| && Flatten(run, dimension)[n] == target.node;
    i, j := m, n;
  }

  /** The layout after the exchange, ready for the move back, and what exchanging there again leads to. */
  lemma AfterExchange(input: MoveInput, content: Frame, resolve: Resolver, target: WindowId, run: Node, i: nat, j: nat)
    requires Planned(input, content, resolve) && Sub(input.tree, run) && Parts(run, input.moved, target) && i != j
    requires var panes := Flatten(run, Dimension(input.direction));
             i < |panes| && j < |panes| && panes[i] == Leaf(input.moved) && panes[j] == Leaf(target)
    requires forall id :: Has(input.tree, id) ==>
               id in input.frames && Length(input.frames[id], Dimension(input.direction)) > BORDER_TOLERANCE
    ensures var axis := Dimension(input.direction);
            var exchanged := Swapped(run, axis, input.frames, i, j, input.gap);
            var next := Replace(input.tree, run, exchanged);
            var after := Solve(next, content, input.gap, resolve);
            && after.Some? && Planned(Back(input, next, after.value), content, resolve)
            && Sub(next, exchanged) && Parts(exchanged, input.moved, target)
            && |Flatten(exchanged, axis)| == |Flatten(run, axis)|
            && Flatten(exchanged, axis)[j] == Leaf(input.moved) && Flatten(exchanged, axis)[i] == Leaf(target)
            && input.moved in after.value && Length(after.value[input.moved], axis) > BORDER_TOLERANCE
            && target in after.value && Length(after.value[target], axis) > BORDER_TOLERANCE
            && Solve(Replace(next, exchanged, Swapped(exchanged, axis, after.value, j, i, input.gap)), content, input.gap, resolve)
               == Some(input.frames)
  {
    hide Solve, Has, Distinct, Sub, Flatten, Rebuild, Replace, Hull, Bag, Parts, Swapped;
    var axis := Dimension(input.direction);
    var panes := Flatten(run, axis);
    PartsHaveBoth(run, input.moved, target);
    SubHas(input.tree, run, input.moved);
    SubHas(input.tree, run, target);
    SubDistinct(input.tree, run);
    Exchanged(input, content, resolve, run, axis, i, j);
    SwappedParts(run, axis, input.frames, i, j, input.gap, input.moved, target);
    SwapIsUndoneBySwap(input.tree, content, input.gap, resolve, run, axis, i, j);
    var exchanged := Swapped(run, axis, input.frames, i, j, input.gap);
    var after := Solve(Replace(input.tree, run, exchanged), content, input.gap, resolve).value;
    KeepsLength(panes, input.frames, after, axis, i, input.moved);
    KeepsLength(panes, input.frames, after, axis, j, target);
    EitherOrder(exchanged, axis, after, i, j, input.gap);
  }

  /** A window moved along its run on planned frames, and moved back again: whenever the move takes the branch that
      exchanges two panes, the move the other way takes it too, and every window is where it was. */
  lemma MoveIsUndoneByMovingBack(input: MoveInput, content: Frame, resolve: Resolver)
    requires Planned(input, content, resolve) && SwapsAlongRun(input)
    requires forall id :: Has(input.tree, id) ==>
               id in input.frames && Length(input.frames[id], Dimension(input.direction)) > BORDER_TOLERANCE
    ensures var next := MoveGeometrically(input);
            var after := Solve(next, content, input.gap, resolve);
            && after.Some?
            && var back := Back(input, next, after.value);
               && SwapsAlongRun(back)
               && Solve(MoveGeometrically(back), content, input.gap, resolve) == Some(input.frames)
  {
    hide Solve, Has, Visit, Sub, Flatten, Replace, Origin, ForwardTarget, CommonAncestor, Parts, LeafRegions, MoveGeometrically,
         Swapped, Planned;
    var origin, target, run, i, j := SwapsWhich(input);
    SwapFacts(input, content, resolve, origin, target, run, i, j);
    TargetIsNeighbour(input, content, resolve, origin, target, run, i, j);
    MoveSwaps(input, content, resolve, origin, target, run, i, j);
    AfterExchange(input, content, resolve, target.node.id, run, i, j);
    var exchanged := Swapped(run, Dimension(input.direction), input.frames, i, j, input.gap);
    var next := Replace(input.tree, run, exchanged);
    var back := Back(input, next, Solve(next, content, input.gap, resolve).value);
    var o, t := BackSwaps(back, content, resolve, target.node.id, exchanged, j, i);
    MoveSwaps(back, content, resolve, o, t, exchanged, j, i);
  }

  lemma KeepsLength(panes: seq<Node>, before: Frames, after: Frames, axis: Axis, k: nat, id: WindowId)
    requires forall pane :: pane in panes ==> Length(Hull(pane, after), axis) == Length(Hull(pane, before), axis)
    requires k < |panes| && panes[k] == Leaf(id) && id in before && id in after
    ensures Length(after[id], axis) == Length(before[id], axis)
  {
    assert panes[k] in panes;
  }

  lemma EitherOrder(run: Node, axis: Axis, frames: Frames, i: nat, j: nat, gap: int)
    requires i < |Flatten(run, axis)| && j < |Flatten(run, axis)|
    ensures Swapped(run, axis, frames, i, j, gap) == Swapped(run, axis, frames, j, i, gap)
  {
    hide Flatten, Rebuild, Hull;
    var panes := Measure(Flatten(run, axis), frames, axis);
    assert SwapPanes(panes, i, j) == SwapPanes(panes, j, i);
  }
}
