/** The move that exchanges two windows standing in line but in different runs: what it may leave behind. */
module GridMoves {
  import opened Geometry
  import opened BspTree
  import opened Partition
  import opened Planner
  import opened Policies
  import opened Subtrees
  import opened GeometricMove
  import opened GeometricMoveProofs
  import opened GeometricEdgeProofs
  import opened SwapTheorems
  import opened MoveBack
  import opened MoveTargets
  import opened MoveLanding

  function StartingAt(f: Frame, axis: Axis, start: int): Frame {
    if axis == Vertical then f.(x := start) else f.(y := start)
  }

  /** Where each window should be: the later of the two where the earlier one started, the earlier one so that it ends
      where the later one did, everyone else where they are. */
  function Wanted(input: MoveInput, target: WindowId, id: WindowId): Frame
    requires input.moved in input.frames && target in input.frames && id in input.frames
  {
    var axis := Dimension(input.direction);
    var f, g := input.frames[input.moved], input.frames[target];
    var (first, second) := if Start(f, axis) < Start(g, axis) then (input.moved, target) else (target, input.moved);
    if id == second then StartingAt(input.frames[id], axis, Start(input.frames[first], axis))
    else if id == first then StartingAt(input.frames[id], axis, End(input.frames[second], axis) - Length(input.frames[first], axis))
    else input.frames[id]
  }

  /** The least frame around what is wanted for the windows of a pane. */
  ghost predicate Surrounds(input: MoveInput, target: WindowId, pane: Node, bounds: Frame)
    requires AllSeen(input) && Has(input.tree, target) && Sub(input.tree, pane)
  {
    var known := (id: WindowId) => Has(pane, id) && id in input.frames;
    && (forall id :: Has(pane, id) ==> id in input.frames && Inside(Wanted(input, target, id), bounds))
    && (exists id :: known(id) && Wanted(input, target, id).x == bounds.x)
    && (exists id :: known(id) && Wanted(input, target, id).y == bounds.y)
    && (exists id :: known(id) && Wanted(input, target, id).x + Wanted(input, target, id).width == bounds.x + bounds.width)
    && (exists id :: known(id) && Wanted(input, target, id).y + Wanted(input, target, id).height == bounds.y + bounds.height)
  }

  lemma {:induction false} DesiredMembers(regions: seq<Region>, ancestor: Node, first: Region, second: Region, axis: Axis)
    ensures forall d :: d in Desired(regions, ancestor, first, second, axis)
              ==> exists r :: r in regions && d in DesiredOne(r, ancestor, first, second, axis)
    ensures forall r, d :: r in regions && d in DesiredOne(r, ancestor, first, second, axis)
              ==> d in Desired(regions, ancestor, first, second, axis)
  {
    hide DesiredOne;
    if regions != [] {
      DesiredMembers(regions[1..], ancestor, first, second, axis);
      assert regions == [regions[0]] + regions[1..];
    }
  }

  lemma MovedToIs(f: Region, axis: Axis, start: int)
    ensures MoveTo(f, axis, start) == f.(frame := StartingAt(f.frame, axis, start))
  {
  }

  ghost predicate Earlier(input: MoveInput, o: Region, t: Region, first: Region, second: Region) {
    var axis := Dimension(input.direction);
    if Start(o.frame, axis) < Start(t.frame, axis) then first == o && second == t else first == t && second == o
  }

  /** What is wanted of one observed region. */
  lemma DesiredIsWanted(input: MoveInput, o: Region, t: Region, run: Node, first: Region, second: Region, r: Region)
    requires Distinct(input.tree) && AllSeen(input) && Situated(input, o, t) && t.node.Leaf? && Sub(input.tree, run) && run.Split?
    requires o in LeafRegions(input) && t in LeafRegions(input) && Earlier(input, o, t, first, second)
    requires r in Visit(input.tree, [], input.frames).0
    ensures t.node.id in input.frames
    ensures var desired := DesiredOne(r, run, first, second, Dimension(input.direction));
            if r.node.Leaf? && Has(run, r.node.id) then
              && r.node.id in input.frames
              && |desired| == 1 && desired[0].node == r.node && desired[0].frame == Wanted(input, t.node.id, r.node.id)
            else desired == []
  {
    hide Has, Distinct, Visit, AtPath, Sub, Situated, LeafRegions;
    LeafRegionFacts(input, o);
    LeafRegionFacts(input, t);
    SituatedNodes(input, o, t);
    if r.node.Leaf? {
      KeptRegion(input, r);
      LeafRegionFacts(input, r);
      PathHasRun(input, r, run);
      SameWindowSameRegion(input, r, first);
      SameWindowSameRegion(input, r, second);
      MovedToIs(r, Dimension(input.direction), Start(first.frame, Dimension(input.direction)));
      MovedToIs(r, Dimension(input.direction), Start(second.frame, Dimension(input.direction))
                + Length(second.frame, Dimension(input.direction)) - Length(first.frame, Dimension(input.direction)));
    }
  }

  lemma KeptRegion(input: MoveInput, r: Region)
    requires r in Visit(input.tree, [], input.frames).0 && r.node.Leaf?
    ensures r in LeafRegions(input)
  {
    hide Visit;
  }

  lemma PathHasRun(input: MoveInput, r: Region, run: Node)
    requires Distinct(input.tree) && Sub(input.tree, run) && run.Split? && r.node.Leaf? && AtPath(input.tree, r.path, r.node)
    ensures run in r.path <==> Has(run, r.node.id)
  {
    hide AtPath, Distinct;
    AtPathIsSub(input.tree, r.path, r.node);
    HasLeaf(run, r.node.id);
    if Has(run, r.node.id) {
      BetweenIsOnPath(input.tree, r.path, r.node, run);
    }
  }

  lemma {:induction false} OnePath(tree: Node, p: seq<Node>, q: seq<Node>, id: WindowId)
    requires Distinct(tree) && AtPath(tree, p, Leaf(id)) && AtPath(tree, q, Leaf(id))
    ensures p == q
    decreases tree
  {
    hide Distinct, Has, AtPath;
    if tree.Split? {
      PathIntoHalf(tree, p, id);
      PathIntoHalf(tree, q, id);
      DistinctParts(tree);
      if Has(tree.first, id) {
        OnePath(tree.first, p[1..], q[1..], id);
      } else {
        OnePath(tree.second, p[1..], q[1..], id);
      }
      assert p == [p[0]] + p[1..] && q == [q[0]] + q[1..];
    } else {
      NoPath(tree, p, id);
      NoPath(tree, q, id);
    }
  }

  lemma NoPath(tree: Node, p: seq<Node>, id: WindowId)
    requires tree.Leaf? && AtPath(tree, p, Leaf(id))
    ensures p == []
  {
  }

  lemma {:induction false} AreaIsArea(node: Node, path: seq<Node>, frames: Frames, r: Region)
    requires r in Visit(node, path, frames).0 && r.node.Leaf?
    ensures r.node.id in frames && r.frame == frames[r.node.id] && r.area == Area(frames[r.node.id])
  {
    hide Area;
    if node.Split? {
      var (inFirst, a) := Visit(node.first, path + [node], frames);
      var (inSecond, b) := Visit(node.second, path + [node], frames);
      if r in inFirst {
        AreaIsArea(node.first, path + [node], frames, r);
      } else {
        AreaIsArea(node.second, path + [node], frames, r);
      }
    }
  }

  lemma SameWindowSameRegion(input: MoveInput, a: Region, b: Region)
    requires Distinct(input.tree) && a in LeafRegions(input) && b in LeafRegions(input)
    ensures a.node == b.node ==> a == b
  {
    hide Visit, Distinct, AtPath, Has;
    LeafRegionFacts(input, a);
    LeafRegionFacts(input, b);
    AreaIsArea(input.tree, [], input.frames, a);
    AreaIsArea(input.tree, [], input.frames, b);
    if a.node == b.node {
      OnePath(input.tree, a.path, b.path, a.node.id);
    }
  }

  /** The frame around regions: all of them inside, every border of it some region's. */
  ghost predicate Tight(regions: seq<Region>, bounds: Frame) {
    && (forall i :: 0 <= i < |regions| ==> Inside(regions[i].frame, bounds))
    && (exists i :: 0 <= i < |regions| && regions[i].frame.x == bounds.x)
    && (exists i :: 0 <= i < |regions| && regions[i].frame.y == bounds.y)
    && (exists i :: 0 <= i < |regions| && regions[i].frame.x + regions[i].frame.width == bounds.x + bounds.width)
    && (exists i :: 0 <= i < |regions| && regions[i].frame.y + regions[i].frame.height == bounds.y + bounds.height)
  }

  lemma OneMoreTight(regions: seq<Region>, r: Region, bounds: Frame)
    requires Tight(regions, bounds)
    ensures Tight(regions + [r], Union(bounds, r.frame))
  {
    var all, u := regions + [r], Union(bounds, r.frame);
    assert all[|regions|] == r;
    assert forall i :: 0 <= i < |regions| ==> all[i] == regions[i];
    if u.x == bounds.x {
      var i :| 0 <= i < |regions| && regions[i].frame.x == bounds.x;
      assert all[i].frame.x == u.x;
    }
    if u.y == bounds.y {
      var i :| 0 <= i < |regions| && regions[i].frame.y == bounds.y;
      assert all[i].frame.y == u.y;
    }
    if u.x + u.width == bounds.x + bounds.width {
      var i :| 0 <= i < |regions| && regions[i].frame.x + regions[i].frame.width == bounds.x + bounds.width;
      assert all[i].frame.x + all[i].frame.width == u.x + u.width;
    }
    if u.y + u.height == bounds.y + bounds.height {
      var i :| 0 <= i < |regions| && regions[i].frame.y + regions[i].frame.height == bounds.y + bounds.height;
      assert all[i].frame.y + all[i].frame.height == u.y + u.height;
    }
  }

  lemma {:induction false} UnionIsTight(regions: seq<Region>)
    requires regions != []
    ensures Tight(regions, UnionAll(regions))
  {
    hide Union;
    var n := |regions| - 1;
    if n > 0 {
      hide Tight;
      UnionIsTight(regions[..n]);
      OneMoreTight(regions[..n], regions[n], UnionAll(regions[..n]));
      assert regions == regions[..n] + [regions[n]];
    } else {
      assert regions[0].frame == UnionAll(regions);
    }
  }

  /** The regions the program wants, and what is wanted of the windows of the pane. */
  ghost predicate SaysWhatIsWanted(input: MoveInput, target: WindowId, pane: Node, desired: seq<Region>)
    requires AllSeen(input) && Has(input.tree, target) && Sub(input.tree, pane)
  {
    && (forall i :: 0 <= i < |desired| ==>
          && desired[i].node.Leaf? && Has(pane, desired[i].node.id) && desired[i].node.id in input.frames
          && desired[i].frame == Wanted(input, target, desired[i].node.id))
    && (forall id :: Has(pane, id) ==> exists i :: 0 <= i < |desired| && desired[i].node == Leaf(id))
  }

  lemma DesiredSaysWhatIsWanted(input: MoveInput, o: Region, t: Region, run: Node, first: Region, second: Region)
    requires Distinct(input.tree) && AllSeen(input) && Situated(input, o, t) && t.node.Leaf? && Sub(input.tree, run) && run.Split?
    requires o in LeafRegions(input) && t in LeafRegions(input) && Earlier(input, o, t, first, second)
    ensures Has(input.tree, t.node.id)
    ensures SaysWhatIsWanted(input, t.node.id, run, Desired(Visit(input.tree, [], input.frames).0, run, first, second, Dimension(input.direction)))
  {
    hide Has, Distinct, Visit, AtPath, Sub, Situated, LeafRegions, Desired, DesiredOne, Wanted;
    LeafRegionFacts(input, t);
    OriginIffSeen(input);
    var regions, axis := Visit(input.tree, [], input.frames).0, Dimension(input.direction);
    var desired := Desired(regions, run, first, second, axis);
    DesiredMembers(regions, run, first, second, axis);
    forall i | 0 <= i < |desired|
      ensures && desired[i].node.Leaf? && Has(run, desired[i].node.id) && desired[i].node.id in input.frames
              && desired[i].frame == Wanted(input, t.node.id, desired[i].node.id)
    {
      assert desired[i] in desired;
      var r :| r in regions && desired[i] in DesiredOne(r, run, first, second, axis);
      DesiredIsWanted(input, o, t, run, first, second, r);
    }
    forall id | Has(run, id) ensures exists i :: 0 <= i < |desired| && desired[i].node == Leaf(id) {
      SubHas(input.tree, run, id);
      var r := LeafRegion(input, id);
      LeafRegionFacts(input, r);
      DesiredIsWanted(input, o, t, run, first, second, r);
      var d := DesiredOne(r, run, first, second, axis)[0];
      assert d in desired;
    }
  }

  lemma TightSurrounds(input: MoveInput, target: WindowId, pane: Node, desired: seq<Region>, bounds: Frame)
    requires AllSeen(input) && Has(input.tree, target) && Sub(input.tree, pane)
    requires SaysWhatIsWanted(input, target, pane, desired) && Tight(desired, bounds)
    ensures Surrounds(input, target, pane, bounds)
  {
    hide Has, Wanted, Sub, Inside;
    forall id | Has(pane, id) ensures id in input.frames && Inside(Wanted(input, target, id), bounds) {
      var i :| 0 <= i < |desired| && desired[i].node == Leaf(id);
    }
  }

  /** The tree in the pane's place has the same windows, and by itself, in the frame around what is wanted, it puts each
      within two points of where it is wanted. */
  ghost predicate PutsAsWanted(input: MoveInput, target: WindowId, pane: Node, grid: Node)
    requires AllSeen(input) && Has(input.tree, target) && Sub(input.tree, pane)
  {
    && Bag(grid) == Bag(pane)
    && exists bounds :: Surrounds(input, target, pane, bounds) && Solve(grid, bounds, input.gap, NO_BOUNDS).Some?
         && var plan := Solve(grid, bounds, input.gap, NO_BOUNDS).value;
            forall id :: Has(pane, id) ==>
              id in plan && id in input.frames && WithinTolerance(plan[id], Wanted(input, target, id), 2)
  }

  /** A facing window in line with the moved one, but not in its run: either nothing changes, or the pane that holds both
      is laid out anew so that the two have changed places and everyone else in it is where they were, within two points. */
  lemma GridMoveLands(input: MoveInput, target: WindowId, run: Node)
    requires Distinct(input.tree) && AllSeen(input) && HeadsFor(input, target)
    requires var axis, f, g := Dimension(input.direction), input.frames[input.moved], input.frames[target];
             Share(f, g, Other(axis), 1) && LinedUp(f, g, Other(axis))
    requires Sub(input.tree, run) && Parts(run, input.moved, target)
    requires !InOneRun(input.tree, Dimension(input.direction), input.moved, target, run)
    ensures Has(input.tree, target)
    ensures MoveGeometrically(input) == input.tree
         || exists grid :: PutsAsWanted(input, target, run, grid) && MoveGeometrically(input) == Replace(input.tree, run, grid)
  {
    hide Has, Distinct, HeadsFor, AllSeen, Visit, MoveGeometrically, Share, Replace, SwapAlongAxis, CommonAncestor, AtPath, Sub,
         Parts, SwapAlignedFrames, CarryDivider, TradePlaces, PutsAsWanted, Flatten;
    var o, t := Facing(input, target);
    LeafRegionFacts(input, t);
    var axis := Dimension(input.direction);
    CommonAncestorParts(input.tree, o.path, t.path, input.moved, target);
    PartsOnce(input.tree, input.moved, target, CommonAncestor(o.path, t.path).value, run);
    NoSwapAlong(input, o, t, run);
    SomeParent(input, o, t);
    GridOf(input, o, t, run);
  }

  lemma GridOf(input: MoveInput, o: Region, t: Region, run: Node)
    requires Distinct(input.tree) && AllSeen(input) && Situated(input, o, t) && t.node.Leaf? && Sub(input.tree, run)
    requires o in LeafRegions(input) && t in LeafRegions(input) && Parts(run, input.moved, t.node.id)
    requires Has(input.tree, t.node.id)
    ensures var result := SwapAlignedFrames(input, run, o, t, Visit(input.tree, [], input.frames).0, Dimension(input.direction));
            result == input.tree
            || exists grid :: PutsAsWanted(input, t.node.id, run, grid) && result == Replace(input.tree, run, grid)
  {
    hide Has, Distinct, AllSeen, Visit, Replace, AtPath, Sub, Situated, LeafRegions, Desired, SliceFrames, Solve, PlanLayout, UnionAll,
         PutsAsWanted, RegionBag, SaysWhatIsWanted, PlanMatches;
    var regions, axis := Visit(input.tree, [], input.frames).0, Dimension(input.direction);
    var (first, second) := if Start(o.frame, axis) < Start(t.frame, axis) then (o, t) else (t, o);
    DesiredSaysWhatIsWanted(input, o, t, run, first, second);
    OriginIffSeen(input);
    DesiredBag(input.tree, [], input.frames, run, first, second, axis);
    var desired := Desired(regions, run, first, second, axis);
    if desired != [] {
      var tree := SliceFrames(desired, [Other(axis), axis], input.gap);
      if tree.Some? {
        SliceFramesBag(desired, [Other(axis), axis], input.gap);
        UnionIsTight(desired);
        TightSurrounds(input, t.node.id, run, desired, UnionAll(desired));
        MatchedIsWanted(input, t.node.id, run, desired, tree.value);
      }
    }
  }

  lemma MatchedIsWanted(input: MoveInput, target: WindowId, pane: Node, desired: seq<Region>, grid: Node)
    requires AllSeen(input) && Has(input.tree, target) && Sub(input.tree, pane) && desired != []
    requires SaysWhatIsWanted(input, target, pane, desired) && Surrounds(input, target, pane, UnionAll(desired))
    requires Bag(grid) == Bag(pane)
    ensures var plan := PlanLayout(LayoutInput(grid, UnionAll(desired), Some(input.gap), NO_BOUNDS), [GreedyPolicy]);
            plan.Feasible? && PlanMatches(plan.frames, desired) ==> PutsAsWanted(input, target, pane, grid)
  {
    hide Has, Wanted, Sub, Solve, UnionAll, Surrounds, Bag, WithinTolerance;
    var bounds := UnionAll(desired);
    var layout := LayoutInput(grid, bounds, Some(input.gap), NO_BOUNDS);
    var plan := PlanLayout(layout, [GreedyPolicy]);
    assert [GreedyPolicy][1..] == [];
    assert ChainPlan(layout, []) == Infeasible;
    if plan.Feasible? && PlanMatches(plan.frames, desired) {
      assert Solve(grid, bounds, input.gap, NO_BOUNDS) == Some(plan.frames);
      forall id | Has(pane, id)
        ensures id in plan.frames && id in input.frames && WithinTolerance(plan.frames[id], Wanted(input, target, id), 2)
      {
        var i :| 0 <= i < |desired| && desired[i].node == Leaf(id);
      }
    }
  }
}
