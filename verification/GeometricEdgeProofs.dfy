/** Re-slicing grids and moving along the outer edge, and the theorem over all branches. */
module GeometricEdgeProofs {
  import opened Geometry
  import opened BspTree
  import opened Partition
  import opened Planner
  import opened Policies
  import opened Subtrees
  import opened GeometricMove
  import opened GeometricMoveProofs

  // ---------------------------------------------------------------- re-slicing

  function RegionBag(regions: seq<Region>): multiset<WindowId> {
    if regions == [] then multiset{} else Bag(regions[0].node) + RegionBag(regions[1..])
  }

  lemma {:induction false} RegionBagOfConcat(a: seq<Region>, b: seq<Region>)
    ensures RegionBag(a + b) == RegionBag(a) + RegionBag(b)
  {
    hide Bag;
    if a == [] {
      assert a + b == b;
    } else {
      RegionBagOfConcat(a[1..], b);
      assert (a + b)[1..] == a[1..] + b;
      BagAssociates(Bag(a[0].node), RegionBag(a[1..]), RegionBag(b));
    }
  }

  lemma {:induction false} InsertRegionBag(region: Region, sorted: seq<Region>, le: (Region, Region) -> bool)
    ensures RegionBag(InsertRegion(region, sorted, le)) == Bag(region.node) + RegionBag(sorted)
  {
    hide Bag;
    var r := InsertRegion(region, sorted, le);
    if sorted == [] || le(region, sorted[0]) {
      assert r[1..] == sorted;
    } else {
      InsertRegionBag(region, sorted[1..], le);
      assert r[1..] == InsertRegion(region, sorted[1..], le);
      BagAssociates(Bag(sorted[0].node), Bag(region.node), RegionBag(sorted[1..]));
      BagAssociates(Bag(region.node), Bag(sorted[0].node), RegionBag(sorted[1..]));
    }
  }

  lemma {:induction false} SortBag(regions: seq<Region>, le: (Region, Region) -> bool)
    ensures RegionBag(SortRegions(regions, le)) == RegionBag(regions)
  {
    hide Bag;
    if regions != [] {
      SortBag(regions[1..], le);
      InsertRegionBag(regions[0], SortRegions(regions[1..], le), le);
    }
  }

  lemma {:induction false} SliceFramesBag(regions: seq<Region>, dimensions: seq<Axis>, gap: int)
    requires regions != [] && SliceFrames(regions, dimensions, gap).Some?
    ensures Bag(SliceFrames(regions, dimensions, gap).value) == RegionBag(regions)
    decreases |regions|, 2, |dimensions|
  {
    hide Bag;
    if |regions| == 1 {
      assert regions[1..] == [];
    } else {
      SliceAlongBag(regions, dimensions, dimensions, gap);
    }
  }

  lemma {:induction false} SliceAlongBag(regions: seq<Region>, dimensions: seq<Axis>, remaining: seq<Axis>, gap: int)
    requires |regions| >= 2 && SliceAlong(regions, dimensions, remaining, gap).Some?
    ensures Bag(SliceAlong(regions, dimensions, remaining, gap).value) == RegionBag(regions)
    decreases |regions|, 1, |remaining|
  {
    hide Bag, RegionBag, SliceFrom, SortRegions, UnionAll;
    var ordered := OrderedAlong(regions, remaining[0]);
    SortBag(regions, (a: Region, b: Region) => Start(a.frame, remaining[0]) <= Start(b.frame, remaining[0]));
    if SliceFrom(ordered, dimensions, remaining[0], UnionAll(regions), 1, gap).Some? {
      SliceFromBag(ordered, dimensions, remaining[0], UnionAll(regions), 1, gap);
    } else {
      SliceAlongBag(regions, dimensions, remaining[1..], gap);
    }
  }

  lemma {:induction false} SliceFromBag(ordered: seq<Region>, dimensions: seq<Axis>, dimension: Axis, bounds: Frame,
                                        i: nat, gap: int)
    requires 1 <= i <= |ordered| && SliceFrom(ordered, dimensions, dimension, bounds, i, gap).Some?
    ensures Bag(SliceFrom(ordered, dimensions, dimension, bounds, i, gap).value) == RegionBag(ordered)
    decreases |ordered|, 0, |ordered| - i
  {
    hide RegionBag, SliceFrames, RatioForLength, BorderOf;
    if SliceFrom(ordered, dimensions, dimension, bounds, i + 1, gap).Some? {
      SliceFromBag(ordered, dimensions, dimension, bounds, i + 1, gap);
    }
    if SliceFrames(ordered[..i], dimensions, gap).Some? && SliceFrames(ordered[i..], dimensions, gap).Some? {
      SliceFramesBag(ordered[..i], dimensions, gap);
      SliceFramesBag(ordered[i..], dimensions, gap);
      assert ordered == ordered[..i] + ordered[i..];
      RegionBagOfConcat(ordered[..i], ordered[i..]);
    }
  }

  // ---------------------------------------------------------------- the leaves below an ancestor

  lemma DesiredStep(regions: seq<Region>, ancestor: Node, first: Region, second: Region, dimension: Axis)
    requires regions != []
    ensures Desired(regions, ancestor, first, second, dimension)
            == DesiredOne(regions[0], ancestor, first, second, dimension)
             + Desired(regions[1..], ancestor, first, second, dimension)
  {
    hide DesiredOne;
  }

  lemma DesiredOfNone(ancestor: Node, first: Region, second: Region, dimension: Axis)
    ensures Desired([], ancestor, first, second, dimension) == []
  {
  }

  lemma {:induction false} DesiredOfConcat(a: seq<Region>, b: seq<Region>, ancestor: Node, first: Region,
                                           second: Region, dimension: Axis)
    ensures Desired(a + b, ancestor, first, second, dimension)
            == Desired(a, ancestor, first, second, dimension) + Desired(b, ancestor, first, second, dimension)
  {
    hide Desired, DesiredOne;
    if a == [] {
      assert a + b == b;
      DesiredOfNone(ancestor, first, second, dimension);
    } else {
      DesiredOfConcat(a[1..], b, ancestor, first, second, dimension);
      assert (a + b)[1..] == a[1..] + b;
      DesiredStep(a, ancestor, first, second, dimension);
      DesiredStep(a + b, ancestor, first, second, dimension);
    }
  }

  /** Displaced or not, the collected leaves are the windows of the ancestor. */
  lemma {:induction false} DesiredBag(node: Node, path: seq<Node>, frames: Frames, ancestor: Node, first: Region,
                                      second: Region, dimension: Axis)
    requires Distinct(node) && ancestor.Split? && Visit(node, path, frames).1.Some?
    ensures RegionBag(Desired(Visit(node, path, frames).0, ancestor, first, second, dimension))
            == if ancestor in path then Bag(node)
               else if Sub(node, ancestor) then Bag(ancestor)
               else multiset{}
  {
    if node.Leaf? {
      DesiredOfLeaf(node, path, frames, ancestor, first, second, dimension);
    } else {
      var inner := path + [node];
      var (inFirst, a) := Visit(node.first, inner, frames);
      var (inSecond, b) := Visit(node.second, inner, frames);
      DistinctParts(node);
      DesiredBag(node.first, inner, frames, ancestor, first, second, dimension);
      DesiredBag(node.second, inner, frames, ancestor, first, second, dimension);
      DesiredOfSplit(node, path, frames, ancestor, first, second, dimension);
      if ancestor !in path && node != ancestor {
        var id := SomeWindow(ancestor);
        OneSide(node, ancestor, id);
      }
    }
  }

  lemma DesiredOfLeaf(node: Node, path: seq<Node>, frames: Frames, ancestor: Node, first: Region, second: Region,
                      dimension: Axis)
    requires node.Leaf? && ancestor.Split? && Visit(node, path, frames).1.Some?
    ensures RegionBag(Desired(Visit(node, path, frames).0, ancestor, first, second, dimension))
            == if ancestor in path then Bag(node) else multiset{}
    ensures !Sub(node, ancestor)
  {
    var region := Visit(node, path, frames).1.value;
    assert [region][1..] == [];
    assert Desired([], ancestor, first, second, dimension) == [];
    var d := Desired([region], ancestor, first, second, dimension);
    if ancestor in path {
      assert |d| == 1 && d[0].node == node;
      assert d[1..] == [];
    } else {
      assert d == [];
    }
  }

  lemma DesiredOfSplit(node: Node, path: seq<Node>, frames: Frames, ancestor: Node, first: Region, second: Region,
                       dimension: Axis)
    requires node.Split? && Visit(node, path, frames).1.Some?
    ensures RegionBag(Desired(Visit(node, path, frames).0, ancestor, first, second, dimension))
            == RegionBag(Desired(Visit(node.first, path + [node], frames).0, ancestor, first, second, dimension))
             + RegionBag(Desired(Visit(node.second, path + [node], frames).0, ancestor, first, second, dimension))
  {
    hide RegionBag, Bag;
    var inFirst := Visit(node.first, path + [node], frames).0;
    var inSecond := Visit(node.second, path + [node], frames).0;
    var own := [Visit(node, path, frames).1.value];
    DesiredOfConcat(inFirst + inSecond, own, ancestor, first, second, dimension);
    DesiredOfConcat(inFirst, inSecond, ancestor, first, second, dimension);
    assert own[1..] == [];
    assert Desired(own[1..], ancestor, first, second, dimension) == [];
    assert Desired(own, ancestor, first, second, dimension) == [];
    var a := Desired(inFirst, ancestor, first, second, dimension);
    var b := Desired(inSecond, ancestor, first, second, dimension);
    assert Visit(node, path, frames).0 == inFirst + inSecond + own;
    assert Desired(Visit(node, path, frames).0, ancestor, first, second, dimension) == a + b;
    RegionBagOfConcat(Desired(inFirst, ancestor, first, second, dimension),
                      Desired(inSecond, ancestor, first, second, dimension));
  }

  lemma SwapAlignedConserves(input: MoveInput, ancestor: Node, origin: Region, target: Region,
                             regions: seq<Region>, dimension: Axis)
    requires Distinct(input.tree) && ancestor.Split? && Sub(input.tree, ancestor)
    requires Visit(input.tree, [], input.frames).1.Some? && regions == Visit(input.tree, [], input.frames).0
    ensures Bag(SwapAlignedFrames(input, ancestor, origin, target, regions, dimension)) == Bag(input.tree)
  {
    hide Bag, Sub, Visit, Desired, SliceFrames, PlanLayout, PlanMatches, Replace, RegionBag, UnionAll, Distinct;
    var (first, second) :=
      if Start(origin.frame, dimension) < Start(target.frame, dimension) then (origin, target) else (target, origin);
    var desired := Desired(regions, ancestor, first, second, dimension);
    DesiredBag(input.tree, [], input.frames, ancestor, first, second, dimension);
    if desired != [] {
      var sliced := SliceFrames(desired, [Other(dimension), dimension], input.gap);
      if sliced.Some? {
        SliceFramesBag(desired, [Other(dimension), dimension], input.gap);
        RearrangeConserves(input.tree, ancestor, sliced.value);
      }
    }
  }

  /** Moving towards a facing pane conserves windows on every branch. */
  lemma MoveDirectConserves(input: MoveInput, origin: Region, target: Region, dimension: Axis)
    requires Situated(input, origin, target) && target.node.Leaf?
    requires Visit(input.tree, [], input.frames).1.Some?
    ensures Bag(MoveDirect(input, origin, target, Visit(input.tree, [], input.frames).0, dimension)) == Bag(input.tree)
  {
    hide Bag, Sub, Visit, SwapAlongAxis, SwapAlignedFrames, CommonAncestor, CarryDivider, TradePlaces, AtPath, Distinct;
    var regions := Visit(input.tree, [], input.frames).0;
    var common := CommonAncestor(origin.path, target.path);
    if common.Some? {
      CommonAncestorHolds(input.tree, origin, target);
      SwapAlongAxisConserves(input.tree, common.value, origin, target, regions, dimension, input.gap);
      SwapAlignedConserves(input, common.value, origin, target, regions, dimension);
      CarryDividerConserves(input, origin, target);
      if Last(target.path) !in origin.path {
        TradePlacesConserves(input, origin, target);
      }
    }
  }

  // ---------------------------------------------------------------- the outer edge

  lemma {:induction false} RemoveForEdgeConserves(node: Node, moved: WindowId, axis: Axis, frames: Frames, gap: int)
    requires Distinct(node)
    ensures var r := RemoveForEdge(node, moved, axis, frames, gap);
            && (!Has(node, moved) ==> r == Some(node))
            && (r.None? ==> node == Leaf(moved))
            && (r.Some? && Has(node, moved) ==> Bag(r.value) + multiset{moved} == Bag(node))
  {
    if node.Split? {
      DistinctParts(node);
      HasInParts(node);
      RemoveForEdgeStep(node, moved, axis, frames, gap);
      BagOfHalves(node);
      hide RemoveForEdge, Bag, Distinct;
      RemoveForEdgeConserves(node.first, moved, axis, frames, gap);
      RemoveForEdgeConserves(node.second, moved, axis, frames, gap);
      var a := RemoveForEdge(node.first, moved, axis, frames, gap);
      var b := RemoveForEdge(node.second, moved, axis, frames, gap);
      LoneBag(moved);
      if Has(node.first, moved) {
        if a.Some? { MinusLeft(Bag(a.value), Bag(node.second), moved); } else { MinusLeft(multiset{}, Bag(node.second), moved); }
      } else if Has(node.second, moved) {
        if b.Some? { MinusRight(Bag(node.first), Bag(b.value), moved); } else { MinusRight(Bag(node.first), multiset{}, moved); }
      }
    }
  }

  lemma RemoveForEdgeStep(node: Node, moved: WindowId, axis: Axis, frames: Frames, gap: int)
    requires node.Split?
    ensures var a := RemoveForEdge(node.first, moved, axis, frames, gap);
            var b := RemoveForEdge(node.second, moved, axis, frames, gap);
            var r := RemoveForEdge(node, moved, axis, frames, gap);
            && (a.None? ==> r == b)
            && (a.Some? && b.None? ==> r == a)
            && (a.Some? && b.Some? ==> r.Some? && Bag(r.value) == Bag(a.value) + Bag(b.value))
            && (a == Some(node.first) && b == Some(node.second) ==> r == Some(node))
  {
    hide RatioForLength, Extent;
  }

  lemma BagOfHalves(node: Node)
    requires node.Split?
    ensures Bag(node) == Bag(node.first) + Bag(node.second)
  {
  }

  lemma LoneBag(id: WindowId)
    ensures Bag(Leaf(id)) == multiset{id}
  {
  }

  lemma MinusLeft(a: multiset<WindowId>, b: multiset<WindowId>, id: WindowId)
    ensures (a + b) + multiset{id} == (a + multiset{id}) + b
    ensures multiset{} + b == b && multiset{} + multiset{id} == multiset{id}
  {
  }

  lemma MinusRight(a: multiset<WindowId>, b: multiset<WindowId>, id: WindowId)
    ensures (a + b) + multiset{id} == a + (b + multiset{id})
    ensures a + multiset{} == a && multiset{} + multiset{id} == multiset{id}
  {
  }

  lemma EdgePairConserves(ancestor: Node, origin: Region, target: Region, axis: Axis, before: bool, moved: WindowId)
    requires ancestor.Split? && Distinct(ancestor) && Sub(ancestor, Leaf(moved)) && origin.node == Leaf(moved)
    requires origin.path != [] && target.path != []
    ensures Bag(EdgePair(ancestor, origin, target, axis, before, moved)) == Bag(ancestor)
  {
    hide Sub, Replace, Without, Distinct;
    WithoutConserves(ancestor, moved);
    var removed := Without(ancestor, moved);
    var targetParent := Last(target.path);
    if targetParent.Split? {
      var turned := targetParent.(axis := Other(axis));
      RearrangeConserves(removed, targetParent, turned);
    }
  }

  lemma HoldsRegionIsSub(tree: Node, pane: Node, region: Region)
    requires AtPath(tree, region.path, region.node) && HoldsRegion(pane, region)
    ensures Sub(pane, region.node)
  {
    if pane != region.node {
      OnPathHolds(tree, region, pane);
    }
  }

  /** The two neighbouring panes seen as one pair. */
  lemma AdjacentPair(tree: Node, ancestor: Node, axis: Axis, at: nat, ratio: real, held: nat, origin: Region)
    requires Distinct(tree) && Sub(tree, ancestor) && ancestor.Split?
    requires at + 1 < |Flatten(ancestor, axis)| && (held == at || held == at + 1)
    requires AtPath(tree, origin.path, origin.node) && HoldsRegion(Flatten(ancestor, axis)[held], origin)
    ensures var panes := Flatten(ancestor, axis);
            var pair := if |panes| == 2 then ancestor else Split(axis, ratio, panes[at], panes[at + 1]);
            && Bag(pair) == Bag(panes[at]) + Bag(panes[at + 1])
            && Distinct(pair) && Sub(pair, origin.node)
  {
    hide AtPath, HoldsRegion, Bag, BagOf, Flatten, Sub, Distinct;
    var panes := Flatten(ancestor, axis);
    FlattenBag(ancestor, axis);
    FlattenSub(ancestor, axis, held);
    HoldsRegionIsSub(tree, panes[held], origin);
    SubDistinct(tree, ancestor);
    if |panes| == 2 {
      SubTransitive(ancestor, panes[held], origin.node);
      TwoPanes(panes);
    } else {
      var pair := Split(axis, ratio, panes[at], panes[at + 1]);
      BagOfHalves(pair);
      SplitAtTwo(panes, at);
      SmallerIsDistinct(ancestor, pair, BagOf(panes[..at]), BagOf(panes[at + 2..]));
      SubOfHalf(pair, origin.node);
    }
  }

  lemma SubOfHalf(node: Node, part: Node)
    requires node.Split? && (Sub(node.first, part) || Sub(node.second, part))
    ensures Sub(node, part)
  {
  }

  lemma TwoPanes(panes: seq<Node>)
    requires |panes| == 2
    ensures BagOf(panes) == Bag(panes[0]) + Bag(panes[1])
  {
    SplitAtTwo(panes, 0);
    assert panes[..0] == [] && panes[2..] == [];
  }

  lemma SmallerIsDistinct(whole: Node, part: Node, before: multiset<WindowId>, after: multiset<WindowId>)
    requires Distinct(whole) && Bag(whole) == before + Bag(part) + after
    ensures Distinct(part)
  {
    forall id ensures Bag(part)[id] <= 1 {
      assert Bag(whole)[id] == before[id] + Bag(part)[id] + after[id];
    }
  }

  lemma PairAdjacentConserves(input: MoveInput, ancestor: Node, origin: Region, target: Region,
                              regions: seq<Region>, dimension: Axis, before: bool)
    requires Situated(input, origin, target) && ancestor.Split? && Sub(input.tree, ancestor)
    ensures var r := PairAdjacentRegions(input, ancestor, origin, target, regions, dimension, before);
            r.Some? ==> Bag(r.value) == Bag(input.tree)
  {
    hide Bag, Sub, AtPath, Flatten, Replace, JoinPanes, EdgePair, Splice, RatioForLength, HoldsRegion, Distinct, Sized,
      IndexHolding, Has;
    var axis := Other(dimension);
    var panes := Flatten(ancestor, axis);
    var from, to := IndexHolding(panes, origin), IndexHolding(panes, target);
    if from >= 0 && to >= 0 && Abs(from - to) == 1 {
      var at := Min(from, to);
      var sized := Sized(panes, regions, axis);
      var ratio := RatioForLength(sized[at].size as real, sized[at].size + sized[at + 1].size);
      var pair := if |panes| == 2 then ancestor else Split(axis, ratio, panes[at], panes[at + 1]);
      AdjacentPair(input.tree, ancestor, axis, at, ratio, from, origin);
      EdgePairConserves(pair, origin, target, dimension, before, input.moved);
      var merged := SizedPane(EdgePair(pair, origin, target, dimension, before, input.moved),
                              sized[at].size + input.gap + sized[at + 1].size);
      MergedRunConserves(input.tree, ancestor, axis, regions, at, merged, input.gap);
    }
  }

  // ---------------------------------------------------------------- rotating out of a pair

  lemma {:induction false} ChildOnPath(tree: Node, path: seq<Node>, part: Node, i: nat)
    requires AtPath(tree, path, part) && i + 1 < |path|
    ensures path[i].Split? && (path[i].first == path[i + 1] || path[i].second == path[i + 1])
  {
    var rest := path[1..];
    var child := if AtPath(tree.first, rest, part) then tree.first else tree.second;
    if i > 0 {
      ChildOnPath(child, rest, part, i - 1);
      assert rest[i - 1] == path[i] && rest[i] == path[i + 1];
    } else {
      assert rest[0] == path[1];
    }
  }

  lemma FlattenChild(parent: Node, child: Node, axis: Axis, pane: Node)
    requires parent.Split? && parent.axis == axis && (parent.first == child || parent.second == child)
    requires pane in Flatten(child, axis)
    ensures pane in Flatten(parent, axis)
  {
  }

  lemma {:induction false} RunHoldsPane(tree: Node, path: seq<Node>, part: Node, i: nat, axis: Axis, pane: Node)
    requires AtPath(tree, path, part) && i < |path| && path[i].Split? && path[i].axis == axis
    requires pane in Flatten(path[i], axis)
    ensures var run := RunStart(path, i, axis); run.Split? && run.axis == axis && pane in Flatten(run, axis)
  {
    if i >= 1 && path[i - 1].Split? && path[i - 1].axis == axis {
      ChildOnPath(tree, path, part, i - 1);
      FlattenChild(path[i - 1], path[i], axis, pane);
      RunHoldsPane(tree, path, part, i - 1, axis, pane);
    }
  }

  /** The rotated pair's windows: those of the ancestor and of the outer pane. */
  lemma RotatedBag(input: MoveInput, origin: Region, target: Region, ancestor: Node, outer: Node, r1: real, r2: real,
                   dimension: Axis, before: bool)
    requires Situated(input, origin, target) && RotationApplies(origin, target, ancestor, dimension, before)
    ensures var pair := SplitToward(dimension, r1, origin.node, outer, before);
            Bag(SplitToward(dimension, r2, pair, target.node, before)) == Bag(ancestor) + Bag(outer)
    ensures Sub(input.tree, ancestor) && Bag(ancestor) == multiset{input.moved} + Bag(target.node)
  {
    hide Sub, AtPath, Distinct, Bag;
    SituatedFacts(input, origin, target);
    LoneBag(input.moved);
    BagOfHalves(ancestor);
    var pair := SplitToward(dimension, r1, origin.node, outer, before);
    BagOfHalves(pair);
    BagOfHalves(SplitToward(dimension, r2, pair, target.node, before));
  }

  lemma RotateConserves(input: MoveInput, origin: Region, target: Region, regions: seq<Region>, ancestor: Node,
                        dimension: Axis, before: bool)
    requires Situated(input, origin, target) && ancestor.Split? && ancestor.axis != dimension
    ensures var r := RotateOuterEdge(input, origin, target, regions, ancestor, dimension, before);
            r.Some? ==> Bag(r.value) == Bag(input.tree)
  {
    hide Bag, Sub, AtPath, Flatten, Replace, JoinPanes, Splice, RatioForLength, RunStart, FrameOf, Distinct, SplitToward,
      IndexOf, Sized, Length, Has;
    if RotationApplies(origin, target, ancestor, dimension, before) {
      var parentIndex := |origin.path| - 2;
      var parent := origin.path[parentIndex];
      var run := RunStart(origin.path, parentIndex, dimension);
      var panes := Flatten(run, dimension);
      AncestorIsPane(input.tree, origin, ancestor, dimension);
      var index := IndexOf(panes, ancestor);
      var outerIndex := index + (if before then 1 else -1);
      if 0 <= outerIndex < |panes| {
        var at := Min(index, outerIndex);
        var sized := Sized(panes, regions, dimension);
        var outerPane := panes[outerIndex];
        var outerSize := Length(FrameOf(outerPane, regions), dimension);
        var ancestorSize := Length(FrameOf(ancestor, regions), dimension);
        var ratio := if |panes| == 2 then parent.ratio
                     else RatioForLength(sized[at].size as real, outerSize + ancestorSize);
        RotatedBag(input, origin, target, ancestor, outerPane, ancestor.ratio, ratio, dimension, before);
        var pair := SplitToward(dimension, ancestor.ratio, origin.node, outerPane, before);
        var rotated := SplitToward(dimension, ratio, pair, target.node, before);
        MergedRunConserves(input.tree, run, dimension, regions, at,
                           SizedPane(rotated, outerSize + input.gap + ancestorSize), input.gap);
      }
    }
  }

  lemma AncestorIsPane(tree: Node, origin: Region, ancestor: Node, dimension: Axis)
    requires AtPath(tree, origin.path, origin.node) && |origin.path| >= 2 && Last(origin.path) == ancestor
    requires ancestor.Split? && ancestor.axis != dimension
    requires var parent := origin.path[|origin.path| - 2]; parent.Split? && parent.axis == dimension
    ensures ancestor in Flatten(RunStart(origin.path, |origin.path| - 2, dimension), dimension)
  {
    hide AtPath;
    var i := |origin.path| - 2;
    ChildOnPath(tree, origin.path, origin.node, i);
    assert Flatten(ancestor, dimension) == [ancestor];
    FlattenChild(origin.path[i], ancestor, dimension, ancestor);
    RunHoldsPane(tree, origin.path, origin.node, i, dimension, ancestor);
  }
}
