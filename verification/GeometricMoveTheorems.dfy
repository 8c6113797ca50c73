/** When the directional move conserves windows: always, except in one rotation. */
module GeometricMoveTheorems {
  import opened Geometry
  import opened BspTree
  import opened Partition
  import opened Planner
  import opened Policies
  import opened Subtrees
  import opened GeometricMove
  import opened GeometricMoveProofs
  import opened GeometricEdgeProofs

  // ---------------------------------------------------------------- the rotation that goes wrong

  lemma SpliceFromTheEnd(panes: seq<Node>, regions: seq<Region>, axis: Axis, merged: SizedPane)
    requires |panes| >= 2
    ensures var ordered := Splice(Sized(panes, regions, axis), -1, 2, merged);
            ordered != [] && Nodes(ordered) == panes[..|panes| - 1] + [merged.node]
  {
    var sized := Sized(panes, regions, axis);
    assert Splice(sized, -1, 2, merged) == sized[..|panes| - 1] + [merged] + sized[|panes|..];
  }

  /** Overwriting the last pane of a run with one that repeats the first. */
  lemma LastPaneLost(tree: Node, run: Node, axis: Axis, joined: Node, merged: Node)
    requires Distinct(tree) && Sub(tree, run) && |Flatten(run, axis)| >= 2
    requires var panes := Flatten(run, axis);
             && Bag(joined) == BagOf(panes[..|panes| - 1]) + Bag(merged)
             && Bag(panes[0]) <= Bag(merged)
    ensures Bag(Replace(tree, run, joined)) != Bag(tree)
  {
    hide Bag, Sub, Replace, Flatten, BagOf, Distinct;
    var panes := Flatten(run, axis);
    var last := panes[|panes| - 1];
    FlattenBag(run, axis);
    SplitAt(panes, |panes| - 1);
    assert panes[|panes|..] == [];
    ReplaceConserves(tree, run, joined);
    SubDistinct(tree, run);
    var id := FirstNotInLast(run, panes);
    if Bag(Replace(tree, run, joined)) == Bag(tree) {
      LostBags(Bag(tree), BagOf(panes[..|panes| - 1]), Bag(last), Bag(merged), BagOf(panes[|panes|..]), Bag(run), Bag(joined));
      assert false;
    }
  }

  lemma LostBags(tree: multiset<WindowId>, front: multiset<WindowId>, last: multiset<WindowId>,
                 merged: multiset<WindowId>,
                 nothing: multiset<WindowId>, run: multiset<WindowId>, joined: multiset<WindowId>)
    requires run == front + last + nothing && joined == front + merged
    requires tree + run == tree + joined
    ensures forall id :: merged[id] >= last[id]
    ensures forall id :: nothing[id] == 0 ==> merged[id] == last[id]
  {
    forall id ensures merged[id] == last[id] + nothing[id] {
      assert (tree + run)[id] == (tree + joined)[id];
    }
  }

  lemma FirstNotInLast(run: Node, panes: seq<Node>) returns (id: WindowId)
    requires Distinct(run) && |panes| >= 2 && BagOf(panes) == Bag(run)
    ensures Bag(panes[0])[id] >= 1 && Bag(panes[|panes| - 1])[id] == 0
    ensures BagOf(panes[|panes|..])[id] == 0
  {
    id := SomeWindow(panes[0]);
    var rest := panes[1..];
    SplitAt(rest, |rest| - 1);
    assert rest[|rest| - 1] == panes[|panes| - 1];
    assert Bag(run)[id] == Bag(panes[0])[id] + BagOf(rest)[id];
    assert panes[|panes|..] == [];
    DistinctOne(run, id);
  }

  /** The ancestor splits along the very run it is looked up in, so it is not found there. */
  lemma RotateLosesAPane(input: MoveInput, origin: Region, target: Region, regions: seq<Region>, ancestor: Node,
                         dimension: Axis)
    requires Situated(input, origin, target) && RotationApplies(origin, target, ancestor, dimension, true)
    requires ancestor.axis == dimension
    ensures var r := RotateOuterEdge(input, origin, target, regions, ancestor, dimension, true);
            r.Some? && Bag(r.value) != Bag(input.tree)
  {
    hide Bag, BagOf, Sub, AtPath, Flatten, Replace, JoinPanes, Splice, RatioForLength, RunStart, FrameOf, Distinct,
      SplitToward, RotationApplies;
    var parentIndex := |origin.path| - 2;
    RunFacts(input, origin, target, ancestor, dimension);
    var parent := origin.path[parentIndex];
    var run := RunStart(origin.path, parentIndex, dimension);
    var panes := Flatten(run, dimension);
    NotAPane(run, dimension, ancestor);
    var index := IndexOf(panes, ancestor);
    assert index == -1;
    var outerPane := panes[0];
    var sized := Sized(panes, regions, dimension);
    var outerSize := Length(FrameOf(outerPane, regions), dimension);
    var ancestorSize := Length(FrameOf(ancestor, regions), dimension);
    var ratio := if |panes| == 2 then parent.ratio else 0.0;
    RotatedBag(input, origin, target, ancestor, outerPane, ancestor.ratio, ratio, dimension, true);
    var pair := SplitToward(dimension, ancestor.ratio, origin.node, outerPane, true);
    var rotated := SplitToward(dimension, ratio, pair, target.node, true);
    var merged := SizedPane(rotated, outerSize + input.gap + ancestorSize);
    SpliceFromTheEnd(panes, regions, dimension, merged);
    var ordered := Splice(sized, -1, 2, merged);
    JoinBag(ordered, dimension, input.gap);
    BagOfConcat(panes[..|panes| - 1], [rotated]);
    BagOfOne(rotated);
    LastPaneLost(input.tree, run, dimension, JoinPanes(ordered, dimension, input.gap).node, rotated);
  }

  lemma RunFacts(input: MoveInput, origin: Region, target: Region, ancestor: Node, dimension: Axis)
    requires Situated(input, origin, target) && RotationApplies(origin, target, ancestor, dimension, true)
    ensures |origin.path| >= 2 && ancestor.Split? && origin.path[|origin.path| - 2].Split?
    ensures var run := RunStart(origin.path, |origin.path| - 2, dimension);
            Sub(input.tree, run) && |Flatten(run, dimension)| >= 2
  {
    hide AtPath;
    var i := |origin.path| - 2;
    var parent := origin.path[i];
    var run := RunStart(origin.path, i, dimension);
    OnPathHolds(input.tree, origin, run);
    var pane := Flatten(parent, dimension)[0];
    RunHoldsPane(input.tree, origin.path, origin.node, i, dimension, pane);
    assert |Flatten(run.first, dimension)| >= 1 && |Flatten(run.second, dimension)| >= 1;
  }

  lemma NotAPane(run: Node, axis: Axis, node: Node)
    requires node.Split? && node.axis == axis
    ensures node !in Flatten(run, axis)
  {
    hide Flatten;
    if node in Flatten(run, axis) {
      var i :| 0 <= i < |Flatten(run, axis)| && Flatten(run, axis)[i] == node;
      PanesAreNotOnAxis(run, axis, i);
      assert false;
    }
  }

  /** With the moved pane on the far side the lookup fails harmlessly. */
  lemma RotateAfterFails(input: MoveInput, origin: Region, target: Region, regions: seq<Region>, ancestor: Node,
                         dimension: Axis)
    requires ancestor.Split? && ancestor.axis == dimension
    ensures RotateOuterEdge(input, origin, target, regions, ancestor, dimension, false).None?
  {
    hide Flatten, Replace, JoinPanes, Splice, RatioForLength, RunStart, FrameOf, SplitToward;
    if RotationApplies(origin, target, ancestor, dimension, false) {
      NotAPane(RunStart(origin.path, |origin.path| - 2, dimension), dimension, ancestor);
    }
  }

  // ---------------------------------------------------------------- at the edge

  /** The moved pane and the pane it is matched with at the edge. */
  ghost predicate MisrotatesAtEdge(input: MoveInput, origin: Region, regions: seq<Region>, dimension: Axis,
                                   before: bool) {
    var ranked := RankedCandidates(input, origin, regions, dimension, before);
    && ranked != [] && !Tied(ranked, origin)
    && var common := CommonAncestor(origin.path, ranked[0].path);
       && common.Some? && common.value.Split? && common.value.axis == dimension
       && before && RotationApplies(origin, ranked[0], common.value, dimension, before)
  }

  /** What is known of every region of a completely visible tree. */
  ghost predicate Observed(input: MoveInput, origin: Region, regions: seq<Region>) {
    && Distinct(input.tree)
    && Visit(input.tree, [], input.frames).1.Some? && regions == Visit(input.tree, [], input.frames).0
    && origin in regions && origin.node == Leaf(input.moved)
    && input.tree != Leaf(input.moved)
  }

  lemma ObservedAtPath(input: MoveInput, regions: seq<Region>, r: Region)
    requires regions == Visit(input.tree, [], input.frames).0 && r in regions
    ensures AtPath(input.tree, r.path, r.node)
  {
    hide Visit, AtPath;
    VisitPlaces(input.tree, [], input.frames, r);
    assert r.path[0..] == r.path;
  }

  lemma CandidatesAreSituated(input: MoveInput, origin: Region, regions: seq<Region>, target: Region)
    requires Observed(input, origin, regions) && target in regions
    requires target.node != origin.node && !(target.node.Split? && target.node in origin.path)
    ensures Situated(input, origin, target)
  {
    hide Visit, Distinct;
    ObservedAtPath(input, regions, origin);
    ObservedAtPath(input, regions, target);
    if target.path == [] {
      RootIsOnPath(input.tree, origin.path, origin.node);
      assert false;
    }
  }

  lemma RootIsOnPath(tree: Node, path: seq<Node>, part: Node)
    requires AtPath(tree, path, part) && tree != part
    ensures tree.Split? && tree in path
  {
  }

  lemma MoveAtEdgeConserves(input: MoveInput, origin: Region, regions: seq<Region>, dimension: Axis, before: bool)
    requires Observed(input, origin, regions)
    ensures Bag(MoveAtEdge(input, origin, regions, dimension, before)) == Bag(input.tree)
            <==> !MisrotatesAtEdge(input, origin, regions, dimension, before)
  {
    hide Bag, Visit, RankedCandidates, Tied, RemoveForEdge, SplitToward, CommonAncestor, RotateOuterEdge,
      PairAdjacentRegions, EdgePair, Replace, RotationApplies, Distinct, Situated;
    var ranked := RankedCandidates(input, origin, regions, dimension, before);
    if ranked != [] {
      if Tied(ranked, origin) {
        TiedConserves(input, origin, regions, dimension, before);
      } else {
        assert ranked[0] in ranked;
        CandidatesAreSituated(input, origin, regions, ranked[0]);
        UntiedConserves(input, origin, regions, ranked[0], dimension, before);
      }
    }
  }

  lemma TiedConserves(input: MoveInput, origin: Region, regions: seq<Region>, dimension: Axis, before: bool)
    requires Observed(input, origin, regions)
    ensures var rest := RemoveForEdge(input.tree, input.moved, Other(dimension), input.frames, input.gap);
            rest.Some? ==> Bag(SplitToward(dimension, 0.5, origin.node, rest.value, before)) == Bag(input.tree)
  {
    hide Visit, RemoveForEdge, AtPath, Distinct;
    ObservedAtPath(input, regions, origin);
    AtPathIsSub(input.tree, origin.path, origin.node);
    HasLeaf(input.tree, input.moved);
    RemoveForEdgeConserves(input.tree, input.moved, Other(dimension), input.frames, input.gap);
  }

  /** Everything after the target at the edge is chosen. */
  function MoveTowardEdgePane(input: MoveInput, origin: Region, regions: seq<Region>, target: Region,
                              dimension: Axis, before: bool): Node
  {
    var common := CommonAncestor(origin.path, target.path);
    if common.None? || common.value.Leaf? || origin.path == [] || target.path == [] then input.tree else
      var ancestor := common.value;
      var rotated := RotateOuterEdge(input, origin, target, regions, ancestor, dimension, before);
      if rotated.Some? then rotated.value else
        var paired := PairAdjacentRegions(input, ancestor, origin, target, regions, dimension, before);
        if paired.Some? then paired.value
        else Replace(input.tree, ancestor, EdgePair(ancestor, origin, target, dimension, before, input.moved))
  }

  lemma UntiedConserves(input: MoveInput, origin: Region, regions: seq<Region>, target: Region, dimension: Axis,
                        before: bool)
    requires Situated(input, origin, target)
    ensures var common := CommonAncestor(origin.path, target.path);
            Bag(MoveTowardEdgePane(input, origin, regions, target, dimension, before)) == Bag(input.tree)
            <==> !(common.Some? && common.value.Split? && common.value.axis == dimension && before
                   && RotationApplies(origin, target, common.value, dimension, before))
  {
    hide Bag, Sub, AtPath, CommonAncestor, RotateOuterEdge, PairAdjacentRegions, EdgePair, Replace, Distinct,
      RotationApplies;
    var common := CommonAncestor(origin.path, target.path);
    if common.Some? {
      var ancestor := common.value;
      CommonAncestorHolds(input.tree, origin, target);
      SubDistinct(input.tree, ancestor);
      PairAdjacentConserves(input, ancestor, origin, target, regions, dimension, before);
      EdgePairConserves(ancestor, origin, target, dimension, before, input.moved);
      RearrangeConserves(input.tree, ancestor, EdgePair(ancestor, origin, target, dimension, before, input.moved));
      if ancestor.axis != dimension {
        RotateConserves(input, origin, target, regions, ancestor, dimension, before);
      } else if !before {
        RotateAfterFails(input, origin, target, regions, ancestor, dimension);
      } else if RotationApplies(origin, target, ancestor, dimension, true) {
        RotateLosesAPane(input, origin, target, regions, ancestor, dimension);
      } else {
        NoRotation(input, origin, target, regions, ancestor, dimension, before);
      }
    }
  }

  lemma NoRotation(input: MoveInput, origin: Region, target: Region, regions: seq<Region>, ancestor: Node,
                   dimension: Axis, before: bool)
    requires !RotationApplies(origin, target, ancestor, dimension, before)
    ensures RotateOuterEdge(input, origin, target, regions, ancestor, dimension, before).None?
  {
  }

  // ---------------------------------------------------------------- the whole move

  /** The guard of the failing branch: nothing lies ahead, the moved pane's partner at the leading edge is
      its own sibling, and the pair splits along the direction inside a longer run that it leads. */
  ghost predicate Misrotates(input: MoveInput) {
    var origin := Origin(input);
    && origin.Some?
    && var regions := Visit(input.tree, [], input.frames).0;
       var dimension, before := Dimension(input.direction), MovedLeafIsFirst(input.direction);
       && ForwardTarget(origin.value, Keep(regions, (r: Region) => r.node.Leaf?), dimension, before).None?
       && MisrotatesAtEdge(input, origin.value, regions, dimension, before)
  }

  lemma OriginIsObserved(input: MoveInput)
    requires Distinct(input.tree) && Origin(input).Some?
    ensures Observed(input, Origin(input).value, Visit(input.tree, [], input.frames).0)
  {
    hide Distinct, Visit, FindRegion, Keep;
    if input.tree == Leaf(input.moved) {
      LoneLeaf(input);
      assert false;
    }
  }

  lemma LoneLeaf(input: MoveInput)
    requires input.tree.Leaf?
    ensures Origin(input).None?
  {
    var regions := Visit(input.tree, [], input.frames).0;
    var isLeaf := (r: Region) => r.node.Leaf?;
    if regions != [] {
      assert regions[1..] == [];
      assert Keep(regions[1..], isLeaf) == [];
    }
    assert |Keep(regions, isLeaf)| <= 1;
  }

  /** Moving a window conserves windows, for whatever frames are observed, exactly when the rotation
      along its own run is not taken. */
  lemma MoveGeometricallyConservesIff(input: MoveInput)
    requires Distinct(input.tree)
    ensures Bag(MoveGeometrically(input)) == Bag(input.tree) <==> !Misrotates(input)
  {
    hide Bag, Visit, Keep, ForwardTarget, MoveAtEdge, MoveDirect, MoveDiagonal, MisrotatesAtEdge, Situated, Distinct,
      FindRegion, Origin;
    if Origin(input).Some? {
      OriginIsObserved(input);
      var origin := Origin(input).value;
      var regions := Visit(input.tree, [], input.frames).0;
      var leaves := Keep(regions, (r: Region) => r.node.Leaf?);
      var dimension, before := Dimension(input.direction), MovedLeafIsFirst(input.direction);
      var target := ForwardTarget(origin, leaves, dimension, before);
      if target.None? {
        MoveAtEdgeConserves(input, origin, regions, dimension, before);
      } else {
        CandidatesAreSituated(input, origin, regions, target.value);
        MoveDirectConserves(input, origin, target.value, dimension);
        MoveDiagonalConserves(input, origin, target.value, dimension);
      }
    }
  }
}
