/** Which window a move heads for, said of the frames alone. */
module MoveTargets {
  import opened Geometry
  import opened BspTree
  import opened Planner
  import opened Subtrees
  import opened GeometricMove
  import opened GeometricMoveProofs
  import opened SwapTheorems
  import opened ForwardTargets
  import opened MoveBack

  // ---------------------------------------------------------------- what is seen

  /** Every window of the tree is seen, the moved one among them, and it is not alone. */
  ghost predicate AllSeen(input: MoveInput) {
    && (forall id :: Has(input.tree, id) ==> id in input.frames && Positive(input.frames[id]))
    && Has(input.tree, input.moved) && input.tree.Split?
  }

  /** It reaches over this many points from `p` on. */
  predicate Covers(f: Frame, p: int, points: nat, axis: Axis) {
    Start(f, axis) <= p && p + points <= End(f, axis)
  }

  /** They have this many points in a row in common along the axis. */
  ghost predicate Share(a: Frame, b: Frame, axis: Axis, points: nat) {
    exists p :: Covers(a, p, points, axis) && Covers(b, p, points, axis)
  }

  /** Points between them along the axis. */
  function Away(a: Frame, b: Frame, axis: Axis): int {
    if End(a, axis) < Start(b, axis) then Start(b, axis) - End(a, axis)
    else if End(b, axis) < Start(a, axis) then Start(a, axis) - End(b, axis)
    else 0
  }

  /** More than two points further in the direction, with either border. */
  predicate Ahead(from: Frame, f: Frame, axis: Axis, before: bool) {
    if before then Start(f, axis) + 2 < Start(from, axis) && End(f, axis) + 2 < End(from, axis)
    else Start(from, axis) + 2 < Start(f, axis) && End(from, axis) + 2 < End(f, axis)
  }

  function SquaredDistance(a: Frame, b: Frame, axis: Axis): int {
    Away(a, b, axis) * Away(a, b, axis) + Away(a, b, Other(axis)) * Away(a, b, Other(axis))
  }

  /** Twice the distance of their centers. */
  function OffCenter(a: Frame, b: Frame, axis: Axis): int {
    var d := Start(a, axis) + End(a, axis) - Start(b, axis) - End(b, axis);
    if d < 0 then -d else d
  }

  /** Facing counts first, then nearness, then how well the centers line up. */
  ghost predicate NoWorse(from: Frame, a: Frame, b: Frame, axis: Axis) {
    var across := Other(axis);
    && (Share(from, b, across, 1) ==> Share(from, a, across, 1))
    && ((Share(from, a, across, 1) <==> Share(from, b, across, 1)) ==>
          && SquaredDistance(from, a, axis) <= SquaredDistance(from, b, axis)
          && (SquaredDistance(from, a, axis) == SquaredDistance(from, b, axis) ==>
                OffCenter(a, from, across) <= OffCenter(b, from, across)))
  }

  lemma SharingIsOverlap(a: Frame, b: Frame, axis: Axis, points: nat)
    requires points > 0
    ensures Share(a, b, axis, points) <==> Overlap(a, b, axis) >= points
  {
    if Overlap(a, b, axis) >= points {
      var p := Max(Start(a, axis), Start(b, axis));
      assert Covers(a, p, points, axis) && Covers(b, p, points, axis);
    }
  }

  lemma AwayIsGap(a: Frame, b: Frame, axis: Axis)
    requires Length(a, axis) > 0 && Length(b, axis) > 0
    ensures Away(a, b, axis) == IntervalGap(a, b, axis)
  {
  }

  lemma DistanceIsDistance(a: Frame, b: Frame, axis: Axis)
    requires Positive(a) && Positive(b)
    ensures SquaredDistance(a, b, axis) == Squared(IntervalGap(a, b, axis)) + Squared(IntervalGap(a, b, Other(axis)))
  {
    hide IntervalGap, Away;
    AwayIsGap(a, b, axis);
    AwayIsGap(a, b, Other(axis));
  }

  lemma NoWorseIsNoFarther(origin: Region, axis: Axis, a: Region, b: Region)
    requires Positive(origin.frame) && Positive(a.frame) && Positive(b.frame)
    ensures NoFarther(origin, axis, a, b) <==> NoWorse(origin.frame, a.frame, b.frame, axis)
  {
    hide Share, SquaredDistance, Overlap, IntervalGap, Squared;
    SharingIsOverlap(origin.frame, a.frame, Other(axis), 1);
    SharingIsOverlap(origin.frame, b.frame, Other(axis), 1);
    DistanceIsDistance(origin.frame, a.frame, axis);
    DistanceIsDistance(origin.frame, b.frame, axis);
  }

  lemma AheadIsForward(origin: Region, r: Region, axis: Axis, before: bool)
    requires r.node != origin.node
    ensures IsForward(origin, r, axis, before) <==> Ahead(origin.frame, r.frame, axis, before)
  {
  }

  /** It is window `k` in the tree's order, and none before it is as well placed. */
  ghost predicate PlacedFirstAt(input: MoveInput, target: WindowId, k: nat)
    requires AllSeen(input) && Has(input.tree, target)
  {
    var axis, before, from := Dimension(input.direction), MovedLeafIsFirst(input.direction), input.frames[input.moved];
    var order := Leaves(input.tree);
    && k < |order| && order[k] == target
    && forall j :: 0 <= j < k && order[j] in input.frames && order[j] != input.moved
                   && Ahead(from, input.frames[order[j]], axis, before) ==>
                     !NoWorse(from, input.frames[order[j]], input.frames[target], axis)
  }

  ghost predicate FirstOfItsPlace(input: MoveInput, target: WindowId)
    requires AllSeen(input) && Has(input.tree, target)
  {
    exists k: nat :: PlacedFirstAt(input, target, k)
  }

  /** The move heads for this window: it lies ahead, no window ahead is better placed, and none before it in the tree's
      order is as well placed. */
  ghost predicate HeadsFor(input: MoveInput, target: WindowId)
    requires AllSeen(input)
  {
    var axis, before, from := Dimension(input.direction), MovedLeafIsFirst(input.direction), input.frames[input.moved];
    && Has(input.tree, target) && target != input.moved && Ahead(from, input.frames[target], axis, before)
    && (forall id :: Has(input.tree, id) && id != input.moved && Ahead(from, input.frames[id], axis, before) ==>
          NoWorse(from, input.frames[target], input.frames[id], axis))
    && FirstOfItsPlace(input, target)
  }

  ghost predicate NothingAhead(input: MoveInput)
    requires AllSeen(input)
  {
    forall id :: Has(input.tree, id) && id != input.moved ==>
      !Ahead(input.frames[input.moved], input.frames[id], Dimension(input.direction), MovedLeafIsFirst(input.direction))
  }

  // ---------------------------------------------------------------- the observed leaves, in the tree's order

  function WindowsOf(leaves: seq<Region>): (r: seq<WindowId>)
    requires forall i :: 0 <= i < |leaves| ==> leaves[i].node.Leaf?
    ensures |r| == |leaves| && forall i :: 0 <= i < |leaves| ==> r[i] == leaves[i].node.id
  {
    seq(|leaves|, i requires 0 <= i < |leaves| => leaves[i].node.id)
  }

  lemma {:induction false} KeepOfConcat(a: seq<Region>, b: seq<Region>, p: Region -> bool)
    ensures Keep(a + b, p) == Keep(a, p) + Keep(b, p)
  {
    if a == [] {
      assert a + b == b;
    } else {
      assert (a + b)[1..] == a[1..] + b;
      KeepOfConcat(a[1..], b, p);
    }
  }

  ghost predicate OnlyLeaves(regions: seq<Region>) {
    forall i :: 0 <= i < |regions| ==> regions[i].node.Leaf?
  }

  function Kept(node: Node, path: seq<Node>, frames: Frames): seq<Region> {
    Keep(Visit(node, path, frames).0, (r: Region) => r.node.Leaf?)
  }

  lemma KeptAreLeaves(node: Node, path: seq<Node>, frames: Frames)
    ensures OnlyLeaves(Kept(node, path, frames))
  {
    hide Visit;
    var kept := Kept(node, path, frames);
    forall i | 0 <= i < |kept| ensures kept[i].node.Leaf? {
      assert kept[i] in kept;
    }
  }

  lemma KeptOfSplit(node: Node, path: seq<Node>, frames: Frames)
    requires node.Split? && Visit(node, path, frames).1.Some?
    ensures Visit(node.first, path + [node], frames).1.Some? && Visit(node.second, path + [node], frames).1.Some?
    ensures Kept(node, path, frames) == Kept(node.first, path + [node], frames) + Kept(node.second, path + [node], frames)
  {
    var p := (r: Region) => r.node.Leaf?;
    var (inFirst, a) := Visit(node.first, path + [node], frames);
    var (inSecond, b) := Visit(node.second, path + [node], frames);
    var own := Visit(node, path, frames).1.value;
    assert Visit(node, path, frames).0 == inFirst + inSecond + [own];
    hide Visit;
    KeepOfConcat(inFirst + inSecond, [own], p);
    KeepOfConcat(inFirst, inSecond, p);
    assert [own][1..] == [];
    assert Keep([own], p) == [];
  }

  lemma {:induction false} LeavesInOrder(node: Node, path: seq<Node>, frames: Frames)
    requires Visit(node, path, frames).1.Some?
    ensures OnlyLeaves(Kept(node, path, frames)) && WindowsOf(Kept(node, path, frames)) == Leaves(node)
  {
    KeptAreLeaves(node, path, frames);
    if node.Split? {
      KeptOfSplit(node, path, frames);
      hide Visit, Kept;
      LeavesInOrder(node.first, path + [node], frames);
      LeavesInOrder(node.second, path + [node], frames);
    } else {
      var own := Visit(node, path, frames).1.value;
      assert [own][1..] == [];
      assert Keep([own], (r: Region) => r.node.Leaf?) == [own];
    }
  }

  lemma {:induction false} SeenIsVisible(node: Node, path: seq<Node>, frames: Frames)
    ensures Visit(node, path, frames).1.Some? <==> forall id :: Has(node, id) ==> id in frames && Positive(frames[id])
  {
    if node.Split? {
      HasInParts(node);
      SeenIsVisible(node.first, path + [node], frames);
      SeenIsVisible(node.second, path + [node], frames);
    } else {
      assert Has(node, node.id);
    }
  }

  /** There is an origin exactly when everything is seen. */
  lemma OriginIffSeen(input: MoveInput)
    ensures Origin(input).Some? <==> AllSeen(input)
    ensures AllSeen(input) ==>
              && Visit(input.tree, [], input.frames).1.Some?
              && Origin(input).value in LeafRegions(input) && Origin(input).value.node == Leaf(input.moved)
              && Origin(input).value.frame == input.frames[input.moved]
  {
    hide Visit, Keep, FindRegion, Has;
    SeenIsVisible(input.tree, [], input.frames);
    if Visit(input.tree, [], input.frames).1.Some? {
      LeavesInOrder(input.tree, [], input.frames);
      var leaves := LeafRegions(input);
      BagCountsLeaves(input.tree);
      MovedIsLeaf(input);
      ManyLeaves(input.tree);
      if Has(input.tree, input.moved) {
        var r := LeafRegion(input, input.moved);
        FindFinds(leaves, (x: Region) => x.node == Leaf(input.moved), r);
      }
      if Origin(input).Some? {
        LeafRegionFacts(input, Origin(input).value);
      }
    }
  }

  lemma MovedIsLeaf(input: MoveInput)
    ensures input.moved in Leaves(input.tree) <==> Has(input.tree, input.moved)
  {
    BagCountsLeaves(input.tree);
  }

  lemma ManyLeaves(tree: Node)
    ensures |Leaves(tree)| >= 2 <==> tree.Split?
  {
  }

  // ---------------------------------------------------------------- the first of the best

  /** The first of the best is taken: nothing kept in front of it is as good. */
  lemma {:induction false} FirstOfTheBest(regions: seq<Region>, p: Region -> bool, le: (Region, Region) -> bool) returns (k: nat)
    requires Keep(regions, p) != []
    ensures k < |regions| && SortRegions(Keep(regions, p), le)[0] == regions[k]
    ensures forall j :: 0 <= j < k && p(regions[j]) ==> !le(regions[j], regions[k])
  {
    var rest := regions[1..];
    SortedKeepStep(regions, p, le);
    hide SortRegions, Keep;
    if p(regions[0]) && (Keep(rest, p) == [] || le(regions[0], SortRegions(Keep(rest, p), le)[0])) {
      k := 0;
    } else {
      var m := FirstOfTheBest(rest, p, le);
      k := m + 1;
      forall j | 0 <= j < k && p(regions[j]) ensures !le(regions[j], regions[k]) {
        if j > 0 {
          assert regions[j] == rest[j - 1];
        }
      }
    }
  }

  lemma SortedKeepStep(regions: seq<Region>, p: Region -> bool, le: (Region, Region) -> bool)
    requires Keep(regions, p) != []
    ensures regions != []
    ensures var rest := Keep(regions[1..], p);
            var sorted := SortRegions(Keep(regions, p), le);
            if !p(regions[0]) then rest != [] && sorted == SortRegions(rest, le)
            else if rest == [] || le(regions[0], SortRegions(rest, le)[0]) then sorted[0] == regions[0]
            else sorted[0] == SortRegions(rest, le)[0]
  {
    var kept, rest := Keep(regions, p), Keep(regions[1..], p);
    if p(regions[0]) {
      assert kept[1..] == rest;
      assert SortRegions(kept, le) == InsertRegion(regions[0], SortRegions(rest, le), le);
    } else {
      assert kept == rest;
    }
  }

  lemma AllAreFacts(input: MoveInput)
    requires AllSeen(input)
    ensures forall r :: r in LeafRegions(input) ==>
              r.node.Leaf? && Has(input.tree, r.node.id) && r.frame == input.frames[r.node.id] && Positive(r.frame)
  {
    hide LeafRegions, Has, Visit;
    forall r | r in LeafRegions(input)
      ensures r.node.Leaf? && Has(input.tree, r.node.id) && r.frame == input.frames[r.node.id]
    {
      LeafRegionFacts(input, r);
    }
  }

  lemma AsWellPlaced(input: MoveInput, origin: Region, a: Region, b: Region)
    requires AllSeen(input) && origin in LeafRegions(input) && a in LeafRegions(input) && b in LeafRegions(input)
    requires origin.node == Leaf(input.moved)
    ensures a.node.Leaf? && b.node.Leaf? && Has(input.tree, a.node.id) && Has(input.tree, b.node.id)
    ensures NoFarther(origin, Dimension(input.direction), a, b)
            <==> NoWorse(input.frames[input.moved], input.frames[a.node.id], input.frames[b.node.id], Dimension(input.direction))
  {
    hide LeafRegions, Has, NoFarther, NoWorse;
    AllAreFacts(input);
    NoWorseIsNoFarther(origin, Dimension(input.direction), a, b);
  }

  lemma IsAhead(input: MoveInput, origin: Region, a: Region)
    requires AllSeen(input) && origin in LeafRegions(input) && a in LeafRegions(input) && origin.node == Leaf(input.moved)
    ensures a.node.Leaf? && Has(input.tree, a.node.id)
    ensures var axis, before := Dimension(input.direction), MovedLeafIsFirst(input.direction);
            IsForward(origin, a, axis, before)
            <==> a.node.id != input.moved && Ahead(input.frames[input.moved], input.frames[a.node.id], axis, before)
  {
    hide LeafRegions, Has, Ahead;
    AllAreFacts(input);
    if a.node != origin.node {
      AheadIsForward(origin, a, Dimension(input.direction), MovedLeafIsFirst(input.direction));
    }
  }

  /** What the program picks is the window the move heads for, and it picks none when nothing lies ahead. */
  lemma TargetIsHeadedFor(input: MoveInput, origin: Region)
    requires AllSeen(input) && Origin(input) == Some(origin)
    ensures var target := ForwardTarget(origin, LeafRegions(input), Dimension(input.direction), MovedLeafIsFirst(input.direction));
            && (target.None? <==> NothingAhead(input))
            && (target.Some? ==> target.value in LeafRegions(input) && target.value.node.Leaf? && HeadsFor(input, target.value.node.id))
  {
    hide LeafRegions, Has, Ahead, NoFarther, NoWorse, IsForward, Visit, SortRegions, Keep, ForwardTarget;
    OriginIffSeen(input);
    var axis, before := Dimension(input.direction), MovedLeafIsFirst(input.direction);
    var leaves := LeafRegions(input);
    AllAreFacts(input);
    var target := ForwardTarget(origin, leaves, axis, before);
    forall id | Has(input.tree, id) && id != input.moved && Ahead(input.frames[input.moved], input.frames[id], axis, before)
      ensures target.Some? && target.value in leaves && NoWorse(input.frames[input.moved], input.frames[target.value.node.id], input.frames[id], axis)
    {
      var r := LeafRegion(input, id);
      IsAhead(input, origin, r);
      TargetIsNearest(origin, leaves, axis, before, r);
      TargetIsSeen(input, origin, axis, before);
      AsWellPlaced(input, origin, target.value, r);
    }
    if target.Some? {
      TargetIsSeen(input, origin, axis, before);
      TargetIsForward(origin, leaves, axis, before);
      IsAhead(input, origin, target.value);
      FirstInOrder(input, origin, target.value);
    }
  }

  lemma FirstInOrder(input: MoveInput, origin: Region, target: Region)
    requires AllSeen(input) && Origin(input) == Some(origin)
    requires ForwardTarget(origin, LeafRegions(input), Dimension(input.direction), MovedLeafIsFirst(input.direction)) == Some(target)
    ensures target.node.Leaf? && Has(input.tree, target.node.id) && FirstOfItsPlace(input, target.node.id)
  {
    hide Has, Ahead, NoFarther, NoWorse, IsForward, Visit, SortRegions, Keep;
    OriginIffSeen(input);
    LeavesInOrder(input.tree, [], input.frames);
    var axis, before := Dimension(input.direction), MovedLeafIsFirst(input.direction);
    var leaves := LeafRegions(input);
    AllAreFacts(input);
    var p := (r: Region) => IsForward(origin, r, axis, before);
    var le := (a: Region, b: Region) => NoFarther(origin, axis, a, b);
    var k := FirstOfTheBest(leaves, p, le);
    var order := Leaves(input.tree);
    assert order == WindowsOf(leaves) && order[k] == target.node.id;
    forall j | 0 <= j < k && order[j] in input.frames && order[j] != input.moved
               && Ahead(input.frames[input.moved], input.frames[order[j]], axis, before)
      ensures !NoWorse(input.frames[input.moved], input.frames[order[j]], input.frames[target.node.id], axis)
    {
      assert leaves[j] in leaves && leaves[k] in leaves;
      assert order[j] == leaves[j].node.id;
      IsAhead(input, origin, leaves[j]);
      AsWellPlaced(input, origin, leaves[j], leaves[k]);
    }
    assert PlacedFirstAt(input, target.node.id, k);
  }
}
