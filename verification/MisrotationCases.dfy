/** Where the failing rotation can and cannot happen. */
module MisrotationCases {
  import opened Geometry
  import opened BspTree
  import opened Partition
  import opened Planner
  import opened Subtrees
  import opened Insertion
  import opened GeometricMove
  import opened GeometricMoveProofs
  import opened GeometricEdgeProofs
  import opened GeometricMoveTheorems
  import opened SwapTheorems
  import opened SwapInTree

  // ---------------------------------------------------------------- never on planned frames

  lemma {:induction false} OuterBorderIsLeast(regions: seq<Region>, dimension: Axis, r: Region)
    requires r in regions
    ensures OuterBorder(regions, dimension, true) <= Start(r.frame, dimension)
  {
    if r != regions[0] {
      OuterBorderIsLeast(regions[1..], dimension, r);
    }
  }

  lemma CandidateTouchesEdge(origin: Region, regions: seq<Region>, dimension: Axis, groups: bool, c: Region)
    requires c in EdgeCandidates(origin, regions, dimension, true, groups)
    ensures regions != [] && c in regions
    ensures Close(Start(c.frame, dimension), OuterBorder(regions, dimension, true))
    ensures Close(Start(origin.frame, dimension), OuterBorder(regions, dimension, true))
  {
    hide OuterBorder, SomeShadows, Overlap, Keep;
  }

  /** Two panes at the leading edge start within the border tolerance of one another. */
  lemma EdgePanesStartTogether(input: MoveInput, origin: Region, regions: seq<Region>, dimension: Axis)
    requires origin in regions
    requires RankedCandidates(input, origin, regions, dimension, true) != []
    ensures var target := RankedCandidates(input, origin, regions, dimension, true)[0];
            target in regions && Close(Start(target.frame, dimension), Start(origin.frame, dimension))
  {
    hide EdgeCandidates, OuterBorder;
    var ranked := RankedCandidates(input, origin, regions, dimension, true);
    var target := ranked[0];
    assert target in ranked;
    assert target in EdgeCandidates(origin, regions, dimension, true, input.groups);
    CandidateTouchesEdge(origin, regions, dimension, input.groups, target);
    OuterBorderIsLeast(regions, dimension, target);
    OuterBorderIsLeast(regions, dimension, origin);
  }

  /** In a plan with panes wider than the tolerance, the two halves of a split along an axis start
      further apart than the tolerance. */
  lemma HalvesStartApart(tree: Node, content: Frame, gap: int, resolve: Resolver, pair: Node)
    requires gap >= 0 && Distinct(tree) && Positive(content) && Sub(tree, pair) && pair.Split?
    requires Solve(tree, content, gap, resolve).Some?
    requires forall id :: Has(tree, id) ==>
               id in Solve(tree, content, gap, resolve).value
               && Length(Solve(tree, content, gap, resolve).value[id], pair.axis) > BORDER_TOLERANCE
    ensures var frames := Solve(tree, content, gap, resolve).value;
            !Close(Start(Hull(pair.first, frames), pair.axis), Start(Hull(pair.second, frames), pair.axis))
  {
    hide Solve, Halve, Hull, RectOf, Distinct, Sub, Has;
    var frames := Solve(tree, content, gap, resolve).value;
    PartIsSolved(tree, content, gap, resolve, pair);
    SubDistinct(tree, pair);
    var rect := RectOf(tree, content, gap, resolve, pair);
    HullOfHalves(pair, rect, gap, resolve, frames);
    var r := Halve(pair, rect, gap, resolve);
    var firstRect := FirstRect(rect, pair.axis, r.first);
    HullIsRect(pair.first, firstRect, gap, resolve, frames);
    HullIsRect(pair.second, SecondRect(rect, pair.axis, r.first, r.second, gap), gap, resolve, frames);
    var id := SomeWindow(pair.first);
    SolvedFrameFits(pair.first, firstRect, gap, resolve, id);
    ShowsOne(frames, pair.first, firstRect, gap, resolve, id);
    HasInParts(pair);
    SubHas(tree, pair, id);
  }

  lemma ShowsOne(frames: Frames, node: Node, rect: Frame, gap: int, resolve: Resolver, id: WindowId)
    requires Solve(node, rect, gap, resolve).Some? && Shows(frames, node, Solve(node, rect, gap, resolve).value)
    requires Has(node, id)
    ensures id in frames && frames[id] == Solve(node, rect, gap, resolve).value[id]
  {
    hide Solve;
  }

  /** Moves on planner-made frames always conserve windows. */
  lemma PlannedMoveConserves(input: MoveInput, content: Frame, resolve: Resolver)
    requires input.gap >= 0 && Distinct(input.tree) && Positive(content)
    requires Solve(input.tree, content, input.gap, resolve) == Some(input.frames)
    requires forall id :: Has(input.tree, id) ==>
               id in input.frames && Length(input.frames[id], Dimension(input.direction)) > BORDER_TOLERANCE
    ensures Bag(MoveGeometrically(input)) == Bag(input.tree)
  {
    hide Bag, Solve, Misrotates, MoveGeometrically, Distinct, Has, Visit, RankedCandidates, Hull, Origin, Sub;
    MoveGeometricallyConservesIff(input);
    if Misrotates(input) {
      MisrotatedPair(input);
      OriginIsObserved(input);
      var origin := Origin(input).value;
      var regions := Visit(input.tree, [], input.frames).0;
      var dimension := Dimension(input.direction);
      EdgePanesStartTogether(input, origin, regions, dimension);
      var target := RankedCandidates(input, origin, regions, dimension, true)[0];
      RegionFrameIsHull(input.tree, [], input.frames, origin);
      RegionFrameIsHull(input.tree, [], input.frames, target);
      HalvesStartApart(input.tree, content, input.gap, resolve, Last(origin.path));
      assert false;
    }
  }

  lemma MisrotatedPair(input: MoveInput)
    requires Distinct(input.tree) && Misrotates(input)
    ensures Origin(input).Some?
    ensures var origin := Origin(input).value;
            var ranked := RankedCandidates(input, origin, Visit(input.tree, [], input.frames).0,
                                           Dimension(input.direction), true);
            && ranked != [] && origin.path != []
            && var pair := Last(origin.path);
               && pair.Split? && pair.axis == Dimension(input.direction) && Sub(input.tree, pair)
               && ((pair.first == origin.node && pair.second == ranked[0].node)
                   || (pair.second == origin.node && pair.first == ranked[0].node))
  {
    hide Visit, Distinct, Sub, AtPath, CommonAncestor, RankedCandidates, Tied, Origin;
    OriginIsObserved(input);
    var origin := Origin(input).value;
    var regions := Visit(input.tree, [], input.frames).0;
    var dimension := Dimension(input.direction);
    var ranked := RankedCandidates(input, origin, regions, dimension, true);
    assert ranked[0] in ranked;
    CandidatesAreSituated(input, origin, regions, ranked[0]);
    SituatedFacts(input, origin, ranked[0]);
  }

  // ---------------------------------------------------------------- but on drifted ones

  /** Three windows side by side in the tree, the first two seen one above the other. */
  const DRIFTED: MoveInput := MoveInput(
    Split(Vertical, 0.5, Split(Vertical, 0.5, Leaf("a"), Leaf("b")), Leaf("c")),
    "a", Left,
    map["a" := Frame(0, 0, 100, 100), "b" := Frame(0, 100, 100, 100), "c" := Frame(100, 0, 100, 200)],
    0, false)

  const PAIR: Node := Split(Vertical, 0.5, Leaf("a"), Leaf("b"))
  const TREE: Node := Split(Vertical, 0.5, PAIR, Leaf("c"))
  const REGION_A := Region(Leaf("a"), Frame(0, 0, 100, 100), 10000, [TREE, PAIR])
  const REGION_B := Region(Leaf("b"), Frame(0, 100, 100, 100), 10000, [TREE, PAIR])
  const REGION_C := Region(Leaf("c"), Frame(100, 0, 100, 200), 20000, [TREE])
  const REGION_AB := Region(PAIR, Frame(0, 0, 100, 200), 20000, [TREE])
  const REGION_ABC := Region(TREE, Frame(0, 0, 200, 200), 40000, [])
  const DRIFTED_REGIONS := [REGION_A, REGION_B, REGION_AB, REGION_C, REGION_ABC]

  lemma VisitOfSplit(node: Node, path: seq<Node>, frames: Frames, inFirst: seq<Region>, a: Region,
                     inSecond: seq<Region>, b: Region)
    requires node.Split?
    requires Visit(node.first, path + [node], frames) == (inFirst, Some(a))
    requires Visit(node.second, path + [node], frames) == (inSecond, Some(b))
    ensures var own := Region(node, Union(a.frame, b.frame), a.area + b.area, path);
            Visit(node, path, frames) == (inFirst + inSecond + [own], Some(own))
  {
  }

  lemma DriftedRegions()
    ensures Visit(TREE, [], DRIFTED.frames) == (DRIFTED_REGIONS, Some(REGION_ABC))
  {
    var frames := DRIFTED.frames;
    assert [] + [TREE] == [TREE] && [TREE] + [PAIR] == [TREE, PAIR];
    assert Visit(Leaf("a"), [TREE] + [PAIR], frames) == ([REGION_A], Some(REGION_A));
    assert Visit(Leaf("b"), [TREE] + [PAIR], frames) == ([REGION_B], Some(REGION_B));
    assert Visit(Leaf("c"), [TREE], frames) == ([REGION_C], Some(REGION_C));
    hide Visit;
    VisitOfSplit(PAIR, [TREE], frames, [REGION_A], REGION_A, [REGION_B], REGION_B);
    assert [REGION_A] + [REGION_B] + [REGION_AB] == [REGION_A, REGION_B, REGION_AB];
    VisitOfSplit(TREE, [], frames, [REGION_A, REGION_B, REGION_AB], REGION_AB, [REGION_C], REGION_C);
    assert [REGION_A, REGION_B, REGION_AB] + [REGION_C] + [REGION_ABC] == DRIFTED_REGIONS;
  }

  lemma KeepStep(regions: seq<Region>, p: Region -> bool)
    requires regions != []
    ensures Keep(regions, p) == if p(regions[0]) then [regions[0]] + Keep(regions[1..], p) else Keep(regions[1..], p)
  {
  }

  lemma KeepDrifted(p: Region -> bool)
    requires !p(REGION_AB) && !p(REGION_ABC)
    ensures Keep(DRIFTED_REGIONS, p)
            == (if p(REGION_A) then [REGION_A] else []) + (if p(REGION_B) then [REGION_B] else [])
             + (if p(REGION_C) then [REGION_C] else [])
  {
    hide Keep, REGION_A, REGION_B, REGION_AB, REGION_C, REGION_ABC;
    KeepFive(REGION_A, REGION_B, REGION_AB, REGION_C, REGION_ABC, p);
  }

  lemma KeepOnto(first: Region, rest: seq<Region>, p: Region -> bool)
    ensures Keep([first] + rest, p) == (if p(first) then [first] else []) + Keep(rest, p)
  {
    hide Keep;
    assert ([first] + rest)[1..] == rest;
    KeepStep([first] + rest, p);
  }

  lemma KeepFive(a: Region, b: Region, ab: Region, c: Region, abc: Region, p: Region -> bool)
    requires !p(ab) && !p(abc)
    ensures Keep([a, b, ab, c, abc], p)
            == (if p(a) then [a] else []) + (if p(b) then [b] else []) + (if p(c) then [c] else [])
  {
    hide Keep;
    assert [a, b, ab, c, abc] == [a] + [b, ab, c, abc] && [b, ab, c, abc] == [b] + [ab, c, abc];
    KeepOnto(a, [b, ab, c, abc], p);
    KeepOnto(b, [ab, c, abc], p);
    KeepTail(ab, c, abc, p);
  }

  lemma KeepTail(ab: Region, c: Region, abc: Region, p: Region -> bool)
    requires !p(ab) && !p(abc)
    ensures Keep([ab, c, abc], p) == if p(c) then [c] else []
  {
    hide Keep;
    assert [ab, c, abc][1..] == [c, abc] && [c, abc][1..] == [abc] && [abc][1..] == [];
    KeepStep([ab, c, abc], p);
    KeepStep([c, abc], p);
    KeepStep([abc], p);
    KeepNone(p);
  }

  lemma KeepNone(p: Region -> bool)
    ensures Keep([], p) == []
  {
  }

  lemma KeepThree(a: Region, b: Region, c: Region, p: Region -> bool)
    requires !p(a) && !p(b) && !p(c)
    ensures Keep([a, b, c], p) == []
  {
    hide Keep;
    var all := [a, b, c];
    KeepStep(all, p);
    KeepStep(all[1..], p);
    KeepStep(all[1..][1..], p);
    KeepNone(p);
    assert all[1..][1..][1..] == [];
  }

  lemma DriftedLeaves()
    ensures Keep(DRIFTED_REGIONS, (r: Region) => r.node.Leaf?) == [REGION_A, REGION_B, REGION_C]
  {
    hide Keep;
    KeepDrifted((r: Region) => r.node.Leaf?);
  }

  lemma DriftedOrigin()
    ensures Origin(DRIFTED) == Some(REGION_A)
  {
    hide Visit, Keep;
    DriftedRegions();
    DriftedLeaves();
  }

  lemma NothingAhead()
    ensures ForwardTarget(REGION_A, [REGION_A, REGION_B, REGION_C], Vertical, true).None?
  {
    hide Keep;
    KeepThree(REGION_A, REGION_B, REGION_C, (r: Region) => IsForward(REGION_A, r, Vertical, true));
  }

  lemma DriftedOuterBorder()
    ensures OuterBorder(DRIFTED_REGIONS, Vertical, true) == 0
  {
    var all := DRIFTED_REGIONS;
    assert all[1..] == [REGION_B, REGION_AB, REGION_C, REGION_ABC];
    assert all[1..][1..] == [REGION_AB, REGION_C, REGION_ABC];
    assert all[1..][1..][1..] == [REGION_C, REGION_ABC];
    assert all[1..][1..][1..][1..] == [REGION_ABC];
    assert OuterBorder([REGION_ABC], Vertical, true) == 0;
    assert OuterBorder([REGION_C, REGION_ABC], Vertical, true) == 0;
    assert OuterBorder([REGION_AB, REGION_C, REGION_ABC], Vertical, true) == 0;
  }

  lemma DriftedRanking()
    ensures RankedCandidates(DRIFTED, REGION_A, DRIFTED_REGIONS, Vertical, true) == [REGION_B]
  {
    hide Keep, OuterBorder;
    DriftedOuterBorder();
    var p := (r: Region) => Eligible(REGION_A, r, 0, Vertical, true, false);
    KeepDrifted(p);
    assert Keep(DRIFTED_REGIONS, p) == [REGION_B];
    var q := (r: Region) => !SomeShadows(REGION_A, [REGION_B], r, Other(Vertical));
    KeepStep([REGION_B], q);
    KeepNone(q);
    assert [REGION_B][1..] == [];
    assert !SomeShadows(REGION_A, [REGION_B], REGION_B, Horizontal);
    assert EdgeCandidates(REGION_A, DRIFTED_REGIONS, Vertical, true, false) == [REGION_B];
  }

  lemma DriftedAncestor()
    ensures CommonAncestor(REGION_A.path, REGION_B.path) == Some(PAIR)
  {
    var path := [TREE, PAIR];
    assert path[1..] == [PAIR] && [PAIR][1..] == [];
    assert CommonAncestor([PAIR], [PAIR]) == Some(PAIR);
  }

  lemma DriftedDistinct()
    ensures Distinct(TREE)
  {
    assert Bag(PAIR) == multiset{"a"} + multiset{"b"};
    assert Bag(TREE) == multiset{"a"} + multiset{"b"} + multiset{"c"};
    assert "a" != "b" && "a" != "c" && "b" != "c";
  }

  /** The failing rotation is reachable: moving the first of the drifted windows left duplicates or
      drops windows. */
  lemma DriftedMoveLosesWindows()
    ensures Distinct(DRIFTED.tree) && Bag(MoveGeometrically(DRIFTED)) != Bag(DRIFTED.tree)
  {
    hide Visit, Keep, Origin, ForwardTarget, RankedCandidates, CommonAncestor, Bag, MoveGeometrically, Distinct;
    assert DRIFTED.tree == TREE;
    DriftedDistinct();
    DriftedOrigin();
    DriftedRegions();
    DriftedLeaves();
    NothingAhead();
    DriftedRanking();
    DriftedAncestor();
    MoveGeometricallyConservesIff(DRIFTED);
  }
}
