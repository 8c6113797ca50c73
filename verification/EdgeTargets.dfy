/** Which pane a window at the outer edge is matched with, said of tree and frames alone. */
module EdgeTargets {
  import opened Geometry
  import opened BspTree
  import opened Planner
  import opened Subtrees
  import opened GeometricMove
  import opened GeometricMoveProofs
  import opened SwapTheorems
  import opened ForwardTargets
  import opened MoveBack
  import opened MoveTargets
  import opened GridMoves

  // ---------------------------------------------------------------- panes, seen

  function AreaOf(node: Node, frames: Frames): int {
    match node
    case Leaf(id) => if id in frames then frames[id].width * frames[id].height else 0
    case Split(_, _, first, second) => AreaOf(first, frames) + AreaOf(second, frames)
  }

  lemma {:induction false} RegionAreaIs(node: Node, path: seq<Node>, frames: Frames, r: Region)
    requires r in Visit(node, path, frames).0
    ensures r.area == AreaOf(r.node, frames)
  {
    if node.Split? {
      var (inFirst, a) := Visit(node.first, path + [node], frames);
      var (inSecond, b) := Visit(node.second, path + [node], frames);
      if r in inFirst {
        RegionAreaIs(node.first, path + [node], frames, r);
      } else if r in inSecond {
        RegionAreaIs(node.second, path + [node], frames, r);
      } else {
        RegionAreaIs(node.first, path + [node], frames, a.value);
        RegionAreaIs(node.second, path + [node], frames, b.value);
      }
    }
  }

  lemma {:induction false} HullIsTight(node: Node, frames: Frames)
    requires forall id :: Has(node, id) ==> id in frames && Positive(frames[id])
    ensures Positive(Hull(node, frames))
    ensures exists id :: Has(node, id) && id in frames && frames[id].x == Hull(node, frames).x
    ensures exists id :: Has(node, id) && id in frames && frames[id].y == Hull(node, frames).y
    ensures exists id :: Has(node, id) && id in frames
                         && frames[id].x + frames[id].width == Hull(node, frames).x + Hull(node, frames).width
    ensures exists id :: Has(node, id) && id in frames
                         && frames[id].y + frames[id].height == Hull(node, frames).y + Hull(node, frames).height
  {
    if node.Split? {
      HasInParts(node);
      HullIsTight(node.first, frames);
      HullIsTight(node.second, frames);
      hide Hull, Has;
      HullOfSplit(node, frames);
    } else {
      assert Has(node, node.id);
    }
  }

  lemma HullOfSplit(node: Node, frames: Frames)
    requires node.Split?
    ensures Hull(node, frames) == Union(Hull(node.first, frames), Hull(node.second, frames))
  {
  }

  lemma PaneHull(input: MoveInput, pane: Node)
    requires AllSeen(input) && Sub(input.tree, pane)
    ensures Positive(Hull(pane, input.frames))
    ensures forall id :: Has(pane, id) ==> id in input.frames && Inside(input.frames[id], Hull(pane, input.frames))
    ensures forall axis :: exists id :: Has(pane, id) && id in input.frames && Start(input.frames[id], axis) == Start(Hull(pane, input.frames), axis)
    ensures forall axis :: exists id :: Has(pane, id) && id in input.frames && End(input.frames[id], axis) == End(Hull(pane, input.frames), axis)
  {
    hide Hull, Has, Sub, Inside;
    forall id | Has(pane, id) ensures id in input.frames && Positive(input.frames[id]) {
      SubHas(input.tree, pane, id);
    }
    HullIsTight(pane, input.frames);
    forall id | Has(pane, id) ensures Inside(input.frames[id], Hull(pane, input.frames)) {
      WindowInHull(pane, input.frames, id);
    }
    forall axis
      ensures exists id :: Has(pane, id) && id in input.frames && Start(input.frames[id], axis) == Start(Hull(pane, input.frames), axis)
      ensures exists id :: Has(pane, id) && id in input.frames && End(input.frames[id], axis) == End(Hull(pane, input.frames), axis)
    {
      assert axis == Vertical || axis == Horizontal;
    }
  }

  // ---------------------------------------------------------------- the matched pane

  /** No window reaches more than two points further in the direction. */
  ghost predicate AtEdge(input: MoveInput, f: Frame) {
    var axis := Dimension(input.direction);
    forall id :: Has(input.tree, id) && id in input.frames ==>
      if MovedLeafIsFirst(input.direction) then Start(f, axis) <= Start(input.frames[id], axis) + 2
      else End(input.frames[id], axis) <= End(f, axis) + 2
  }

  /** A pane, or only a window where groups do not count, at the same edge, beside the moved window. */
  ghost predicate Candidate(input: MoveInput, pane: Node)
    requires AllSeen(input)
  {
    && Sub(input.tree, pane) && !Has(pane, input.moved) && (input.groups || pane.Leaf?)
    && AtEdge(input, Hull(pane, input.frames))
    && !Share(input.frames[input.moved], Hull(pane, input.frames), Other(Dimension(input.direction)), 3)
  }

  /** Another is on the same side of the moved window and more than two points nearer. */
  ghost predicate BehindAnother(input: MoveInput, pane: Node)
    requires AllSeen(input)
  {
    var across, f := Other(Dimension(input.direction)), input.frames[input.moved];
    exists other :: Candidate(input, other)
      && (Start(Hull(other, input.frames), across) < Start(f, across) <==> Start(Hull(pane, input.frames), across) < Start(f, across))
      && Away(f, Hull(other, input.frames), across) + 2 < Away(f, Hull(pane, input.frames), across)
  }

  ghost predicate Matches(input: MoveInput, pane: Node)
    requires AllSeen(input)
  {
    AtEdge(input, input.frames[input.moved]) && Candidate(input, pane) && !BehindAnother(input, pane)
  }

  /** How much the pane's windows differ from the moved one in area. */
  function Mismatch(input: MoveInput, pane: Node): int
    requires input.moved in input.frames
  {
    var f := input.frames[input.moved];
    var d := AreaOf(pane, input.frames) - f.width * f.height;
    if d < 0 then -d else d
  }

  /** No matching pane is nearer in area. */
  ghost predicate BestMatch(input: MoveInput, pane: Node)
    requires AllSeen(input)
  {
    Matches(input, pane) && forall other :: Matches(input, other) ==> Mismatch(input, pane) <= Mismatch(input, other)
  }

  /** A second pane matches nearly as well: the difference is no more than the moved window's width and height. */
  ghost predicate TieBetween(input: MoveInput, a: Node, b: Node)
    requires AllSeen(input)
  {
    && BestMatch(input, a) && Matches(input, b) && a != b
    && Mismatch(input, b) - Mismatch(input, a) <= input.frames[input.moved].width + input.frames[input.moved].height
  }

  ghost predicate ATie(input: MoveInput)
    requires AllSeen(input)
  {
    exists a, b :: TieBetween(input, a, b)
  }

  // ---------------------------------------------------------------- it is the one the program ranks first

  function RegionsOf(input: MoveInput): seq<Region> { Visit(input.tree, [], input.frames).0 }

  lemma RegionFacts(input: MoveInput, r: Region)
    requires AllSeen(input) && r in RegionsOf(input)
    ensures Sub(input.tree, r.node) && AtPath(input.tree, r.path, r.node)
    ensures r.frame == Hull(r.node, input.frames) && r.area == AreaOf(r.node, input.frames) && Positive(r.frame)
  {
    hide Visit, AtPath, Sub, Hull, AreaOf;
    RegionFrameIsHull(input.tree, [], input.frames, r);
    RegionAreaIs(input.tree, [], input.frames, r);
    VisitPlaces(input.tree, [], input.frames, r);
    assert r.path[0..] == r.path;
    AtPathIsSub(input.tree, r.path, r.node);
    PaneHull(input, r.node);
  }

  lemma PaneRegion(input: MoveInput, pane: Node) returns (r: Region)
    requires AllSeen(input) && Sub(input.tree, pane)
    ensures r in RegionsOf(input) && r.node == pane
  {
    hide Visit, Sub;
    SeenIsVisible(input.tree, [], input.frames);
    r := EveryPaneHasRegion(input.tree, [], input.frames, pane);
  }

  lemma {:induction false} OuterIsOutermost(regions: seq<Region>, dimension: Axis, before: bool)
    requires regions != []
    ensures var outer := OuterBorder(regions, dimension, before);
            && (exists i :: 0 <= i < |regions| && Border(regions[i].frame, dimension, before) == outer)
            && forall i :: 0 <= i < |regions| ==>
                 if before then outer <= Border(regions[i].frame, dimension, before) else Border(regions[i].frame, dimension, before) <= outer
  {
    hide Border;
    if |regions| > 1 {
      var rest := regions[1..];
      OuterIsOutermost(rest, dimension, before);
      assert forall i :: 0 < i < |regions| ==> regions[i] == rest[i - 1];
      if OuterBorder(regions, dimension, before) != Border(regions[0].frame, dimension, before) {
        var i :| 0 <= i < |rest| && Border(rest[i].frame, dimension, before) == OuterBorder(rest, dimension, before);
        assert regions[i + 1] == rest[i];
      } else {
        assert Border(regions[0].frame, dimension, before) == OuterBorder(regions, dimension, before);
      }
    } else {
      assert Border(regions[0].frame, dimension, before) == OuterBorder(regions, dimension, before);
    }
  }

  lemma CloseIsAtEdge(input: MoveInput, r: Region)
    requires AllSeen(input) && r in RegionsOf(input)
    ensures var dimension, before := Dimension(input.direction), MovedLeafIsFirst(input.direction);
            Close(Border(r.frame, dimension, before), OuterBorder(RegionsOf(input), dimension, before)) <==> AtEdge(input, r.frame)
  {
    hide Has, Visit, Sub, OuterBorder, RegionsOf, Border, AtEdge;
    var dimension, before := Dimension(input.direction), MovedLeafIsFirst(input.direction);
    var regions := RegionsOf(input);
    var outer := OuterBorder(regions, dimension, before);
    OuterIsOutermost(regions, dimension, before);
    var k :| 0 <= k < |regions| && regions[k] == r;
    var i :| 0 <= i < |regions| && Border(regions[i].frame, dimension, before) == outer;
    var id := OutermostWindow(input, regions[i]);
    if AtEdge(input, r.frame) {
      EdgeReaches(input, r.frame, id);
    }
    if Close(Border(r.frame, dimension, before), outer) {
      AllWithin(input, r.frame, outer);
    }
  }

  /** A window at the pane's border in the direction. */
  lemma OutermostWindow(input: MoveInput, r: Region) returns (id: WindowId)
    requires AllSeen(input) && r in RegionsOf(input)
    ensures Has(input.tree, id)
    ensures var dimension, before := Dimension(input.direction), MovedLeafIsFirst(input.direction);
            Border(input.frames[id], dimension, before) == Border(r.frame, dimension, before)
  {
    hide Has, Visit, Sub, RegionsOf, Hull, Inside;
    RegionFacts(input, r);
    PaneHull(input, r.node);
    var dimension, before := Dimension(input.direction), MovedLeafIsFirst(input.direction);
    if before {
      id :| Has(r.node, id) && id in input.frames && Start(input.frames[id], dimension) == Start(Hull(r.node, input.frames), dimension);
    } else {
      id :| Has(r.node, id) && id in input.frames && End(input.frames[id], dimension) == End(Hull(r.node, input.frames), dimension);
    }
    SubHas(input.tree, r.node, id);
  }

  lemma EdgeReaches(input: MoveInput, f: Frame, id: WindowId)
    requires AllSeen(input) && AtEdge(input, f) && Has(input.tree, id)
    ensures var dimension, before := Dimension(input.direction), MovedLeafIsFirst(input.direction);
            if before then Border(f, dimension, before) <= Border(input.frames[id], dimension, before) + 2
            else Border(input.frames[id], dimension, before) <= Border(f, dimension, before) + 2
  {
  }

  lemma AllWithin(input: MoveInput, f: Frame, outer: int)
    requires AllSeen(input) && RegionsOf(input) != []
    requires outer == OuterBorder(RegionsOf(input), Dimension(input.direction), MovedLeafIsFirst(input.direction))
    requires Close(Border(f, Dimension(input.direction), MovedLeafIsFirst(input.direction)), outer)
    ensures AtEdge(input, f)
  {
    hide Has, Visit, OuterBorder, RegionsOf;
    forall id | Has(input.tree, id) && id in input.frames
      ensures if MovedLeafIsFirst(input.direction)
              then Start(f, Dimension(input.direction)) <= Start(input.frames[id], Dimension(input.direction)) + 2
              else End(input.frames[id], Dimension(input.direction)) <= End(f, Dimension(input.direction)) + 2
    {
      WindowRegion(input, id, outer);
    }
  }

  lemma WindowRegion(input: MoveInput, id: WindowId, outer: int)
    requires AllSeen(input) && Has(input.tree, id) && RegionsOf(input) != []
    requires outer == OuterBorder(RegionsOf(input), Dimension(input.direction), MovedLeafIsFirst(input.direction))
    ensures if MovedLeafIsFirst(input.direction) then outer <= Start(input.frames[id], Dimension(input.direction))
            else End(input.frames[id], Dimension(input.direction)) <= outer
  {
    hide Has, Visit, Sub, AtPath, OuterBorder;
    HasLeaf(input.tree, id);
    var r := PaneRegion(input, Leaf(id));
    RegionFacts(input, r);
    OuterIsOutermost(RegionsOf(input), Dimension(input.direction), MovedLeafIsFirst(input.direction));
  }

  lemma EligibleIsCandidate(input: MoveInput, o: Region, r: Region)
    requires Distinct(input.tree) && AllSeen(input) && o in RegionsOf(input) && o.node == Leaf(input.moved) && r in RegionsOf(input)
    ensures var dimension, before := Dimension(input.direction), MovedLeafIsFirst(input.direction);
            Eligible(o, r, OuterBorder(RegionsOf(input), dimension, before), dimension, before, input.groups) <==> Candidate(input, r.node)
  {
    hide Has, Visit, Sub, AtPath, OuterBorder, Hull, AtEdge, Share, Overlap, Distinct, Border;
    var dimension, before := Dimension(input.direction), MovedLeafIsFirst(input.direction);
    RegionFacts(input, o);
    RegionFacts(input, r);
    LeafHull(input);
    CloseIsAtEdge(input, r);
    SharingIsOverlap(o.frame, r.frame, Other(dimension), 3);
    HoldsMoved(input, o, r);
  }

  lemma LeafHull(input: MoveInput)
    requires AllSeen(input)
    ensures Hull(Leaf(input.moved), input.frames) == input.frames[input.moved]
    ensures AreaOf(Leaf(input.moved), input.frames) == input.frames[input.moved].width * input.frames[input.moved].height
  {
  }

  /** The panes that hold the moved window are its own and the splits on its path. */
  lemma HoldsMoved(input: MoveInput, o: Region, r: Region)
    requires Distinct(input.tree) && AtPath(input.tree, o.path, o.node) && o.node == Leaf(input.moved) && Sub(input.tree, r.node)
    ensures Has(r.node, input.moved) <==> r.node == o.node || (r.node.Split? && r.node in o.path)
  {
    hide AtPath, Distinct;
    HasLeaf(r.node, input.moved);
    if r.node.Split? {
      PathHasRun(input, o, r.node);
    }
  }

  lemma ShadowedIsBehind(input: MoveInput, o: Region, eligible: seq<Region>, c: Region)
    requires Distinct(input.tree) && AllSeen(input) && o in RegionsOf(input) && o.node == Leaf(input.moved) && c in RegionsOf(input)
    requires forall r :: r in eligible <==> r in RegionsOf(input) && Candidate(input, r.node)
    ensures SomeShadows(o, eligible, c, Other(Dimension(input.direction))) <==> BehindAnother(input, c.node)
  {
    hide Has, Visit, Sub, AtPath, Hull, AtEdge, Share, Overlap, Distinct, IntervalGap, Away, Candidate;
    var across := Other(Dimension(input.direction));
    RegionFacts(input, o);
    RegionFacts(input, c);
    LeafHull(input);
    AwayIsGap(o.frame, c.frame, across);
    if SomeShadows(o, eligible, c, across) {
      var i :| 0 <= i < |eligible| && Shadows(o, eligible[i], c, across);
      assert eligible[i] in eligible;
      RegionFacts(input, eligible[i]);
      AwayIsGap(o.frame, eligible[i].frame, across);
      assert Candidate(input, eligible[i].node);
    }
    if BehindAnother(input, c.node) {
      var other :| Candidate(input, other)
        && (Start(Hull(other, input.frames), across) < Start(o.frame, across) <==> Start(c.frame, across) < Start(o.frame, across))
        && Away(o.frame, Hull(other, input.frames), across) + 2 < Away(o.frame, c.frame, across);
      CandidateIsPane(input, other);
      var r := PaneRegion(input, other);
      RegionFacts(input, r);
      AwayIsGap(o.frame, r.frame, across);
      assert r in eligible;
      var i :| 0 <= i < |eligible| && eligible[i] == r;
      assert Shadows(o, eligible[i], c, across);
    }
  }

  lemma CandidateIsPane(input: MoveInput, pane: Node)
    requires AllSeen(input) && Candidate(input, pane)
    ensures Sub(input.tree, pane) && !Has(pane, input.moved) && (pane.Split? ==> input.groups)
  {
  }

  /** The program's candidates are the regions of the matching panes. */
  lemma CandidatesMatch(input: MoveInput, o: Region, r: Region)
    requires Distinct(input.tree) && AllSeen(input) && o in RegionsOf(input) && o.node == Leaf(input.moved)
    ensures var dimension, before := Dimension(input.direction), MovedLeafIsFirst(input.direction);
            r in EdgeCandidates(o, RegionsOf(input), dimension, before, input.groups) <==> r in RegionsOf(input) && Matches(input, r.node)
  {
    hide Has, Visit, Sub, AtPath, Hull, AtEdge, Share, Distinct, Candidate, OuterBorder, SomeShadows, Eligible, Close, Border, BehindAnother;
    var dimension, before := Dimension(input.direction), MovedLeafIsFirst(input.direction);
    var regions := RegionsOf(input);
    CloseIsAtEdge(input, o);
    RegionFacts(input, o);
    LeafHull(input);
    var outer := OuterBorder(regions, dimension, before);
    var eligible := Keep(regions, (x: Region) => Eligible(o, x, outer, dimension, before, input.groups));
    forall x | x in regions ensures x in eligible <==> Candidate(input, x.node) {
      EligibleIsCandidate(input, o, x);
    }
    if r in regions {
      ShadowedIsBehind(input, o, eligible, r);
    }
  }

  // ---------------------------------------------------------------- ranking

  ghost predicate NodesDiffer(regions: seq<Region>) {
    forall i, j :: 0 <= i < j < |regions| ==> regions[i].node != regions[j].node
  }

  ghost predicate AllHave(regions: seq<Region>, tree: Node) {
    forall i :: 0 <= i < |regions| ==> Sub(tree, regions[i].node)
  }

  lemma {:induction false} VisitInside(node: Node, path: seq<Node>, frames: Frames)
    ensures AllHave(Visit(node, path, frames).0, node)
  {
    if node.Split? {
      VisitInside(node.first, path + [node], frames);
      VisitInside(node.second, path + [node], frames);
    }
  }

  lemma ApartNodesDiffer(a: seq<Region>, b: seq<Region>, first: Node, second: Node)
    requires NodesDiffer(a) && NodesDiffer(b) && AllHave(a, first) && AllHave(b, second)
    requires forall id :: !(Has(first, id) && Has(second, id))
    ensures NodesDiffer(a + b)
  {
    hide Has, Sub;
    forall i, j | 0 <= i < |a| && 0 <= j < |b| ensures a[i].node != b[j].node {
      var id := SomeWindow(a[i].node);
      SubHas(first, a[i].node, id);
      if a[i].node == b[j].node {
        SubHas(second, b[j].node, id);
        assert false;
      }
    }
  }

  lemma OwnNodeDiffers(regions: seq<Region>, own: Region, tree: Node)
    requires NodesDiffer(regions) && own.node == tree && tree.Split?
    requires forall i :: 0 <= i < |regions| ==> Sub(tree.first, regions[i].node) || Sub(tree.second, regions[i].node)
    ensures NodesDiffer(regions + [own])
  {
    hide Sub;
    forall i | 0 <= i < |regions| ensures regions[i].node != tree {
      if Sub(tree.first, regions[i].node) { SubSize(tree.first, regions[i].node); } else { SubSize(tree.second, regions[i].node); }
    }
  }

  lemma {:induction false} VisitDiffers(node: Node, path: seq<Node>, frames: Frames)
    requires Distinct(node)
    ensures NodesDiffer(Visit(node, path, frames).0)
  {
    if node.Split? {
      var inner := path + [node];
      var (inFirst, a) := Visit(node.first, inner, frames);
      var (inSecond, b) := Visit(node.second, inner, frames);
      DistinctParts(node);
      VisitDiffers(node.first, inner, frames);
      VisitDiffers(node.second, inner, frames);
      VisitInside(node.first, inner, frames);
      VisitInside(node.second, inner, frames);
      hide Sub, NodesDiffer, Has, Distinct;
      ApartNodesDiffer(inFirst, inSecond, node.first, node.second);
      if a.Some? && b.Some? {
        OwnNodeDiffers(inFirst + inSecond, Visit(node, path, frames).1.value, node);
      }
    }
  }

  lemma {:induction false} KeepDiffers(regions: seq<Region>, p: Region -> bool)
    requires NodesDiffer(regions)
    ensures NodesDiffer(Keep(regions, p))
    ensures forall r :: r in Keep(regions, p) ==> r in regions
  {
    if regions != [] {
      var rest := regions[1..];
      KeepDiffers(rest, p);
      assert forall i :: 0 <= i < |rest| ==> rest[i] == regions[i + 1];
      var kept := Keep(rest, p);
      forall i | 0 <= i < |kept| ensures kept[i].node != regions[0].node {
        assert kept[i] in rest;
      }
    }
  }

  lemma {:induction false} SortDiffers(regions: seq<Region>, le: (Region, Region) -> bool)
    requires NodesDiffer(regions)
    ensures NodesDiffer(SortRegions(regions, le))
  {
    if regions != [] {
      var rest := regions[1..];
      SortDiffers(rest, le);
      var sorted := SortRegions(rest, le);
      forall i | 0 <= i < |sorted| ensures sorted[i].node != regions[0].node {
        assert sorted[i] in rest;
      }
      InsertDiffers(regions[0], sorted, le);
    }
  }

  lemma {:induction false} InsertDiffers(r: Region, sorted: seq<Region>, le: (Region, Region) -> bool)
    requires NodesDiffer(sorted) && forall i :: 0 <= i < |sorted| ==> sorted[i].node != r.node
    ensures NodesDiffer(InsertRegion(r, sorted, le))
  {
    if sorted != [] && !le(r, sorted[0]) {
      var rest := sorted[1..];
      InsertDiffers(r, rest, le);
      var inserted := InsertRegion(r, rest, le);
      forall i | 0 <= i < |inserted| ensures inserted[i].node != sorted[0].node {
        assert inserted[i] == r || inserted[i] in rest;
      }
    }
  }

  /** Every later one is no better than any before it. */
  ghost predicate Ascending(sorted: seq<Region>, le: (Region, Region) -> bool) {
    forall i, j :: 0 <= i < j < |sorted| ==> le(sorted[i], sorted[j])
  }

  lemma {:induction false} SortedAscends(regions: seq<Region>, le: (Region, Region) -> bool)
    requires Orders(le)
    ensures Ascending(SortRegions(regions, le), le)
  {
    if regions != [] {
      SortedAscends(regions[1..], le);
      hide Ascending, Orders;
      InsertedAscends(regions[0], SortRegions(regions[1..], le), le);
    }
  }

  lemma AscendsOnto(first: Region, rest: seq<Region>, le: (Region, Region) -> bool)
    requires Ascending(rest, le) && forall r :: r in rest ==> le(first, r)
    ensures Ascending([first] + rest, le)
  {
    var all := [first] + rest;
    forall i, j | 0 <= i < j < |all| ensures le(all[i], all[j]) {
      assert all[j] == rest[j - 1];
      if i > 0 {
        assert all[i] == rest[i - 1];
      } else {
        assert rest[j - 1] in rest;
      }
    }
  }

  lemma {:induction false} InsertedAscends(r: Region, sorted: seq<Region>, le: (Region, Region) -> bool)
    requires Orders(le) && Ascending(sorted, le)
    ensures Ascending(InsertRegion(r, sorted, le), le)
  {
    if sorted == [] || le(r, sorted[0]) {
      forall other | other in sorted ensures le(r, other) {
        var j :| 0 <= j < |sorted| && sorted[j] == other;
        if j > 0 {
          assert le(r, sorted[0]) && le(sorted[0], sorted[j]);
        }
      }
      AscendsOnto(r, sorted, le);
    } else {
      var rest := sorted[1..];
      assert forall i :: 0 <= i < |rest| ==> rest[i] == sorted[i + 1];
      InsertedAscends(r, rest, le);
      assert le(sorted[0], r);
      forall other | other in InsertRegion(r, rest, le) ensures le(sorted[0], other) {
        if other != r {
          var k :| 0 <= k < |rest| && rest[k] == other;
          assert sorted[k + 1] == other;
        }
      }
      AscendsOnto(sorted[0], InsertRegion(r, rest, le), le);
    }
  }

  /** By area: first is what matches best, and there is a tie exactly when the second is nearly as good. */
  lemma RankedFirstMatchesBest(input: MoveInput, o: Region)
    requires Distinct(input.tree) && AllSeen(input) && o in RegionsOf(input) && o.node == Leaf(input.moved)
    ensures var ranked := RankedCandidates(input, o, RegionsOf(input), Dimension(input.direction), MovedLeafIsFirst(input.direction));
            && (ranked == [] <==> forall pane :: !Matches(input, pane))
            && (ranked != [] ==> ranked[0] in RegionsOf(input) && BestMatch(input, ranked[0].node) && (Tied(ranked, o) <==> ATie(input)))
            && (ranked != [] && !Tied(ranked, o) ==> forall pane :: BestMatch(input, pane) ==> pane == ranked[0].node)
  {
    hide Has, Visit, Sub, AtPath, Hull, Distinct, EdgeCandidates, Matches, AreaOf, RegionsOf, NodesDiffer, SortRegions;
    var dimension, before := Dimension(input.direction), MovedLeafIsFirst(input.direction);
    var candidates := EdgeCandidates(o, RegionsOf(input), dimension, before, input.groups);
    var le := (a: Region, b: Region) => AreaDifference(a, o) <= AreaDifference(b, o);
    var ranked := RankedCandidates(input, o, RegionsOf(input), dimension, before);
    assert ranked == SortRegions(candidates, le);
    SortedAscends(candidates, le);
    RegionFacts(input, o);
    LeafHull(input);
    forall r | r in ranked
      ensures r in RegionsOf(input) && Matches(input, r.node) && AreaDifference(r, o) == Mismatch(input, r.node)
    {
      CandidatesMatch(input, o, r);
      RegionFacts(input, r);
    }
    forall pane | Matches(input, pane)
      ensures exists i :: 0 <= i < |ranked| && ranked[i].node == pane
    {
      MatchIsPane(input, pane);
      var r := PaneRegion(input, pane);
      CandidatesMatch(input, o, r);
      assert r in ranked;
    }
    RankedDiffer(input, o);
    if ranked != [] {
      assert ranked[0] in ranked;
      if |ranked| >= 2 {
        assert ranked[1] in ranked;
      }
      TiesAreTies(input, o, ranked);
    }
  }

  lemma MatchIsPane(input: MoveInput, pane: Node)
    requires AllSeen(input) && Matches(input, pane)
    ensures Sub(input.tree, pane) && !Has(pane, input.moved)
  {
    hide AtEdge, Share, BehindAnother;
  }

  lemma RankedDiffer(input: MoveInput, o: Region)
    requires Distinct(input.tree)
    ensures NodesDiffer(RankedCandidates(input, o, RegionsOf(input), Dimension(input.direction), MovedLeafIsFirst(input.direction)))
  {
    hide NodesDiffer, SortRegions, Visit, Distinct, Keep, OuterBorder, Eligible, SomeShadows;
    VisitDiffers(input.tree, [], input.frames);
    var dimension, before := Dimension(input.direction), MovedLeafIsFirst(input.direction);
    var regions := RegionsOf(input);
    var candidates := EdgeCandidates(o, regions, dimension, before, input.groups);
    if regions != [] && Close(Border(o.frame, dimension, before), OuterBorder(regions, dimension, before)) {
      var outer := OuterBorder(regions, dimension, before);
      KeepDiffers(regions, (r: Region) => Eligible(o, r, outer, dimension, before, input.groups));
      var eligible := Keep(regions, (r: Region) => Eligible(o, r, outer, dimension, before, input.groups));
      KeepDiffers(eligible, (r: Region) => !SomeShadows(o, eligible, r, Other(dimension)));
    } else {
      assert candidates == [];
      NothingDiffers();
    }
    SortDiffers(candidates, (a: Region, b: Region) => AreaDifference(a, o) <= AreaDifference(b, o));
  }

  lemma NothingDiffers()
    ensures NodesDiffer([])
  {
  }

  lemma TiesAreTies(input: MoveInput, o: Region, ranked: seq<Region>)
    requires AllSeen(input) && ranked != [] && NodesDiffer(ranked) && o.frame == input.frames[input.moved]
    requires forall i :: 0 <= i < |ranked| ==> Matches(input, ranked[i].node) && AreaDifference(ranked[i], o) == Mismatch(input, ranked[i].node)
    requires forall i, j :: 0 <= i < j < |ranked| ==> AreaDifference(ranked[i], o) <= AreaDifference(ranked[j], o)
    requires forall pane :: Matches(input, pane) ==> exists i :: 0 <= i < |ranked| && ranked[i].node == pane
    ensures BestMatch(input, ranked[0].node)
    ensures Tied(ranked, o) <==> ATie(input)
    ensures !Tied(ranked, o) ==> forall pane :: BestMatch(input, pane) ==> pane == ranked[0].node
  {
    hide Matches, AreaDifference, Mismatch, Has;
    forall other | Matches(input, other) ensures Mismatch(input, ranked[0].node) <= Mismatch(input, other) {
      var i :| 0 <= i < |ranked| && ranked[i].node == other;
    }
    if Tied(ranked, o) {
      assert TieBetween(input, ranked[0].node, ranked[1].node);
    }
    if ATie(input) {
      var a, b :| TieBetween(input, a, b);
      var i :| 0 <= i < |ranked| && ranked[i].node == a;
      var j :| 0 <= j < |ranked| && ranked[j].node == b;
      assert Mismatch(input, a) == Mismatch(input, ranked[0].node);
    }
    if !Tied(ranked, o) {
      PositiveMoved(input);
      forall pane | BestMatch(input, pane) ensures pane == ranked[0].node {
        var i :| 0 <= i < |ranked| && ranked[i].node == pane;
        if i > 0 {
          assert Mismatch(input, pane) == Mismatch(input, ranked[0].node);
        }
      }
    }
  }

  lemma PositiveMoved(input: MoveInput)
    requires AllSeen(input)
    ensures Positive(input.frames[input.moved])
  {
  }
}
