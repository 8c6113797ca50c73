/** Moving a window by what is seen on screen: every branch of the directional move. */
module GeometricMove {
  import opened Geometry
  import opened BspTree
  import opened Partition
  import opened Planner
  import opened Policies
  import opened Subtrees

  /** A pane as observed. The area of a split is the sum of its windows' areas. */
  datatype Region = Region(node: Node, frame: Frame, area: int, path: seq<Node>)

  datatype MoveInput = MoveInput(
    tree: Node,
    moved: WindowId,
    direction: Direction,
    frames: Frames,
    gap: int,
    groups: bool)

  /** Rounding may displace a shared border by a pixel on either side. */
  const BORDER_TOLERANCE: nat := 2

  predicate Close(a: int, b: int) { Abs(a - b) <= BORDER_TOLERANCE }

  function Overlap(a: Frame, b: Frame, axis: Axis): int {
    Min(End(a, axis), End(b, axis)) - Max(Start(a, axis), Start(b, axis))
  }

  function IntervalGap(a: Frame, b: Frame, axis: Axis): nat { Max(0, -Overlap(a, b, axis)) }

  // ---------------------------------------------------------------- regions

  /** The observed panes below `node`, children first, and the pane of `node` itself when every
      window in it has a frame with area. */
  function Visit(node: Node, path: seq<Node>, frames: Frames): (r: (seq<Region>, Option<Region>))
    ensures r.1.Some? ==> r.1.value in r.0 && r.1.value.node == node && r.1.value.path == path
  {
    match node
    case Leaf(id) =>
      if id in frames && Positive(frames[id]) then
        var region := Region(node, frames[id], Area(frames[id]), path);
        ([region], Some(region))
      else ([], None)
    case Split(_, _, first, second) =>
      var (inFirst, a) := Visit(first, path + [node], frames);
      var (inSecond, b) := Visit(second, path + [node], frames);
      if a.None? || b.None? then (inFirst + inSecond, None) else
        var region := Region(node, Union(a.value.frame, b.value.frame), a.value.area + b.value.area, path);
        (inFirst + inSecond + [region], Some(region))
  }

  function Keep(regions: seq<Region>, p: Region -> bool): (r: seq<Region>)
    ensures forall region :: region in r <==> region in regions && p(region)
  {
    if regions == [] then [] else
      (if p(regions[0]) then [regions[0]] else []) + Keep(regions[1..], p)
  }

  /** Stable insertion sort. */
  function SortRegions(regions: seq<Region>, le: (Region, Region) -> bool): (r: seq<Region>)
    ensures |r| == |regions|
    ensures forall region :: region in r <==> region in regions
  {
    if regions == [] then [] else InsertRegion(regions[0], SortRegions(regions[1..], le), le)
  }

  function InsertRegion(region: Region, sorted: seq<Region>, le: (Region, Region) -> bool): (r: seq<Region>)
    ensures |r| == |sorted| + 1
    ensures forall other :: other in r <==> other == region || other in sorted
  {
    if sorted == [] || le(region, sorted[0]) then [region] + sorted
    else [sorted[0]] + InsertRegion(region, sorted[1..], le)
  }

  function FindRegion(regions: seq<Region>, p: Region -> bool): (r: Option<Region>)
    ensures r.Some? ==> r.value in regions && p(r.value)
  {
    if regions == [] then None
    else if p(regions[0]) then Some(regions[0])
    else FindRegion(regions[1..], p)
  }

  /** The region the program looks up by node; nodes below a complete root all have one. */
  function FrameOf(node: Node, regions: seq<Region>): Frame {
    var found := FindRegion(regions, (r: Region) => r.node == node);
    if found.Some? then found.value.frame else Frame(0, 0, 0, 0)
  }

  /** Last split the two paths share. */
  function CommonAncestor(a: seq<Node>, b: seq<Node>): Option<Node> {
    if a == [] || b == [] || a[0] != b[0] then None else
      var deeper := CommonAncestor(a[1..], b[1..]);
      if deeper.Some? then deeper else Some(a[0])
  }

  function SplitToward(axis: Axis, ratio: real, moved: Node, rest: Node, before: bool): Node {
    Split(axis, ratio, if before then moved else rest, if before then rest else moved)
  }

  // ---------------------------------------------------------------- the next pane in the direction

  /** Twice the distance between the centers along an axis. */
  function CenterOffset(a: Frame, b: Frame, axis: Axis): nat {
    Abs(2 * Start(a, axis) + Length(a, axis) - 2 * Start(b, axis) - Length(b, axis))
  }

  /** Facing panes come first, then near ones (squared distance orders like distance), then
      panes whose centers line up. */
  predicate NoFarther(origin: Region, dimension: Axis, a: Region, b: Region) {
    var across := Other(dimension);
    var directA := Overlap(origin.frame, a.frame, across) > 0;
    var directB := Overlap(origin.frame, b.frame, across) > 0;
    if directA != directB then directA else
      var da := Squared(IntervalGap(origin.frame, a.frame, dimension)) + Squared(IntervalGap(origin.frame, a.frame, across));
      var db := Squared(IntervalGap(origin.frame, b.frame, dimension)) + Squared(IntervalGap(origin.frame, b.frame, across));
      if da != db then da < db
      else CenterOffset(a.frame, origin.frame, across) <= CenterOffset(b.frame, origin.frame, across)
  }

  function Squared(n: int): int { n * n }

  predicate IsForward(origin: Region, candidate: Region, dimension: Axis, before: bool) {
    var sign := if before then -1 else 1;
    && candidate.node != origin.node
    && sign * (Start(candidate.frame, dimension) - Start(origin.frame, dimension)) > BORDER_TOLERANCE
    && sign * (End(candidate.frame, dimension) - End(origin.frame, dimension)) > BORDER_TOLERANCE
  }

  function ForwardTarget(origin: Region, leaves: seq<Region>, dimension: Axis, before: bool): (r: Option<Region>)
    ensures r.Some? ==> r.value in leaves && r.value.node != origin.node
  {
    var candidates := Keep(leaves, (r: Region) => IsForward(origin, r, dimension, before));
    var sorted := SortRegions(candidates, (a: Region, b: Region) => NoFarther(origin, dimension, a, b));
    if sorted == [] then None else Some(sorted[0])
  }

  // ---------------------------------------------------------------- swapping along an axis

  function IndexOf(panes: seq<Node>, node: Node): (i: int)
    ensures -1 <= i < |panes| && (i >= 0 ==> panes[i] == node)
    ensures i == -1 <==> node !in panes
  {
    if panes == [] then -1
    else if panes[0] == node then 0
    else
      var i := IndexOf(panes[1..], node);
      if i < 0 then -1 else i + 1
  }

  datatype SizedPane = SizedPane(node: Node, size: int)

  /** Refill the divider topology of a run with panes in a new order, each bringing its length. */
  function Rebuild(node: Node, axis: Axis, panes: seq<SizedPane>, gap: int): SizedPane
    requires |panes| == |Flatten(node, axis)|
  {
    if node.Split? && node.axis == axis then
      var n := |Flatten(node.first, axis)|;
      var first := Rebuild(node.first, axis, panes[..n], gap);
      var second := Rebuild(node.second, axis, panes[n..], gap);
      SizedPane(node.(ratio := RatioForLength(first.size as real, first.size + second.size),
                      first := first.node, second := second.node),
                first.size + gap + second.size)
    else panes[0]
  }

  function Sized(panes: seq<Node>, regions: seq<Region>, axis: Axis): (r: seq<SizedPane>)
    ensures |r| == |panes| && forall i :: 0 <= i < |panes| ==> r[i].node == panes[i]
  {
    if panes == [] then [] else
      [SizedPane(panes[0], Length(FrameOf(panes[0], regions), axis))] + Sized(panes[1..], regions, axis)
  }

  function SwapAlongAxis(tree: Node, ancestor: Node, origin: Region, target: Region, regions: seq<Region>,
                         dimension: Axis, gap: int): Option<Node>
  {
    var panes := Flatten(ancestor, dimension);
    var from, to := IndexOf(panes, origin.node), IndexOf(panes, target.node);
    if from < 0 || to < 0 then None else
      var ordered := panes[from := target.node][to := origin.node];
      Some(Replace(tree, ancestor, Rebuild(ancestor, dimension, Sized(ordered, regions, dimension), gap).node))
  }

  // ---------------------------------------------------------------- re-slicing a grid

  function UnionAll(regions: seq<Region>): Frame
    requires regions != []
  {
    if |regions| == 1 then regions[0].frame
    else Union(UnionAll(regions[..|regions| - 1]), regions[|regions| - 1].frame)
  }

  /** Furthest end of the first `i` regions. */
  function BorderOf(ordered: seq<Region>, i: nat, dimension: Axis): int
    requires 1 <= i <= |ordered|
  {
    if i == 1 then End(ordered[0].frame, dimension)
    else Max(BorderOf(ordered, i - 1, dimension), End(ordered[i - 1].frame, dimension))
  }

  function OrderedAlong(regions: seq<Region>, dimension: Axis): (r: seq<Region>)
    ensures |r| == |regions|
    ensures forall region :: region in r <==> region in regions
  {
    SortRegions(regions, (a: Region, b: Region) => Start(a.frame, dimension) <= Start(b.frame, dimension))
  }

  function SliceFrames(regions: seq<Region>, dimensions: seq<Axis>, gap: int): Option<Node>
    requires regions != []
    decreases |regions|, 2, |dimensions|
  {
    if |regions| == 1 then Some(regions[0].node) else SliceAlong(regions, dimensions, dimensions, gap)
  }

  function SliceAlong(regions: seq<Region>, dimensions: seq<Axis>, remaining: seq<Axis>, gap: int): Option<Node>
    requires |regions| >= 2
    decreases |regions|, 1, |remaining|
  {
    if remaining == [] then None else
      var ordered := OrderedAlong(regions, remaining[0]);
      var cut := SliceFrom(ordered, dimensions, remaining[0], UnionAll(regions), 1, gap);
      if cut.Some? then cut else SliceAlong(regions, dimensions, remaining[1..], gap)
  }

  /** The first border, from position `i` on, that no region crosses and whose sides can be sliced. */
  function SliceFrom(ordered: seq<Region>, dimensions: seq<Axis>, dimension: Axis, bounds: Frame, i: nat, gap: int)
    : Option<Node>
    requires 1 <= i <= |ordered|
    decreases |ordered|, 0, |ordered| - i
  {
    if i == |ordered| then None else
      var border := BorderOf(ordered, i, dimension);
      var rest := SliceFrom(ordered, dimensions, dimension, bounds, i + 1, gap);
      if border <= Start(ordered[i].frame, dimension) + BORDER_TOLERANCE then
        var first := SliceFrames(ordered[..i], dimensions, gap);
        var second := SliceFrames(ordered[i..], dimensions, gap);
        var ratio := RatioForLength((border - Start(bounds, dimension)) as real, Length(bounds, dimension) - gap);
        if first.Some? && second.Some? && IsValidRatio(ratio)
        then Some(Split(dimension, ratio, first.value, second.value))
        else rest
      else rest
  }

  function MoveTo(r: Region, dimension: Axis, start: int): Region {
    r.(frame := Offset(r.frame, dimension, start - Start(r.frame, dimension)))
  }

  /** Where a region should go when the two panes are swapped; only leaves below the ancestor count. */
  function DesiredOne(region: Region, ancestor: Node, first: Region, second: Region, dimension: Axis): seq<Region> {
    if region.node.Split? || ancestor !in region.path then []
    else if region == second then [MoveTo(region, dimension, Start(first.frame, dimension))]
    else if region == first then
      [MoveTo(region, dimension, Start(second.frame, dimension) + Length(second.frame, dimension)
                                 - Length(first.frame, dimension))]
    else [region]
  }

  /** The leaves below the ancestor with the two swapped panes at their new starts. */
  function Desired(regions: seq<Region>, ancestor: Node, first: Region, second: Region, dimension: Axis)
    : (r: seq<Region>)
  {
    if regions == [] then []
    else DesiredOne(regions[0], ancestor, first, second, dimension) + Desired(regions[1..], ancestor, first, second, dimension)
  }

  /** Every desired frame is what the greedy plan gives, up to rounding. */
  predicate PlanMatches(plan: Frames, desired: seq<Region>) {
    forall i :: 0 <= i < |desired| ==>
      && desired[i].node.Leaf?
      && desired[i].node.id in plan
      && WithinTolerance(plan[desired[i].node.id], desired[i].frame, BORDER_TOLERANCE)
  }

  function SwapAlignedFrames(input: MoveInput, ancestor: Node, origin: Region, target: Region,
                             regions: seq<Region>, dimension: Axis): Node
  {
    var (first, second) :=
      if Start(origin.frame, dimension) < Start(target.frame, dimension) then (origin, target) else (target, origin);
    var desired := Desired(regions, ancestor, first, second, dimension);
    if desired == [] then input.tree else
      var tree := SliceFrames(desired, [Other(dimension), dimension], input.gap);
      if tree.None? then input.tree else
        var plan := PlanLayout(LayoutInput(tree.value, UnionAll(desired), Some(input.gap), NO_BOUNDS), [GreedyPolicy]);
        if plan.Infeasible? || !PlanMatches(plan.frames, desired) then input.tree
        else Replace(input.tree, ancestor, tree.value)
  }

  // ---------------------------------------------------------------- moving towards a visible pane

  function Last(path: seq<Node>): Node
    requires path != []
  {
    path[|path| - 1]
  }

  /** The tree without the moved window; the program only asks when another window remains. */
  function Without(tree: Node, moved: WindowId): Node {
    var removed := RemoveLeaf(tree, moved);
    if removed.Some? then removed.value else tree
  }

  function MoveDirect(input: MoveInput, origin: Region, target: Region, regions: seq<Region>, dimension: Axis): Node {
    var common := CommonAncestor(origin.path, target.path);
    if common.None? || origin.path == [] || target.path == [] then input.tree else
      var ancestor, across := common.value, Other(dimension);
      var parent, targetParent := Last(origin.path), Last(target.path);
      if parent.Leaf? || targetParent.Leaf? then input.tree
      else if Close(Start(origin.frame, across), Start(target.frame, across))
              && Close(End(origin.frame, across), End(target.frame, across)) then
        var swapped := SwapAlongAxis(input.tree, ancestor, origin, target, regions, dimension, input.gap);
        if swapped.Some? then swapped.value
        else SwapAlignedFrames(input, ancestor, origin, target, regions, dimension)
      else if parent.axis != dimension then
        CarryDivider(input, origin, target, parent)
      else if targetParent.axis != dimension then
        if targetParent in origin.path then input.tree
        else TradePlaces(input, origin, target, targetParent)
      else
        var swapped := SwapAlongAxis(input.tree, ancestor, origin, target, regions, dimension, input.gap);
        if swapped.Some? then swapped.value else input.tree
  }

  /** Carry the moved pane's perpendicular divider across the T junction. */
  function CarryDivider(input: MoveInput, origin: Region, target: Region, parent: Node): Node
    requires parent.Split?
  {
    var pair := parent.(first := if parent.first == origin.node then origin.node else target.node,
                        second := if parent.second == origin.node then origin.node else target.node);
    Replace(Without(input.tree, input.moved), target.node, pair)
  }

  /** The target takes the moved pane's place; the moved pane joins the target's neighbour. */
  function TradePlaces(input: MoveInput, origin: Region, target: Region, targetParent: Node): Node
    requires targetParent.Split?
  {
    var targetFirst := targetParent.first == target.node;
    var rest := if targetFirst then targetParent.second else targetParent.first;
    var pair := targetParent.(first := if targetFirst then rest else origin.node,
                              second := if targetFirst then origin.node else rest);
    Replace(Replace(input.tree, origin.node, target.node), targetParent, pair)
  }

  function MoveDiagonal(input: MoveInput, origin: Region, target: Region, dimension: Axis): Node {
    var across := Other(dimension);
    var pair := SplitToward(across, 0.5, origin.node, target.node,
                            Start(origin.frame, across) < Start(target.frame, across));
    Replace(Without(input.tree, input.moved), target.node, pair)
  }

  // ---------------------------------------------------------------- moving along the outer edge

  function Border(frame: Frame, dimension: Axis, before: bool): int {
    if before then Start(frame, dimension) else End(frame, dimension)
  }

  function OuterBorder(regions: seq<Region>, dimension: Axis, before: bool): int
    requires regions != []
  {
    var b := Border(regions[0].frame, dimension, before);
    if |regions| == 1 then b else
      var rest := OuterBorder(regions[1..], dimension, before);
      if before then Min(b, rest) else Max(b, rest)
  }

  predicate Eligible(origin: Region, region: Region, outer: int, dimension: Axis, before: bool, groups: bool) {
    && region.node != origin.node
    && !(region.node.Split? && region.node in origin.path)
    && (groups || region.node.Leaf?)
    && Close(Border(region.frame, dimension, before), outer)
    && Overlap(origin.frame, region.frame, Other(dimension)) <= BORDER_TOLERANCE
  }

  /** `other` sits on the same side of the origin as `candidate` and nearer. */
  predicate Shadows(origin: Region, other: Region, candidate: Region, across: Axis) {
    && (Start(other.frame, across) < Start(origin.frame, across)
        <==> Start(candidate.frame, across) < Start(origin.frame, across))
    && IntervalGap(origin.frame, other.frame, across) + BORDER_TOLERANCE
       < IntervalGap(origin.frame, candidate.frame, across)
  }

  predicate SomeShadows(origin: Region, eligible: seq<Region>, candidate: Region, across: Axis) {
    exists i :: 0 <= i < |eligible| && Shadows(origin, eligible[i], candidate, across)
  }

  function EdgeCandidates(origin: Region, regions: seq<Region>, dimension: Axis, before: bool, groups: bool)
    : (r: seq<Region>)
    ensures forall c :: c in r ==> c in regions && c.node != origin.node && !(c.node.Split? && c.node in origin.path)
  {
    if regions == [] then [] else
      var outer := OuterBorder(regions, dimension, before);
      if !Close(Border(origin.frame, dimension, before), outer) then [] else
        var eligible := Keep(regions, (r: Region) => Eligible(origin, r, outer, dimension, before, groups));
        Keep(eligible, (r: Region) => !SomeShadows(origin, eligible, r, Other(dimension)))
  }

  function Extent(node: Node, axis: Axis, frames: Frames, gap: int): int {
    match node
    case Leaf(id) => if id in frames then Length(frames[id], axis) else 0
    case Split(divider, _, first, second) =>
      var a, b := Extent(first, axis, frames, gap), Extent(second, axis, frames, gap);
      if divider == axis then a + gap + b else Max(a, b)
  }

  /** Remove a window, letting the dividers it leaves behind keep the observed lengths. */
  function RemoveForEdge(node: Node, moved: WindowId, axis: Axis, frames: Frames, gap: int): Option<Node> {
    match node
    case Leaf(id) => if id == moved then None else Some(node)
    case Split(divider, ratio, first, second) =>
      var a := RemoveForEdge(first, moved, axis, frames, gap);
      var b := RemoveForEdge(second, moved, axis, frames, gap);
      if a.None? then b
      else if b.None? then a
      else if a.value == first && b.value == second then Some(node)
      else
        var ea, eb := Extent(a.value, axis, frames, gap), Extent(b.value, axis, frames, gap);
        Some(Split(divider, if divider == axis then RatioForLength(ea as real, ea + eb) else ratio, a.value, b.value))
  }

  /** Rotate the moved pane out of a pair; a stack it merely matched stays a stack. */
  function EdgePair(ancestor: Node, origin: Region, target: Region, axis: Axis, before: bool, moved: WindowId): Node
    requires ancestor.Split? && origin.path != [] && target.path != []
  {
    var parent, targetParent := Last(origin.path), Last(target.path);
    var removed := Without(ancestor, moved);
    var sourceIsChild := ancestor.first == origin.node || ancestor.second == origin.node;
    var targetIsChild := ancestor.first == target.node || ancestor.second == target.node;
    var rest :=
      if sourceIsChild && !targetIsChild && targetParent.Split? && targetParent.axis == axis
      then Replace(removed, targetParent, targetParent.(axis := Other(axis)))
      else removed;
    SplitToward(axis, if parent.Split? && parent.axis == axis then parent.ratio else ancestor.ratio,
                origin.node, rest, before)
  }

  function JoinPanes(panes: seq<SizedPane>, axis: Axis, gap: int): SizedPane
    requires panes != []
  {
    if |panes| == 1 then panes[0] else
      var right := JoinPanes(panes[1..], axis, gap);
      SizedPane(Split(axis, RatioForLength(panes[0].size as real, panes[0].size + right.size), panes[0].node, right.node),
                panes[0].size + gap + right.size)
  }

  predicate HoldsRegion(node: Node, region: Region) {
    node == region.node || (node.Split? && node in region.path)
  }

  function IndexHolding(panes: seq<Node>, region: Region): (i: int)
    ensures -1 <= i < |panes| && (i >= 0 ==> HoldsRegion(panes[i], region))
  {
    if panes == [] then -1
    else if HoldsRegion(panes[0], region) then 0
    else
      var i := IndexHolding(panes[1..], region);
      if i < 0 then -1 else i + 1
  }

  /** JavaScript's splice: a negative start counts from the end and the deleted part stops at the end. */
  function Splice(panes: seq<SizedPane>, start: int, deleted: nat, inserted: SizedPane): seq<SizedPane>
    requires -|panes| <= start <= |panes|
  {
    var from := if start < 0 then |panes| + start else start;
    var to := Min(|panes|, from + deleted);
    panes[..from] + [inserted] + panes[to..]
  }

  function PairAdjacentRegions(input: MoveInput, ancestor: Node, origin: Region, target: Region,
                               regions: seq<Region>, dimension: Axis, before: bool): Option<Node>
    requires ancestor.Split? && origin.path != [] && target.path != []
  {
    var axis := Other(dimension);
    var panes := Flatten(ancestor, axis);
    var from, to := IndexHolding(panes, origin), IndexHolding(panes, target);
    if from < 0 || to < 0 || Abs(from - to) != 1 then None else
      var at := Min(from, to);
      var sized := Sized(panes, regions, axis);
      var pair := if |panes| == 2 then ancestor
                  else Split(axis, RatioForLength(sized[at].size as real, sized[at].size + sized[at + 1].size),
                             panes[at], panes[at + 1]);
      var rotated := EdgePair(pair, origin, target, dimension, before, input.moved);
      var ordered := Splice(sized, at, 2, SizedPane(rotated, sized[at].size + input.gap + sized[at + 1].size));
      Some(Replace(input.tree, ancestor, JoinPanes(ordered, axis, input.gap).node))
  }

  /** The outermost split of the unbroken run of `axis` dividers that ends at position `i`. */
  function RunStart(path: seq<Node>, i: nat, axis: Axis): (run: Node)
    requires i < |path|
    ensures run in path
  {
    if i >= 1 && path[i - 1].Split? && path[i - 1].axis == axis then RunStart(path, i - 1, axis) else path[i]
  }

  /** The moved pane and its target are the two halves of a pair on the outer side of a run. */
  predicate RotationApplies(origin: Region, target: Region, ancestor: Node, dimension: Axis, before: bool) {
    && |origin.path| >= 2
    && Last(origin.path) == ancestor
    && ancestor.Split?
    && (ancestor.first == target.node || ancestor.second == target.node)
    && var parent := origin.path[|origin.path| - 2];
       parent.Split? && parent.axis == dimension && (if before then parent.first else parent.second) == ancestor
  }

  function RotateOuterEdge(input: MoveInput, origin: Region, target: Region, regions: seq<Region>,
                           ancestor: Node, dimension: Axis, before: bool): Option<Node>
  {
    if !RotationApplies(origin, target, ancestor, dimension, before) then None else
      var parentIndex := |origin.path| - 2;
      var parent := origin.path[parentIndex];
      var run := RunStart(origin.path, parentIndex, dimension);
      var panes := Flatten(run, dimension);
      var index := IndexOf(panes, ancestor);
      var outerIndex := index + (if before then 1 else -1);
      if !(0 <= outerIndex < |panes|) then None else
        var outerPane := panes[outerIndex];
        var at := Min(index, outerIndex);
        var sized := Sized(panes, regions, dimension);
        var outerSize := Length(FrameOf(outerPane, regions), dimension);
        var ancestorSize := Length(FrameOf(ancestor, regions), dimension);
        var ratio :=
          if |panes| == 2 then parent.ratio
          else if at < 0 then 0.0  // the program reads a size that is not there: not a number
          else RatioForLength(sized[at].size as real, outerSize + ancestorSize);
        var pair := SplitToward(dimension, ancestor.ratio, origin.node, outerPane, before);
        var rotated := SplitToward(dimension, ratio, pair, target.node, before);
        var ordered := Splice(sized, at, 2, SizedPane(rotated, outerSize + input.gap + ancestorSize));
        Some(Replace(input.tree, run, JoinPanes(ordered, dimension, input.gap).node))
  }

  function AreaDifference(a: Region, origin: Region): nat { Abs(a.area - origin.area) }

  function RankedCandidates(input: MoveInput, origin: Region, regions: seq<Region>, dimension: Axis, before: bool)
    : (r: seq<Region>)
    ensures forall c :: c in r ==> c in regions && c.node != origin.node && !(c.node.Split? && c.node in origin.path)
  {
    SortRegions(EdgeCandidates(origin, regions, dimension, before, input.groups),
                (a: Region, b: Region) => AreaDifference(a, origin) <= AreaDifference(b, origin))
  }

  /** Two neighbours match the moved pane's area equally well. */
  predicate Tied(ranked: seq<Region>, origin: Region) {
    |ranked| >= 2 && Abs(AreaDifference(ranked[1], origin) - AreaDifference(ranked[0], origin))
                     <= origin.frame.width + origin.frame.height
  }

  function MoveAtEdge(input: MoveInput, origin: Region, regions: seq<Region>, dimension: Axis, before: bool): Node {
    var ranked := RankedCandidates(input, origin, regions, dimension, before);
    if ranked == [] then input.tree
    else if Tied(ranked, origin) then
      var rest := RemoveForEdge(input.tree, input.moved, Other(dimension), input.frames, input.gap);
      if rest.None? then input.tree else SplitToward(dimension, 0.5, origin.node, rest.value, before)
    else
      var target := ranked[0];
      var common := CommonAncestor(origin.path, target.path);
      if common.None? || common.value.Leaf? || origin.path == [] || target.path == [] then input.tree else
        var ancestor := common.value;
        var rotated := RotateOuterEdge(input, origin, target, regions, ancestor, dimension, before);
        if rotated.Some? then rotated.value else
          var paired := PairAdjacentRegions(input, ancestor, origin, target, regions, dimension, before);
          if paired.Some? then paired.value
          else Replace(input.tree, ancestor, EdgePair(ancestor, origin, target, dimension, before, input.moved))
  }

  function Dimension(direction: Direction): Axis { AxisForDirection(direction) }

  /** The moved pane among the observed leaves; None when the layout is not completely visible, the
      window is not in it, or it is alone. */
  function Origin(input: MoveInput): Option<Region> {
    var (regions, root) := Visit(input.tree, [], input.frames);
    var leaves := Keep(regions, (r: Region) => r.node.Leaf?);
    var origin := FindRegion(leaves, (r: Region) => r.node == Leaf(input.moved));
    if root.None? || |leaves| < 2 then None else origin
  }

  function MoveGeometrically(input: MoveInput): Node {
    var origin := Origin(input);
    if origin.None? then input.tree else
      var regions := Visit(input.tree, [], input.frames).0;
      var leaves := Keep(regions, (r: Region) => r.node.Leaf?);
      var dimension, before := Dimension(input.direction), MovedLeafIsFirst(input.direction);
      var target := ForwardTarget(origin.value, leaves, dimension, before);
      if target.None? then MoveAtEdge(input, origin.value, regions, dimension, before)
      else if Overlap(origin.value.frame, target.value.frame, Other(dimension)) > 0 then
        MoveDirect(input, origin.value, target.value, regions, dimension)
      else MoveDiagonal(input, origin.value, target.value, dimension)
  }
}
