/** Turning a split tree into frames: the greedy solve, its exact tiling, and the fallback policies. */
module Planner {
  import opened Geometry
  import opened BspTree
  import opened Partition

  datatype PaneBounds = PaneBounds(width: AxisBounds, height: AxisBounds)

  type Resolver = WindowId -> PaneBounds

  const NO_BOUNDS: Resolver := (id: WindowId) => PaneBounds(FREE, FREE)

  type Frames = map<WindowId, Frame>

  function BoundsAlong(p: PaneBounds, axis: Axis): AxisBounds {
    if axis == Vertical then p.width else p.height
  }

  predicate FitsPane(f: Frame, p: PaneBounds) {
    Within(f.width, p.width) && Within(f.height, p.height)
  }

  /** Minimums add up along the split axis and the largest rules across it; a maximum
      survives only when both sides have one. */
  function AggregateBounds(node: Node, axis: Axis, gap: int, resolve: Resolver): AxisBounds {
    match node
    case Leaf(id) => BoundsAlong(resolve(id), axis)
    case Split(divider, _, first, second) =>
      var a := AggregateBounds(first, axis, gap, resolve);
      var b := AggregateBounds(second, axis, gap, resolve);
      var bothMax := a.max.Some? && b.max.Some?;
      if divider == axis then
        AxisBounds(
          if a.min.None? && b.min.None? then None
          else Some((if a.min.Some? then a.min.value else 0) + gap + (if b.min.Some? then b.min.value else 0)),
          if bothMax then Some(a.max.value + gap + b.max.value) else None)
      else
        AxisBounds(
          if a.min.None? then b.min else if b.min.None? then a.min else Some(Max(a.min.value, b.min.value)),
          if bothMax then Some(Min(a.max.value, b.max.value)) else None)
  }

  function Halve(node: Node, rect: Frame, gap: int, resolve: Resolver): Lengths
    requires node.Split?
  {
    PartitionLengths(Length(rect, node.axis), gap, node.ratio,
                     AggregateBounds(node.first, node.axis, gap, resolve),
                     AggregateBounds(node.second, node.axis, gap, resolve))
  }

  function FirstRect(rect: Frame, axis: Axis, first: int): Frame {
    Shrink(rect, axis, first)
  }

  function SecondRect(rect: Frame, axis: Axis, first: int, second: int, gap: int): Frame {
    Offset(Shrink(rect, axis, second), axis, first + gap)
  }

  /** The greedy plan of a tree in a rectangle, or None when some pane cannot be given a frame
      within its bounds. A repeated window id keeps its first frame. */
  function Solve(node: Node, rect: Frame, gap: int, resolve: Resolver): (frames: Option<Frames>)
    ensures frames.Some? ==> forall id :: id in frames.value <==> Has(node, id)
  {
    match node
    case Leaf(id) =>
      if FitsPane(rect, resolve(id)) && Positive(rect) then Some(map[id := rect]) else None
    case Split(axis, _, first, second) =>
      var r := Halve(node, rect, gap, resolve);
      if !r.feasible then None else
        var a := Solve(first, FirstRect(rect, axis, r.first), gap, resolve);
        if a.None? then None else
          var b := Solve(second, SecondRect(rect, axis, r.first, r.second, gap), gap, resolve);
          if b.None? then None else Some(b.value + a.value)
  }

  lemma SolveOfSplit(node: Node, rect: Frame, gap: int, resolve: Resolver)
    requires node.Split? && Solve(node, rect, gap, resolve).Some?
    ensures var r := Halve(node, rect, gap, resolve);
            var a := Solve(node.first, FirstRect(rect, node.axis, r.first), gap, resolve);
            var b := Solve(node.second, SecondRect(rect, node.axis, r.first, r.second, gap), gap, resolve);
            && r.feasible && a.Some? && b.Some? && Solve(node, rect, gap, resolve) == Some(b.value + a.value)
  {
  }

  // ---------------------------------------------------------------- the in-place solve

  /** What the in-place solve reports and leaves in the table of frames, also when it fails half way. */
  function Assign(node: Node, rect: Frame, gap: int, resolve: Resolver, table: Frames): (bool, Frames) {
    match node
    case Leaf(id) =>
      if !FitsPane(rect, resolve(id)) then (false, table)
      else if id in table then (true, table)
      else (Positive(rect), table[id := rect])
    case Split(axis, _, first, second) =>
      var r := Halve(node, rect, gap, resolve);
      if !r.feasible then (false, table) else
        var (ok, filled) := Assign(first, FirstRect(rect, axis, r.first), gap, resolve, table);
        if !ok then (false, filled)
        else Assign(second, SecondRect(rect, axis, r.first, r.second, gap), gap, resolve, filled)
  }

  class FrameTable {
    var frames: Frames

    constructor ()
      ensures frames == map[]
    {
      frames := map[];
    }

    method AssignFrames(node: Node, rect: Frame, gap: int, resolve: Resolver) returns (ok: bool)
      modifies this
      ensures (ok, frames) == Assign(node, rect, gap, resolve, old(frames))
      decreases node
    {
      match node
      case Leaf(id) =>
        if !FitsPane(rect, resolve(id)) {
          return false;
        }
        if id in frames {
          return true;
        }
        frames := frames[id := rect];
        return Positive(rect);
      case Split(axis, ratio, first, second) =>
        var r := SolvePartition(Length(rect, axis), gap, ratio,
                                AggregateBounds(first, axis, gap, resolve),
                                AggregateBounds(second, axis, gap, resolve));
        if !r.feasible {
          return false;
        }
        ok := AssignFrames(first, FirstRect(rect, axis, r.first), gap, resolve);
        if ok {
          ok := AssignFrames(second, SecondRect(rect, axis, r.first, r.second, gap), gap, resolve);
        }
    }
  }

  lemma MergeAssociates(a: Frames, b: Frames, c: Frames)
    ensures a + (b + c) == (a + b) + c
  {
  }

  /** Laying `f` under a table that may already place `id`. */
  lemma MergeOne(id: WindowId, f: Frame, table: Frames)
    ensures map[id := f] + table == if id in table then table else table[id := f]
  {
    assert map[id := f] + table == if id in table then table else table[id := f];
  }

  /** In a rectangle with area the in-place solve succeeds exactly when the greedy plan exists, and
      adds that plan to the table without touching the windows already there. */
  lemma {:induction false} AssignIsSolve(node: Node, rect: Frame, gap: int, resolve: Resolver, table: Frames)
    requires Positive(rect)
    ensures var (ok, filled) := Assign(node, rect, gap, resolve, table);
            var plan := Solve(node, rect, gap, resolve);
            && (ok <==> plan.Some?)
            && (ok ==> filled == plan.value + table)
    decreases node, 1
  {
    if node.Leaf? {
      MergeOne(node.id, rect, table);
    } else {
      var r := Halve(node, rect, gap, resolve);
      if r.feasible {
        AssignHalves(node, FirstRect(rect, node.axis, r.first),
                     SecondRect(rect, node.axis, r.first, r.second, gap), gap, resolve, table);
      }
    }
  }

  lemma {:induction false} AssignHalves(node: Node, firstRect: Frame, secondRect: Frame, gap: int,
                                        resolve: Resolver, table: Frames)
    requires node.Split? && Positive(firstRect) && Positive(secondRect)
    ensures var (ok, filled) := Assign(node.first, firstRect, gap, resolve, table);
            var a := Solve(node.first, firstRect, gap, resolve);
            var b := Solve(node.second, secondRect, gap, resolve);
            && (ok <==> a.Some?)
            && (ok ==>
                  var (ok', filled') := Assign(node.second, secondRect, gap, resolve, filled);
                  && (ok' <==> b.Some?)
                  && (ok' ==> filled' == (b.value + a.value) + table))
    decreases node, 0
  {
    AssignIsSolve(node.first, firstRect, gap, resolve, table);
    var (ok, filled) := Assign(node.first, firstRect, gap, resolve, table);
    if ok {
      AssignIsSolve(node.second, secondRect, gap, resolve, filled);
      var a := Solve(node.first, firstRect, gap, resolve);
      var b := Solve(node.second, secondRect, gap, resolve);
      if b.Some? {
        MergeAssociates(b.value, a.value, table);
      }
    }
  }

  // ---------------------------------------------------------------- bounds propagation

  lemma SplitLengths(node: Node, rect: Frame, gap: int, resolve: Resolver)
    requires node.Split? && Halve(node, rect, gap, resolve).feasible
    ensures var r := Halve(node, rect, gap, resolve);
            && r.first + gap + r.second == Length(rect, node.axis) && r.first > 0 && r.second > 0
  {
  }

  /** Bounds propagation is sound: a rectangle that a subtree can be solved in lies within the
      subtree's aggregate bounds, along and across every divider. */
  lemma {:induction false} BoundsPropagate(node: Node, rect: Frame, gap: int, resolve: Resolver, axis: Axis)
    requires Solve(node, rect, gap, resolve).Some?
    ensures Within(Length(rect, axis), AggregateBounds(node, axis, gap, resolve))
  {
    match node
    case Leaf(_) =>
    case Split(divider, _, first, second) =>
      var r := Halve(node, rect, gap, resolve);
      SplitLengths(node, rect, gap, resolve);
      var firstRect := FirstRect(rect, divider, r.first);
      var secondRect := SecondRect(rect, divider, r.first, r.second, gap);
      BoundsPropagate(first, firstRect, gap, resolve, axis);
      BoundsPropagate(second, secondRect, gap, resolve, axis);
      BoundsAdd(node, Length(rect, axis), Length(firstRect, axis), Length(secondRect, axis), gap, resolve, axis);
  }

  lemma BoundsAdd(node: Node, whole: int, a: int, b: int, gap: int, resolve: Resolver, axis: Axis)
    requires node.Split?
    requires if node.axis == axis then a + gap + b == whole && a > 0 && b > 0 else a == whole == b
    requires Within(a, AggregateBounds(node.first, axis, gap, resolve))
    requires Within(b, AggregateBounds(node.second, axis, gap, resolve))
    ensures Within(whole, AggregateBounds(node, axis, gap, resolve))
  {
  }

  // ---------------------------------------------------------------- exact tiling

  /** Whatever the gap, planned frames have area. */
  lemma {:induction false} SolvedFramePositive(node: Node, rect: Frame, gap: int, resolve: Resolver, id: WindowId)
    requires Has(node, id) && Solve(node, rect, gap, resolve).Some?
    ensures Positive(Solve(node, rect, gap, resolve).value[id])
  {
    hide Halve;
    if node.Split? {
      var r := Halve(node, rect, gap, resolve);
      if Has(node.first, id) {
        SolvedFramePositive(node.first, FirstRect(rect, node.axis, r.first), gap, resolve, id);
      } else {
        SolvedFramePositive(node.second, SecondRect(rect, node.axis, r.first, r.second, gap), gap, resolve, id);
      }
    }
  }

  /** Every window of a greedy plan has a positive frame inside the content and within its bounds. */
  lemma {:induction false} SolvedFrameFits(node: Node, rect: Frame, gap: int, resolve: Resolver, id: WindowId)
    requires gap >= 0 && Has(node, id)
    requires Solve(node, rect, gap, resolve).Some?
    ensures var f := Solve(node, rect, gap, resolve).value[id];
            Positive(f) && Inside(f, rect) && FitsPane(f, resolve(id))
  {
    match node
    case Leaf(_) =>
    case Split(axis, _, first, second) =>
      var r := Halve(node, rect, gap, resolve);
      SplitLengths(node, rect, gap, resolve);
      if Has(first, id) {
        SolvedFrameFits(first, FirstRect(rect, axis, r.first), gap, resolve, id);
      } else {
        SolvedFrameFits(second, SecondRect(rect, axis, r.first, r.second, gap), gap, resolve, id);
      }
  }

  /** Any two windows of a greedy plan are at least a gap apart. */
  lemma {:induction false} SolvedFramesSeparate(node: Node, rect: Frame, gap: int, resolve: Resolver,
                                                a: WindowId, b: WindowId)
    requires gap >= 0 && Distinct(node) && Has(node, a) && Has(node, b) && a != b
    requires Solve(node, rect, gap, resolve).Some?
    ensures var plan := Solve(node, rect, gap, resolve).value;
            Separated(plan[a], plan[b], gap)
  {
    match node
    case Leaf(_) =>
    case Split(axis, _, first, second) =>
      DistinctParts(node);
      var r := Halve(node, rect, gap, resolve);
      SplitLengths(node, rect, gap, resolve);
      var firstRect := FirstRect(rect, axis, r.first);
      var secondRect := SecondRect(rect, axis, r.first, r.second, gap);
      if Has(first, a) && Has(first, b) {
        SolvedFramesSeparate(first, firstRect, gap, resolve, a, b);
      } else if Has(second, a) && Has(second, b) {
        SolvedFramesSeparate(second, secondRect, gap, resolve, a, b);
      } else {
        var (l, r) := if Has(first, a) then (a, b) else (b, a);
        SolvedFrameFits(first, firstRect, gap, resolve, l);
        SolvedFrameFits(second, secondRect, gap, resolve, r);
      }
  }

  /** The divider strips of a plan, one per split. */
  function Strips(node: Node, rect: Frame, gap: int, resolve: Resolver): seq<Frame> {
    match node
    case Leaf(_) => []
    case Split(axis, _, first, second) =>
      var r := Halve(node, rect, gap, resolve);
      [Offset(Shrink(rect, axis, gap), axis, r.first)]
      + Strips(first, FirstRect(rect, axis, r.first), gap, resolve)
      + Strips(second, SecondRect(rect, axis, r.first, r.second, gap), gap, resolve)
  }

  function Area(f: Frame): int { f.width * f.height }

  function TotalArea(fs: seq<Frame>): int {
    if fs == [] then 0 else Area(fs[0]) + TotalArea(fs[1..])
  }

  /** How many of the frames contain the point. */
  function Hits(fs: seq<Frame>, px: int, py: int): nat {
    if fs == [] then 0 else (if ContainsPoint(fs[0], px, py) then 1 else 0) + Hits(fs[1..], px, py)
  }

  lemma {:induction false} TotalsOfConcat(a: seq<Frame>, b: seq<Frame>, px: int, py: int)
    ensures TotalArea(a + b) == TotalArea(a) + TotalArea(b)
    ensures Hits(a + b, px, py) == Hits(a, px, py) + Hits(b, px, py)
  {
    if a == [] {
      assert a + b == b;
    } else {
      TotalsOfConcat(a[1..], b, px, py);
      assert (a + b)[1..] == a[1..] + b;
    }
  }

  /** The frames a plan hands out, in leaf order. */
  function Panes(node: Node, rect: Frame, gap: int, resolve: Resolver): (r: seq<Frame>)
    ensures |r| == |Leaves(node)|
  {
    match node
    case Leaf(_) => [rect]
    case Split(axis, _, first, second) =>
      var r := Halve(node, rect, gap, resolve);
      Panes(first, FirstRect(rect, axis, r.first), gap, resolve)
      + Panes(second, SecondRect(rect, axis, r.first, r.second, gap), gap, resolve)
  }

  /** Each pane is the planned frame of the leaf at its place. */
  ghost predicate Match(leaves: seq<WindowId>, panes: seq<Frame>, plan: Frames) {
    |leaves| == |panes| && forall k :: 0 <= k < |leaves| ==> leaves[k] in plan && panes[k] == plan[leaves[k]]
  }

  lemma JoinedMatch(la: seq<WindowId>, lb: seq<WindowId>, pa: seq<Frame>, pb: seq<Frame>, a: Frames, b: Frames)
    requires Match(la, pa, a) && Match(lb, pb, b) && forall id :: id in b ==> id !in a
    ensures Match(la + lb, pa + pb, b + a)
  {
    forall k | 0 <= k < |la| + |lb| ensures (la + lb)[k] in b + a && (pa + pb)[k] == (b + a)[(la + lb)[k]] {
      if k < |la| {
        assert la[k] in a;
      } else {
        assert lb[k - |la|] in b;
      }
    }
  }

  lemma PlansApart(node: Node, a: Frames, b: Frames)
    requires node.Split? && Distinct(node)
    requires (forall id :: id in a <==> Has(node.first, id)) && (forall id :: id in b <==> Has(node.second, id))
    ensures forall id :: id in b ==> id !in a
  {
    hide Distinct, Has;
    DistinctParts(node);
  }

  lemma {:induction false} PanesMatch(node: Node, rect: Frame, gap: int, resolve: Resolver)
    requires Distinct(node) && Solve(node, rect, gap, resolve).Some?
    ensures Match(Leaves(node), Panes(node, rect, gap, resolve), Solve(node, rect, gap, resolve).value)
  {
    if node.Split? {
      hide Halve, Solve, Panes, Leaves, Bag, Distinct, Has, FirstRect, SecondRect, Match;
      var r := Halve(node, rect, gap, resolve);
      var firstRect := FirstRect(rect, node.axis, r.first);
      var secondRect := SecondRect(rect, node.axis, r.first, r.second, gap);
      DistinctParts(node);
      SolveOfSplit(node, rect, gap, resolve);
      PanesOfSplit(node, rect, gap, resolve);
      PanesMatch(node.first, firstRect, gap, resolve);
      PanesMatch(node.second, secondRect, gap, resolve);
      var a, b := Solve(node.first, firstRect, gap, resolve).value, Solve(node.second, secondRect, gap, resolve).value;
      PlansApart(node, a, b);
      JoinedMatch(Leaves(node.first), Leaves(node.second), Panes(node.first, firstRect, gap, resolve),
                  Panes(node.second, secondRect, gap, resolve), a, b);
    }
  }

  /** On distinct windows the i-th pane is the frame planned for the i-th leaf. */
  lemma PaneAt(node: Node, rect: Frame, gap: int, resolve: Resolver, i: nat)
    requires Distinct(node) && i < |Leaves(node)|
    requires Solve(node, rect, gap, resolve).Some?
    ensures Has(node, Leaves(node)[i])
    ensures Panes(node, rect, gap, resolve)[i] == Solve(node, rect, gap, resolve).value[Leaves(node)[i]]
  {
    hide Solve, Panes, Leaves, Distinct, Has;
    PanesMatch(node, rect, gap, resolve);
  }

  lemma PanesOfSplit(node: Node, rect: Frame, gap: int, resolve: Resolver)
    requires node.Split?
    ensures var r := Halve(node, rect, gap, resolve);
            && Leaves(node) == Leaves(node.first) + Leaves(node.second)
            && Panes(node, rect, gap, resolve)
               == Panes(node.first, FirstRect(rect, node.axis, r.first), gap, resolve)
                + Panes(node.second, SecondRect(rect, node.axis, r.first, r.second, gap), gap, resolve)
  {
    hide Halve;
  }

  /** A greedy plan tiles its rectangle exactly. Every point of the rectangle lies in exactly one
      window frame or divider strip and no other point in any; the areas add up to the whole. */
  lemma {:induction false} SolvedTilesExactly(node: Node, rect: Frame, gap: int, resolve: Resolver, px: int, py: int)
    requires gap >= 0 && Solve(node, rect, gap, resolve).Some?
    ensures Hits(Panes(node, rect, gap, resolve), px, py) + Hits(Strips(node, rect, gap, resolve), px, py)
            == if ContainsPoint(rect, px, py) then 1 else 0
    ensures TotalArea(Panes(node, rect, gap, resolve)) + TotalArea(Strips(node, rect, gap, resolve))
            == Area(rect)
  {
    match node
    case Leaf(id) =>
    case Split(axis, _, first, second) =>
      var r := Halve(node, rect, gap, resolve);
      SplitLengths(node, rect, gap, resolve);
      var firstRect := FirstRect(rect, axis, r.first);
      var secondRect := SecondRect(rect, axis, r.first, r.second, gap);
      SolvedTilesExactly(first, firstRect, gap, resolve, px, py);
      SolvedTilesExactly(second, secondRect, gap, resolve, px, py);
      var strip := Offset(Shrink(rect, axis, gap), axis, r.first);
      var sa, sb := Strips(first, firstRect, gap, resolve), Strips(second, secondRect, gap, resolve);
      TotalsOfConcat(Panes(first, firstRect, gap, resolve), Panes(second, secondRect, gap, resolve), px, py);
      StripTotals(strip, sa, sb, px, py);
      assert Strips(node, rect, gap, resolve) == [strip] + sa + sb;
      HalvesAndStrip(rect, axis, r.first, gap, r.second, px, py);
  }

  lemma StripTotals(strip: Frame, a: seq<Frame>, b: seq<Frame>, px: int, py: int)
    ensures TotalArea([strip] + a + b) == Area(strip) + TotalArea(a) + TotalArea(b)
    ensures Hits([strip] + a + b, px, py)
            == (if ContainsPoint(strip, px, py) then 1 else 0) + Hits(a, px, py) + Hits(b, px, py)
  {
    TotalsOfConcat([strip] + a, b, px, py);
    TotalsOfConcat([strip], a, px, py);
  }

  lemma HalvesAndStrip(rect: Frame, axis: Axis, first: int, gap: int, second: int, px: int, py: int)
    requires first + gap + second == Length(rect, axis) && first > 0 && second > 0 && gap >= 0
    ensures var strip := Offset(Shrink(rect, axis, gap), axis, first);
            && Area(FirstRect(rect, axis, first)) + Area(strip) + Area(SecondRect(rect, axis, first, second, gap))
               == Area(rect)
            && (if ContainsPoint(FirstRect(rect, axis, first), px, py) then 1 else 0)
             + (if ContainsPoint(strip, px, py) then 1 else 0)
             + (if ContainsPoint(SecondRect(rect, axis, first, second, gap), px, py) then 1 else 0)
               == if ContainsPoint(rect, px, py) then 1 else 0
  {
    if axis == Vertical {
      assert (first + gap + second) * rect.height == first * rect.height + gap * rect.height + second * rect.height;
    } else {
      assert rect.width * (first + gap + second) == rect.width * first + rect.width * gap + rect.width * second;
    }
  }
}
