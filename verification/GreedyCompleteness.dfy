/** When the greedy solve finds a tiling at all: the sizes a tree can be tiled in, and which of them it misses. */
module GreedyCompleteness {
  import opened Geometry
  import opened BspTree
  import opened Partition
  import opened Planner

  // ---------------------------------------------------------------- every tiling there is

  /** Some places of all the dividers give every pane a positive frame within its bounds. */
  ghost predicate Tileable(node: Node, rect: Frame, gap: int, resolve: Resolver)
    decreases node
  {
    match node
    case Leaf(id) => FitsPane(rect, resolve(id)) && Positive(rect)
    case Split(axis, _, first, second) =>
      exists f: int ::
        && 0 < f < Length(rect, axis) - gap
        && Tileable(first, FirstRect(rect, axis, f), gap, resolve)
        && Tileable(second, SecondRect(rect, axis, f, Length(rect, axis) - gap - f, gap), gap, resolve)
  }

  /** The lengths a tree can take along an axis: like the aggregated bounds, but a pane takes at least one point, and
      a maximum of either side holds across the split. */
  function Exact(node: Node, axis: Axis, gap: int, resolve: Resolver): (r: AxisBounds)
    ensures r.min.Some? && (gap >= 0 ==> r.min.value >= 1)
  {
    match node
    case Leaf(id) =>
      var b := BoundsAlong(resolve(id), axis);
      AxisBounds(Some(if b.min.None? then 1 else Max(1, b.min.value)), b.max)
    case Split(divider, _, first, second) =>
      var a := Exact(first, axis, gap, resolve);
      var b := Exact(second, axis, gap, resolve);
      if divider == axis then
        AxisBounds(Some(a.min.value + gap + b.min.value),
                   if a.max.Some? && b.max.Some? then Some(a.max.value + gap + b.max.value) else None)
      else
        AxisBounds(Some(Max(a.min.value, b.min.value)),
                   if a.max.None? then b.max else if b.max.None? then a.max else Some(Min(a.max.value, b.max.value)))
  }

  /** No part of the tree contradicts itself. */
  predicate Roomy(node: Node, gap: int, resolve: Resolver) {
    && Ordered(Exact(node, Vertical, gap, resolve)) && Ordered(Exact(node, Horizontal, gap, resolve))
    && (node.Split? ==> Roomy(node.first, gap, resolve) && Roomy(node.second, gap, resolve))
  }

  predicate Sized(node: Node, rect: Frame, gap: int, resolve: Resolver) {
    && Within(rect.width, Exact(node, Vertical, gap, resolve))
    && Within(rect.height, Exact(node, Horizontal, gap, resolve))
  }

  /** A divider that suits both sides, where their sum suits. */
  function Divider(space: int, a: AxisBounds, b: AxisBounds): (f: int)
    requires Ordered(a) && Ordered(b) && a.min.Some? && b.min.Some?
    requires space >= a.min.value + b.min.value && (a.max.Some? && b.max.Some? ==> space <= a.max.value + b.max.value)
    ensures Within(f, a) && Within(space - f, b) && f >= a.min.value && space - f >= b.min.value
  {
    if b.max.Some? && space - b.max.value > a.min.value then space - b.max.value else a.min.value
  }

  /** The two sides of a split, sized by its divider. */
  lemma SizedParts(node: Node, rect: Frame, gap: int, resolve: Resolver, f: int)
    requires node.Split?
    requires Within(f, Exact(node.first, node.axis, gap, resolve))
    requires Within(Length(rect, node.axis) - gap - f, Exact(node.second, node.axis, gap, resolve))
    ensures Sized(node, rect, gap, resolve) <==>
            && Sized(node.first, FirstRect(rect, node.axis, f), gap, resolve)
            && Sized(node.second, SecondRect(rect, node.axis, f, Length(rect, node.axis) - gap - f, gap), gap, resolve)
  {
  }

  /** A tree can be tiled in a rectangle if and only if nothing in it contradicts itself and the rectangle is within
      its exact bounds on both axes. */
  lemma {:induction false} TileableIff(node: Node, rect: Frame, gap: int, resolve: Resolver)
    requires gap >= 0
    ensures Tileable(node, rect, gap, resolve) <==> Roomy(node, gap, resolve) && Sized(node, rect, gap, resolve)
    decreases node
  {
    if node.Split? {
      TiledIsSized(node, rect, gap, resolve);
      SizedIsTiled(node, rect, gap, resolve);
    }
  }

  lemma AlongParts(node: Node, rect: Frame, gap: int, resolve: Resolver, f: int)
    requires node.Split? && Sized(node.first, FirstRect(rect, node.axis, f), gap, resolve)
    requires Sized(node.second, SecondRect(rect, node.axis, f, Length(rect, node.axis) - gap - f, gap), gap, resolve)
    ensures Within(f, Exact(node.first, node.axis, gap, resolve))
    ensures Within(Length(rect, node.axis) - gap - f, Exact(node.second, node.axis, gap, resolve))
  {
    hide Exact;
  }

  lemma SizedIsOrdered(node: Node, rect: Frame, gap: int, resolve: Resolver)
    requires Sized(node, rect, gap, resolve)
    ensures Ordered(Exact(node, Vertical, gap, resolve)) && Ordered(Exact(node, Horizontal, gap, resolve))
  {
    hide Exact;
  }

  lemma {:induction false} TiledIsSized(node: Node, rect: Frame, gap: int, resolve: Resolver)
    requires gap >= 0 && node.Split?
    ensures Tileable(node, rect, gap, resolve) ==> Roomy(node, gap, resolve) && Sized(node, rect, gap, resolve)
    decreases node, 0
  {
    hide Exact, Sized;
    var space := Length(rect, node.axis) - gap;
    if Tileable(node, rect, gap, resolve) {
      var f :| 0 < f < space && Tileable(node.first, FirstRect(rect, node.axis, f), gap, resolve)
               && Tileable(node.second, SecondRect(rect, node.axis, f, space - f, gap), gap, resolve);
      TileableIff(node.first, FirstRect(rect, node.axis, f), gap, resolve);
      TileableIff(node.second, SecondRect(rect, node.axis, f, space - f, gap), gap, resolve);
      AlongParts(node, rect, gap, resolve, f);
      SizedParts(node, rect, gap, resolve, f);
      SizedIsOrdered(node, rect, gap, resolve);
    }
  }

  lemma FittingDivider(node: Node, rect: Frame, gap: int, resolve: Resolver) returns (f: int)
    requires gap >= 0 && node.Split? && Roomy(node, gap, resolve) && Sized(node, rect, gap, resolve)
    ensures 0 < f < Length(rect, node.axis) - gap
    ensures Within(f, Exact(node.first, node.axis, gap, resolve))
    ensures Within(Length(rect, node.axis) - gap - f, Exact(node.second, node.axis, gap, resolve))
  {
    hide Exact, Sized, Roomy;
    RoomyParts(node, gap, resolve);
    RoomyIsOrdered(node.first, node.axis, gap, resolve);
    RoomyIsOrdered(node.second, node.axis, gap, resolve);
    SpaceSuffices(node, rect, gap, resolve);
    f := Divider(Length(rect, node.axis) - gap, Exact(node.first, node.axis, gap, resolve),
                 Exact(node.second, node.axis, gap, resolve));
  }

  lemma {:induction false} SizedIsTiled(node: Node, rect: Frame, gap: int, resolve: Resolver)
    requires gap >= 0 && node.Split?
    ensures Roomy(node, gap, resolve) && Sized(node, rect, gap, resolve) ==> Tileable(node, rect, gap, resolve)
    decreases node, 0
  {
    hide Tileable, Exact, Sized, Roomy, Within;
    if Roomy(node, gap, resolve) && Sized(node, rect, gap, resolve) {
      var f := FittingDivider(node, rect, gap, resolve);
      RoomyParts(node, gap, resolve);
      SizedParts(node, rect, gap, resolve, f);
      TileableIff(node.first, FirstRect(rect, node.axis, f), gap, resolve);
      TileableIff(node.second, SecondRect(rect, node.axis, f, Length(rect, node.axis) - gap - f, gap), gap, resolve);
      DividedIsTileable(node, rect, gap, resolve, f);
    }
  }

  lemma RoomyIsOrdered(node: Node, axis: Axis, gap: int, resolve: Resolver)
    requires Roomy(node, gap, resolve)
    ensures Ordered(Exact(node, axis, gap, resolve))
  {
    hide Exact;
  }

  lemma SpaceSuffices(node: Node, rect: Frame, gap: int, resolve: Resolver)
    requires node.Split? && Sized(node, rect, gap, resolve)
    ensures var space := Length(rect, node.axis) - gap;
            var a, b := Exact(node.first, node.axis, gap, resolve), Exact(node.second, node.axis, gap, resolve);
            space >= a.min.value + b.min.value && (a.max.Some? && b.max.Some? ==> space <= a.max.value + b.max.value)
  {
  }

  lemma DividedIsTileable(node: Node, rect: Frame, gap: int, resolve: Resolver, f: int)
    requires node.Split? && 0 < f < Length(rect, node.axis) - gap
    requires Tileable(node.first, FirstRect(rect, node.axis, f), gap, resolve)
    requires Tileable(node.second, SecondRect(rect, node.axis, f, Length(rect, node.axis) - gap - f, gap), gap, resolve)
    ensures Tileable(node, rect, gap, resolve)
  {
  }

  // ---------------------------------------------------------------- the tilings the greedy solve finds

  /** Going down the tree, every divider the solve chooses leaves both sides a length they can take. */
  predicate KeepsRoom(node: Node, rect: Frame, gap: int, resolve: Resolver)
    decreases node
  {
    node.Split? ==>
      var r := Halve(node, rect, gap, resolve);
      && Within(r.first, Exact(node.first, node.axis, gap, resolve))
      && Within(r.second, Exact(node.second, node.axis, gap, resolve))
      && KeepsRoom(node.first, FirstRect(rect, node.axis, r.first), gap, resolve)
      && KeepsRoom(node.second, SecondRect(rect, node.axis, r.first, r.second, gap), gap, resolve)
  }

  /** The aggregated bounds allow whatever the exact ones do. */
  lemma {:induction false} ExactIsAggregated(node: Node, axis: Axis, gap: int, resolve: Resolver)
    requires gap >= 0
    ensures var a, e := AggregateBounds(node, axis, gap, resolve), Exact(node, axis, gap, resolve);
            && (a.min.Some? ==> a.min.value <= e.min.value)
            && (a.max.Some? ==> e.max.Some? && e.max.value <= a.max.value)
            && forall v :: Within(v, e) ==> Within(v, a)
    decreases node
  {
    if node.Split? {
      ExactIsAggregated(node.first, axis, gap, resolve);
      ExactIsAggregated(node.second, axis, gap, resolve);
    }
  }

  lemma KeptIsFeasible(node: Node, rect: Frame, gap: int, resolve: Resolver)
    requires gap >= 0 && node.Split?
    requires var r := Halve(node, rect, gap, resolve);
             && Within(r.first, Exact(node.first, node.axis, gap, resolve))
             && Within(r.second, Exact(node.second, node.axis, gap, resolve))
    ensures var r := Halve(node, rect, gap, resolve);
            && r.feasible && r.first > 0 && r.second == Length(rect, node.axis) - gap - r.first > 0
  {
    hide Exact, AggregateBounds, Balance, Preferred;
    ExactIsAggregated(node.first, node.axis, gap, resolve);
    ExactIsAggregated(node.second, node.axis, gap, resolve);
  }

  lemma FeasibleFills(node: Node, rect: Frame, gap: int, resolve: Resolver)
    requires node.Split? && Halve(node, rect, gap, resolve).feasible
    ensures var r := Halve(node, rect, gap, resolve);
            r.first > 0 && r.second == Length(rect, node.axis) - gap - r.first > 0
  {
    hide AggregateBounds, Balance, Preferred;
  }

  lemma SolvedParts(node: Node, rect: Frame, gap: int, resolve: Resolver)
    requires node.Split?
    ensures var r := Halve(node, rect, gap, resolve);
            Solve(node, rect, gap, resolve).Some? <==>
            && r.feasible
            && Solve(node.first, FirstRect(rect, node.axis, r.first), gap, resolve).Some?
            && Solve(node.second, SecondRect(rect, node.axis, r.first, r.second, gap), gap, resolve).Some?
  {
    hide Halve;
  }

  /** The solve found a tiling of both sides: it is one of the whole. */
  lemma FoundIsTiled(node: Node, rect: Frame, gap: int, resolve: Resolver)
    requires gap >= 0 && node.Split? && Halve(node, rect, gap, resolve).feasible
    requires var r := Halve(node, rect, gap, resolve);
             && Tileable(node.first, FirstRect(rect, node.axis, r.first), gap, resolve)
             && Tileable(node.second, SecondRect(rect, node.axis, r.first, r.second, gap), gap, resolve)
    ensures var r := Halve(node, rect, gap, resolve);
            && Tileable(node, rect, gap, resolve)
            && Within(r.first, Exact(node.first, node.axis, gap, resolve))
            && Within(r.second, Exact(node.second, node.axis, gap, resolve))
  {
    hide Tileable, Exact, Halve, Sized, Roomy, Within;
    var r := Halve(node, rect, gap, resolve);
    FeasibleFills(node, rect, gap, resolve);
    TileableIff(node.first, FirstRect(rect, node.axis, r.first), gap, resolve);
    TileableIff(node.second, SecondRect(rect, node.axis, r.first, r.second, gap), gap, resolve);
    AlongParts(node, rect, gap, resolve, r.first);
    DividedIsTileable(node, rect, gap, resolve, r.first);
  }

  /** Lengths both sides can take leave them tileable, where the whole is. */
  lemma KeptIsTiled(node: Node, rect: Frame, gap: int, resolve: Resolver)
    requires gap >= 0 && node.Split? && Tileable(node, rect, gap, resolve)
    requires var r := Halve(node, rect, gap, resolve);
             && Within(r.first, Exact(node.first, node.axis, gap, resolve))
             && Within(r.second, Exact(node.second, node.axis, gap, resolve))
    ensures var r := Halve(node, rect, gap, resolve);
            && r.feasible
            && Tileable(node.first, FirstRect(rect, node.axis, r.first), gap, resolve)
            && Tileable(node.second, SecondRect(rect, node.axis, r.first, r.second, gap), gap, resolve)
  {
    hide Tileable, Exact, Halve, Sized, Roomy, Within;
    var r := Halve(node, rect, gap, resolve);
    KeptIsFeasible(node, rect, gap, resolve);
    TileableIff(node, rect, gap, resolve);
    RoomyParts(node, gap, resolve);
    SizedParts(node, rect, gap, resolve, r.first);
    TileableIff(node.first, FirstRect(rect, node.axis, r.first), gap, resolve);
    TileableIff(node.second, SecondRect(rect, node.axis, r.first, r.second, gap), gap, resolve);
  }

  lemma KeepsRoomOfSplit(node: Node, rect: Frame, gap: int, resolve: Resolver)
    requires node.Split?
    ensures var r := Halve(node, rect, gap, resolve);
            KeepsRoom(node, rect, gap, resolve) <==>
            && Within(r.first, Exact(node.first, node.axis, gap, resolve))
            && Within(r.second, Exact(node.second, node.axis, gap, resolve))
            && KeepsRoom(node.first, FirstRect(rect, node.axis, r.first), gap, resolve)
            && KeepsRoom(node.second, SecondRect(rect, node.axis, r.first, r.second, gap), gap, resolve)
  {
    hide Halve, Exact, Within;
  }

  /** The greedy solve finds a tiling exactly when there is one and, on its way down the tree, no divider it chooses
      leaves a side a length that side cannot take. */
  lemma {:induction false} GreedyFindsIff(node: Node, rect: Frame, gap: int, resolve: Resolver)
    requires gap >= 0
    ensures Solve(node, rect, gap, resolve).Some? <==> Tileable(node, rect, gap, resolve) && KeepsRoom(node, rect, gap, resolve)
    decreases node
  {
    if node.Split? {
      hide Solve, Tileable, KeepsRoom, Exact, Halve, Within;
      var r := Halve(node, rect, gap, resolve);
      SolvedParts(node, rect, gap, resolve);
      KeepsRoomOfSplit(node, rect, gap, resolve);
      GreedyFindsIff(node.first, FirstRect(rect, node.axis, r.first), gap, resolve);
      GreedyFindsIff(node.second, SecondRect(rect, node.axis, r.first, r.second, gap), gap, resolve);
      if Solve(node, rect, gap, resolve).Some? {
        FoundIsTiled(node, rect, gap, resolve);
      } else if Tileable(node, rect, gap, resolve) && KeepsRoom(node, rect, gap, resolve) {
        KeptIsTiled(node, rect, gap, resolve);
        assert false;
      }
    }
  }

  lemma RoomyParts(node: Node, gap: int, resolve: Resolver)
    requires node.Split? && Roomy(node, gap, resolve)
    ensures Roomy(node.first, gap, resolve) && Roomy(node.second, gap, resolve)
  {
    hide Exact;
  }

  // ---------------------------------------------------------------- where it misses none

  /** Every window has a positive minimum on both axes, and across every split either both sides have a maximum or
      neither has. */
  predicate Even(node: Node, gap: int, resolve: Resolver) {
    match node
    case Leaf(id) =>
      var w, h := resolve(id).width.min, resolve(id).height.min;
      w.Some? && w.value >= 1 && h.Some? && h.value >= 1
    case Split(axis, _, first, second) =>
      && Even(first, gap, resolve) && Even(second, gap, resolve)
      && (AggregateBounds(first, Other(axis), gap, resolve).max.Some?
          <==> AggregateBounds(second, Other(axis), gap, resolve).max.Some?)
  }

  lemma {:induction false} EvenIsExact(node: Node, axis: Axis, gap: int, resolve: Resolver)
    requires Even(node, gap, resolve)
    ensures AggregateBounds(node, axis, gap, resolve) == Exact(node, axis, gap, resolve)
    decreases node
  {
    if node.Split? {
      EvenIsExact(node.first, axis, gap, resolve);
      EvenIsExact(node.second, axis, gap, resolve);
    }
  }

  /** With bounds as they are, the two-pane solve leaves both sides a length they can take whenever there is one. */
  lemma DividerExists(available: int, gap: int, ratio: real, a: AxisBounds, b: AxisBounds, f: int)
    requires f > 0 && available - gap - f > 0 && Within(f, a) && Within(available - gap - f, b)
    ensures var r := PartitionLengths(available, gap, ratio, a, b); Within(r.first, a) && Within(r.second, b)
  {
    hide PartitionLengths;
    PartitionIsNearestAdmissible(available, gap, ratio, a, b);
    MeetOrdered(available - gap, a, b, f);
  }

  /** There the greedy solve is complete: it finds a tiling if and only if there is one. */
  lemma {:induction false} GreedyIsComplete(node: Node, rect: Frame, gap: int, resolve: Resolver)
    requires gap >= 0 && Even(node, gap, resolve)
    ensures Solve(node, rect, gap, resolve).Some? <==> Tileable(node, rect, gap, resolve)
    decreases node
  {
    hide Solve;
    GreedyFindsIff(node, rect, gap, resolve);
    if Tileable(node, rect, gap, resolve) {
      TiledKeepsRoom(node, rect, gap, resolve);
    }
  }

  lemma {:induction false} TiledKeepsRoom(node: Node, rect: Frame, gap: int, resolve: Resolver)
    requires gap >= 0 && Even(node, gap, resolve) && Tileable(node, rect, gap, resolve)
    ensures KeepsRoom(node, rect, gap, resolve)
    decreases node
  {
    if node.Split? {
      var space := Length(rect, node.axis) - gap;
      var f :| 0 < f < space && Tileable(node.first, FirstRect(rect, node.axis, f), gap, resolve)
               && Tileable(node.second, SecondRect(rect, node.axis, f, space - f, gap), gap, resolve);
      hide Tileable, Exact, AggregateBounds, Sized, Roomy, PartitionLengths;
      TileableIff(node.first, FirstRect(rect, node.axis, f), gap, resolve);
      TileableIff(node.second, SecondRect(rect, node.axis, f, space - f, gap), gap, resolve);
      AlongParts(node, rect, gap, resolve, f);
      EvenIsExact(node.first, node.axis, gap, resolve);
      EvenIsExact(node.second, node.axis, gap, resolve);
      DividerExists(Length(rect, node.axis), gap, node.ratio, AggregateBounds(node.first, node.axis, gap, resolve),
                    AggregateBounds(node.second, node.axis, gap, resolve), f);
      var r := Halve(node, rect, gap, resolve);
      KeptIsTiled(node, rect, gap, resolve);
      TiledKeepsRoom(node.first, FirstRect(rect, node.axis, r.first), gap, resolve);
      TiledKeepsRoom(node.second, SecondRect(rect, node.axis, r.first, r.second, gap), gap, resolve);
    }
  }

  // ---------------------------------------------------------------- a tiling it misses

  /** One of two stacked windows can be at most 100 wide; beside them a third. */
  const NARROW: Resolver := (id: WindowId) => PaneBounds(AxisBounds(Some(1), if id == "a" then Some(100) else None),
                                                         AxisBounds(Some(1), None))
  const STACKED := Split(Horizontal, 0.5, Leaf("a"), Leaf("b"))
  const BESIDE := Split(Vertical, 0.5, STACKED, Leaf("c"))
  const ROOM := Frame(0, 0, 1000, 800)

  /** The maximum of one of the stacked windows is dropped for the stack, which gets half the width: no plan, although
      a stack of width 100 leaves room for all. */
  lemma DroppedMaximumMissesATiling()
    ensures Solve(BESIDE, ROOM, 0, NARROW).None? && Tileable(BESIDE, ROOM, 0, NARROW)
    ensures Tileable(STACKED, FirstRect(ROOM, Vertical, 100), 0, NARROW)
  {
    hide Solve, Tileable;
    assert Exact(STACKED, Vertical, 0, NARROW) == AxisBounds(Some(1), Some(100));
    assert Exact(STACKED, Horizontal, 0, NARROW) == AxisBounds(Some(2), None);
    assert Exact(BESIDE, Vertical, 0, NARROW) == AxisBounds(Some(2), None);
    assert Exact(BESIDE, Horizontal, 0, NARROW) == AxisBounds(Some(2), None);
    assert AggregateBounds(STACKED, Vertical, 0, NARROW) == AxisBounds(Some(1), None);
    TileableIff(BESIDE, ROOM, 0, NARROW);
    TileableIff(STACKED, FirstRect(ROOM, Vertical, 100), 0, NARROW);
    AdmissiblePreferenceIsKept(1000, 0, 0.5, AxisBounds(Some(1), None), AxisBounds(Some(1), None), 500, 500);
    assert Halve(BESIDE, ROOM, 0, NARROW).first == 500;
    GreedyFindsIff(BESIDE, ROOM, 0, NARROW);
  }
}
