/** The last policy of the chain: panes may leave the content, but they exist whenever the windows' own bounds do, and
    they keep their distance. */
module OverflowLaws {
  import opened Geometry
  import opened BspTree
  import opened Partition
  import opened Planner
  import opened Policies
  import opened RunBounds

  // ---------------------------------------------------------------- when there is a plan

  predicate PositiveMax(bounds: AxisBounds) {
    bounds.max.Some? ==> bounds.max.value > 0
  }

  /** A window that says how long it must at least be. */
  predicate SizedAtLeast(bounds: AxisBounds) {
    bounds.min.Some? && bounds.min.value > 0
  }

  lemma SomethingIsLeft(first: int, space: int, a: AxisBounds, b: AxisBounds, rounds: nat)
    requires SizedAtLeast(a) && SizedAtLeast(b) && PositiveMax(a) && PositiveMax(b) && rounds >= 1
    requires space >= a.min.value + b.min.value
    ensures space - Clamp(Settle(first, space, a, b, rounds), a) > 0
    decreases rounds
  {
    var f := Clamp(first, a);
    var clamped := Clamp(space - f, b);
    if clamped != space - f && rounds > 1 {
      SomethingIsLeft(space - clamped, space, a, b, rounds - 1);
    } else if clamped != space - f {
      assert Settle(space - clamped, space, a, b, 0) == space - clamped;
    }
  }

  /** Two minimums that fit leave both sides something. */
  lemma BothSidesGetSomething(available: int, gap: int, ratio: real, a: AxisBounds, b: AxisBounds)
    requires SizedAtLeast(a) && SizedAtLeast(b) && PositiveMax(a) && PositiveMax(b)
    requires available - gap >= a.min.value + b.min.value
    ensures var r := PartitionLengths(available, gap, ratio, a, b); r.first > 0 && r.second > 0
  {
    hide Settle, Preferred;
    SomethingIsLeft(Preferred(available - gap, ratio), available - gap, a, b, ROUNDS);
  }

  /** Every window of the tree says how large it must at least be, and allows as much. */
  ghost predicate WellSized(node: Node, resolve: Resolver) {
    forall id :: Has(node, id) ==>
      && SizedAtLeast(resolve(id).width) && Ordered(resolve(id).width)
      && SizedAtLeast(resolve(id).height) && Ordered(resolve(id).height)
  }

  lemma {:induction false} WellSizedTogether(node: Node, axis: Axis, gap: int, resolve: Resolver)
    requires gap >= 0 && WellSized(node, resolve)
    ensures SizedAtLeast(AggregateBounds(node, axis, gap, resolve)) && PositiveMax(AggregateBounds(node, axis, gap, resolve))
  {
    if node.Leaf? {
      assert Has(node, node.id);
    } else {
      HasInParts(node);
      WellSizedTogether(node.first, axis, gap, resolve);
      WellSizedTogether(node.second, axis, gap, resolve);
      BoundsOfSplit(node, axis, gap, resolve);
      hide AggregateBounds;
    }
  }

  lemma {:induction false} WellSizedOverflows(node: Node, rect: Frame, gap: int, resolve: Resolver, table: Frames)
    requires gap >= 0 && WellSized(node, resolve)
    ensures Overflow(node, rect, gap, resolve, table).0
  {
    if node.Leaf? {
      assert Has(node, node.id);
    } else {
      HasInParts(node);
      WellSizedDivides(node, rect, gap, resolve);
      var expanded := Grow(rect, node, gap, resolve);
      var r := Halve(node, expanded, gap, resolve);
      var firstRect := FirstRect(expanded, node.axis, r.first);
      var secondRect := SecondRect(expanded, node.axis, r.first, r.second, gap);
      hide Halve, Grow, WellSized, Has;
      WellSizedParts(node, resolve);
      WellSizedOverflows(node.first, firstRect, gap, resolve, table);
      WellSizedOverflows(node.second, secondRect, gap, resolve, Overflow(node.first, firstRect, gap, resolve, table).1);
    }
  }

  lemma WellSizedParts(node: Node, resolve: Resolver)
    requires node.Split? && WellSized(node, resolve)
    ensures WellSized(node.first, resolve) && WellSized(node.second, resolve)
  {
    HasInParts(node);
  }

  lemma WellSizedDivides(node: Node, rect: Frame, gap: int, resolve: Resolver)
    requires gap >= 0 && node.Split? && WellSized(node, resolve)
    ensures var r := Halve(node, Grow(rect, node, gap, resolve), gap, resolve); r.first > 0 && r.second > 0
  {
    WellSizedParts(node, resolve);
    WellSizedTogether(node.first, node.axis, gap, resolve);
    WellSizedTogether(node.second, node.axis, gap, resolve);
    BoundsOfSplit(node, node.axis, gap, resolve);
    hide AggregateBounds, PartitionLengths, WellSized;
    BothSidesGetSomething(Length(Grow(rect, node, gap, resolve), node.axis), gap, node.ratio,
                          AggregateBounds(node.first, node.axis, gap, resolve),
                          AggregateBounds(node.second, node.axis, gap, resolve));
  }

  /** For windows that all have positive minimums the overflow policy has a plan, however small the content is, exactly
      when no window's bounds contradict themselves. */
  lemma OverflowExistsIff(input: LayoutInput)
    requires input.Gap() >= 0
    requires forall id :: Has(input.tree, id) ==>
               SizedAtLeast(input.resolve(id).width) && SizedAtLeast(input.resolve(id).height)
    ensures PolicyPlan(OverflowPolicy, input).Some?
            <==> forall id :: Has(input.tree, id) ==> Ordered(input.resolve(id).width) && Ordered(input.resolve(id).height)
  {
    hide Overflow, Has;
    if PolicyPlan(OverflowPolicy, input).Some? {
      forall id | Has(input.tree, id) ensures Ordered(input.resolve(id).width) && Ordered(input.resolve(id).height) {
        OverflowFits(input.tree, input.content, input.Gap(), input.resolve, map[], id);
      }
    } else if WellSized(input.tree, input.resolve) {
      WellSizedOverflows(input.tree, input.content, input.Gap(), input.resolve, map[]);
      assert false;
    }
  }

  // ---------------------------------------------------------------- panes keep their distance

  /** At no divider do the windows of one side contradict each other along it. */
  predicate Orderly(node: Node, gap: int, resolve: Resolver) {
    node.Split? ==>
      && Ordered(AggregateBounds(node.first, node.axis, gap, resolve))
      && Ordered(AggregateBounds(node.second, node.axis, gap, resolve))
      && Orderly(node.first, gap, resolve) && Orderly(node.second, gap, resolve)
  }

  /** A divider gives both sides their minimums where there is room for them, even if maximums leave too much. */
  lemma DividerGivesMinimums(available: int, gap: int, ratio: real, a: AxisBounds, b: AxisBounds)
    requires Ordered(a) && Ordered(b) && available - gap >= Least(a) + Least(b)
    requires var r := PartitionLengths(available, gap, ratio, a, b); r.first > 0 && r.second > 0
    ensures var r := PartitionLengths(available, gap, ratio, a, b);
            r.first + gap + r.second == available && r.first >= Least(a) && r.second >= Least(b)
  {
    hide Settle, Preferred;
    PartitionIsNearestAdmissible(available, gap, ratio, a, b);
    var r := PartitionLengths(available, gap, ratio, a, b);
    assert Within(r.first, a);
  }

  function Reach(node: Node, rect: Frame, axis: Axis, gap: int, resolve: Resolver): int {
    Max(Length(rect, axis), Least(AggregateBounds(node, axis, gap, resolve)))
  }

  lemma {:induction false} OverflowKeeps(node: Node, rect: Frame, gap: int, resolve: Resolver, table: Frames, id: WindowId)
    requires id in table
    ensures var filled := Overflow(node, rect, gap, resolve, table).1; id in filled && filled[id] == table[id]
  {
    if node.Split? {
      var expanded := Grow(rect, node, gap, resolve);
      var r := Halve(node, expanded, gap, resolve);
      var firstRect := FirstRect(expanded, node.axis, r.first);
      OverflowKeeps(node.first, firstRect, gap, resolve, table, id);
      OverflowKeeps(node.second, SecondRect(expanded, node.axis, r.first, r.second, gap), gap, resolve,
                    Overflow(node.first, firstRect, gap, resolve, table).1, id);
    }
  }

  lemma OverflowOfSplit(node: Node, rect: Frame, gap: int, resolve: Resolver, table: Frames)
    requires node.Split? && Overflow(node, rect, gap, resolve, table).0
    ensures var expanded := Grow(rect, node, gap, resolve);
            var r := Halve(node, expanded, gap, resolve);
            var filled := Overflow(node.first, FirstRect(expanded, node.axis, r.first), gap, resolve, table);
            && r.first > 0 && r.second > 0 && filled.0
            && Overflow(node, rect, gap, resolve, table)
               == Overflow(node.second, SecondRect(expanded, node.axis, r.first, r.second, gap), gap, resolve, filled.1)
  {
    hide Grow, Halve;
  }

  lemma GrownLength(node: Node, rect: Frame, gap: int, resolve: Resolver)
    requires node.Split? && Positive(rect)
    ensures var expanded := Grow(rect, node, gap, resolve);
            && Length(expanded, node.axis) == Reach(node, rect, node.axis, gap, resolve) > 0
            && Start(expanded, node.axis) == Start(rect, node.axis)
            && Start(expanded, Other(node.axis)) == Start(rect, Other(node.axis))
            && Length(expanded, Other(node.axis)) == Length(rect, Other(node.axis))
  {
    hide AggregateBounds;
  }

  lemma ReachAcross(node: Node, rect: Frame, first: Frame, second: Frame, axis: Axis, gap: int, resolve: Resolver)
    requires node.Split? && node.axis != axis
    requires 0 < Length(rect, axis) == Length(first, axis) == Length(second, axis)
    ensures Reach(node.first, first, axis, gap, resolve) <= Reach(node, rect, axis, gap, resolve)
    ensures Reach(node.second, second, axis, gap, resolve) <= Reach(node, rect, axis, gap, resolve)
  {
    BoundsOfSplit(node, axis, gap, resolve);
    hide AggregateBounds;
  }

  lemma ReachAlong(node: Node, rect: Frame, gap: int, resolve: Resolver)
    requires gap >= 0 && node.Split? && Positive(rect) && Orderly(node, gap, resolve)
    requires var r := Halve(node, Grow(rect, node, gap, resolve), gap, resolve); r.first > 0 && r.second > 0
    ensures var r := Halve(node, Grow(rect, node, gap, resolve), gap, resolve);
            && r.first + gap + r.second == Reach(node, rect, node.axis, gap, resolve)
            && Least(AggregateBounds(node.first, node.axis, gap, resolve)) <= r.first
            && Least(AggregateBounds(node.second, node.axis, gap, resolve)) <= r.second
  {
    GrownLength(node, rect, gap, resolve);
    BoundsOfSplit(node, node.axis, gap, resolve);
    var a, b := AggregateBounds(node.first, node.axis, gap, resolve), AggregateBounds(node.second, node.axis, gap, resolve);
    hide AggregateBounds, PartitionLengths, Grow;
    DividerGivesMinimums(Length(Grow(rect, node, gap, resolve), node.axis), gap, node.ratio, a, b);
  }

  /** The two rectangles of a split in an overflowing plan: a gap apart, in what the split was widened to. */
  lemma OverflowHalves(node: Node, rect: Frame, gap: int, resolve: Resolver, table: Frames)
    requires gap >= 0 && node.Split? && Positive(rect) && Orderly(node, gap, resolve)
    requires Overflow(node, rect, gap, resolve, table).0
    ensures var expanded := Grow(rect, node, gap, resolve);
            var r := Halve(node, expanded, gap, resolve);
            var firstRect := FirstRect(expanded, node.axis, r.first);
            var secondRect := SecondRect(expanded, node.axis, r.first, r.second, gap);
            && Positive(firstRect) && Positive(secondRect)
            && Start(firstRect, node.axis) == Start(rect, node.axis)
            && Start(secondRect, node.axis) == Start(rect, node.axis) + r.first + gap
            && r.first + gap + r.second == Reach(node, rect, node.axis, gap, resolve)
            && Reach(node.first, firstRect, node.axis, gap, resolve) == r.first
            && Reach(node.second, secondRect, node.axis, gap, resolve) == r.second
            && var across := Other(node.axis);
               && Start(firstRect, across) == Start(rect, across) == Start(secondRect, across)
               && Reach(node.first, firstRect, across, gap, resolve) <= Reach(node, rect, across, gap, resolve)
               && Reach(node.second, secondRect, across, gap, resolve) <= Reach(node, rect, across, gap, resolve)
  {
    OverflowOfSplit(node, rect, gap, resolve, table);
    GrownLength(node, rect, gap, resolve);
    ReachAlong(node, rect, gap, resolve);
    var expanded := Grow(rect, node, gap, resolve);
    var r := Halve(node, expanded, gap, resolve);
    hide AggregateBounds, Halve, Grow, Overflow, Orderly;
    ReachAcross(node, rect, FirstRect(expanded, node.axis, r.first),
                SecondRect(expanded, node.axis, r.first, r.second, gap), Other(node.axis), gap, resolve);
  }

  /** Every frame starts where the tree's rectangle does or later, and ends within what the tree needs. */
  lemma {:induction false} OverflowStaysInReach(node: Node, rect: Frame, gap: int, resolve: Resolver, table: Frames,
                                                id: WindowId, axis: Axis)
    requires gap >= 0 && Positive(rect) && Orderly(node, gap, resolve) && Distinct(node) && Has(node, id)
    requires forall other :: Has(node, other) ==> other !in table
    requires Overflow(node, rect, gap, resolve, table).0
    ensures var filled := Overflow(node, rect, gap, resolve, table).1;
            && id in filled && Start(rect, axis) <= Start(filled[id], axis)
            && End(filled[id], axis) <= Start(rect, axis) + Reach(node, rect, axis, gap, resolve)
  {
    if node.Leaf? {
      assert Has(node, node.id);
    } else {
      OverflowHalves(node, rect, gap, resolve, table);
      OverflowOfSplit(node, rect, gap, resolve, table);
      DistinctParts(node);
      HasInParts(node);
      var expanded := Grow(rect, node, gap, resolve);
      var r := Halve(node, expanded, gap, resolve);
      var firstRect := FirstRect(expanded, node.axis, r.first);
      var secondRect := SecondRect(expanded, node.axis, r.first, r.second, gap);
      var filled := Overflow(node.first, firstRect, gap, resolve, table).1;
      hide AggregateBounds, Halve, Grow, Overflow, Has, Distinct, Reach, FirstRect, SecondRect, Positive;
      if Has(node.first, id) {
        OverflowStaysInReach(node.first, firstRect, gap, resolve, table, id, axis);
        OverflowKeeps(node.second, secondRect, gap, resolve, filled, id);
      } else {
        SecondIsNew(node, firstRect, gap, resolve, table);
        OverflowStaysInReach(node.second, secondRect, gap, resolve, filled, id, axis);
      }
    }
  }

  lemma SecondIsNew(node: Node, firstRect: Frame, gap: int, resolve: Resolver, table: Frames)
    requires node.Split? && Distinct(node) && Overflow(node.first, firstRect, gap, resolve, table).0
    requires forall other :: Has(node, other) ==> other !in table
    ensures forall other :: Has(node.second, other) ==> other !in Overflow(node.first, firstRect, gap, resolve, table).1
  {
    hide Overflow, Has, Distinct;
    DistinctParts(node);
    HasInParts(node);
    forall other | Has(node.second, other) ensures other !in Overflow(node.first, firstRect, gap, resolve, table).1 {
      OnlyNewWindows(node.first, firstRect, gap, resolve, table, other);
    }
  }

  lemma {:induction false} OnlyNewWindows(node: Node, rect: Frame, gap: int, resolve: Resolver, table: Frames, id: WindowId)
    ensures id in Overflow(node, rect, gap, resolve, table).1 ==> id in table || Has(node, id)
  {
    if node.Split? {
      var expanded := Grow(rect, node, gap, resolve);
      var r := Halve(node, expanded, gap, resolve);
      var firstRect := FirstRect(expanded, node.axis, r.first);
      OnlyNewWindows(node.first, firstRect, gap, resolve, table, id);
      OnlyNewWindows(node.second, SecondRect(expanded, node.axis, r.first, r.second, gap), gap, resolve,
                     Overflow(node.first, firstRect, gap, resolve, table).1, id);
    }
  }

  lemma {:induction false} OverflowSeparates(node: Node, rect: Frame, gap: int, resolve: Resolver, table: Frames,
                                             a: WindowId, b: WindowId)
    requires gap >= 0 && Positive(rect) && Orderly(node, gap, resolve) && Distinct(node)
    requires Has(node, a) && Has(node, b) && a != b
    requires forall other :: Has(node, other) ==> other !in table
    requires Overflow(node, rect, gap, resolve, table).0
    ensures var filled := Overflow(node, rect, gap, resolve, table).1;
            a in filled && b in filled && Separated(filled[a], filled[b], gap)
  {
    if node.Split? {
      OverflowHalves(node, rect, gap, resolve, table);
      OverflowOfSplit(node, rect, gap, resolve, table);
      SecondIsNew(node, FirstRect(Grow(rect, node, gap, resolve), node.axis,
                                  Halve(node, Grow(rect, node, gap, resolve), gap, resolve).first), gap, resolve, table);
      DistinctParts(node);
      HasInParts(node);
      var expanded := Grow(rect, node, gap, resolve);
      var r := Halve(node, expanded, gap, resolve);
      var firstRect := FirstRect(expanded, node.axis, r.first);
      var secondRect := SecondRect(expanded, node.axis, r.first, r.second, gap);
      var filled := Overflow(node.first, firstRect, gap, resolve, table).1;
      hide AggregateBounds, Halve, Grow, Overflow, Has, Distinct, Reach, FirstRect, SecondRect, Positive;
      if Has(node.first, a) && Has(node.first, b) {
        OverflowSeparates(node.first, firstRect, gap, resolve, table, a, b);
        OverflowKeeps(node.second, secondRect, gap, resolve, filled, a);
        OverflowKeeps(node.second, secondRect, gap, resolve, filled, b);
      } else if Has(node.second, a) && Has(node.second, b) {
        OverflowSeparates(node.second, secondRect, gap, resolve, filled, a, b);
      } else {
        var (l, r) := if Has(node.first, a) then (a, b) else (b, a);
        OverflowStaysInReach(node.first, firstRect, gap, resolve, table, l, node.axis);
        OverflowKeeps(node.second, secondRect, gap, resolve, filled, l);
        OverflowStaysInReach(node.second, secondRect, gap, resolve, filled, r, node.axis);
      }
    }
  }

  /** Overflowing panes leave the content only at the end and only as far as the windows' minimums add up to, and they
      keep their distance from one another, if at no divider the windows of one side contradict each other. */
  lemma OverflowKeepsDistance(input: LayoutInput, a: WindowId, b: WindowId)
    requires input.Gap() >= 0 && Positive(input.content) && Distinct(input.tree)
    requires PolicyPlan(OverflowPolicy, input).Some? && Orderly(input.tree, input.Gap(), input.resolve)
    requires Has(input.tree, a) && Has(input.tree, b) && a != b
    ensures var plan := PolicyPlan(OverflowPolicy, input).value;
            && a in plan && b in plan && Separated(plan[a], plan[b], input.Gap())
            && input.content.x <= plan[a].x && input.content.y <= plan[a].y
            && (var needed := AggregateBounds(input.tree, Vertical, input.Gap(), input.resolve).min;
                plan[a].x + plan[a].width
                <= input.content.x + Max(input.content.width, if needed.Some? then needed.value else 0))
            && (var needed := AggregateBounds(input.tree, Horizontal, input.Gap(), input.resolve).min;
                plan[a].y + plan[a].height
                <= input.content.y + Max(input.content.height, if needed.Some? then needed.value else 0))
  {
    hide Overflow, Has, Distinct, Orderly, AggregateBounds;
    OverflowSeparates(input.tree, input.content, input.Gap(), input.resolve, map[], a, b);
    OverflowStaysInReach(input.tree, input.content, input.Gap(), input.resolve, map[], a, Vertical);
    OverflowStaysInReach(input.tree, input.content, input.Gap(), input.resolve, map[], a, Horizontal);
  }

  /** One above the other: a window at least 700 wide, and one at most 500. */
  function Contradicting(id: WindowId): PaneBounds {
    if id == "a" then PaneBounds(AxisBounds(Some(700), Some(800)), FREE)
    else if id == "b" then PaneBounds(AxisBounds(Some(100), Some(500)), FREE)
    else PaneBounds(FREE, FREE)
  }

  const ROWS := Split(Horizontal, 0.5, Leaf("a"), Leaf("b"))
  const BESIDE_ROWS := Split(Vertical, 0.5, ROWS, Leaf("c"))
  const CONTENT := Frame(0, 0, 1000, 800)

  lemma RowsOverflow()
    ensures Overflow(ROWS, Frame(0, 0, 500, 800), 0, Contradicting, map[])
            == (true, map["a" := Frame(0, 0, 700, 400), "b" := Frame(0, 400, 500, 400)])
  {
    var rect := Frame(0, 0, 500, 800);
    assert AggregateBounds(Leaf("a"), Horizontal, 0, Contradicting) == FREE;
    assert AggregateBounds(Leaf("b"), Horizontal, 0, Contradicting) == FREE;
    assert Grow(rect, ROWS, 0, Contradicting) == rect;
    FreePartition(800, 0, 0.5);
    assert Halve(ROWS, rect, 0, Contradicting) == Lengths(400, 400, true);
    var first := Overflow(Leaf("a"), Frame(0, 0, 500, 400), 0, Contradicting, map[]);
    assert first == (true, map["a" := Frame(0, 0, 700, 400)]);
    assert Overflow(Leaf("b"), Frame(0, 400, 500, 400), 0, Contradicting, first.1)
        == (true, first.1["b" := Frame(0, 400, 500, 400)]);
  }

  lemma RootDivides()
    ensures Grow(CONTENT, BESIDE_ROWS, 0, Contradicting) == CONTENT
    ensures Halve(BESIDE_ROWS, CONTENT, 0, Contradicting) == Lengths(500, 500, false)
    ensures !Orderly(BESIDE_ROWS, 0, Contradicting)
  {
    assert AggregateBounds(Leaf("c"), Vertical, 0, Contradicting) == FREE;
    assert AggregateBounds(ROWS, Vertical, 0, Contradicting) == AxisBounds(Some(700), Some(500));
    BoundsOfSplit(BESIDE_ROWS, Vertical, 0, Contradicting);
    CappedPartition();
  }

  lemma OverflowFromHalves(node: Node, rect: Frame, gap: int, resolve: Resolver, table: Frames, first: Frames, second: Frames)
    requires node.Split?
    requires var expanded := Grow(rect, node, gap, resolve);
             var r := Halve(node, expanded, gap, resolve);
             && r.first > 0 && r.second > 0
             && Overflow(node.first, FirstRect(expanded, node.axis, r.first), gap, resolve, table) == (true, first)
             && Overflow(node.second, SecondRect(expanded, node.axis, r.first, r.second, gap), gap, resolve, first) == (true, second)
    ensures Overflow(node, rect, gap, resolve, table) == (true, second)
  {
    hide Grow, Halve;
  }

  lemma ColumnOverflows(table: Frames)
    requires "c" !in table
    ensures Overflow(Leaf("c"), Frame(500, 0, 500, 800), 0, Contradicting, table) == (true, table["c" := Frame(500, 0, 500, 800)])
  {
    assert Contradicting("c") == PaneBounds(FREE, FREE);
  }

  lemma RootOverflows(rows: Frames)
    requires "c" !in rows && Overflow(ROWS, Frame(0, 0, 500, 800), 0, Contradicting, map[]) == (true, rows)
    ensures Overflow(BESIDE_ROWS, CONTENT, 0, Contradicting, map[]) == (true, rows["c" := Frame(500, 0, 500, 800)])
  {
    hide Overflow, Grow, Halve, Orderly, Contradicting;
    RootDivides();
    ColumnOverflows(rows);
    OverflowFromHalves(BESIDE_ROWS, CONTENT, 0, Contradicting, map[], rows, rows["c" := Frame(500, 0, 500, 800)]);
  }

  /** Where they do, panes can come to lie on one another: the wide window reaches into the column beside it. */
  lemma ContradictionsOverlap()
    ensures var plan := PolicyPlan(OverflowPolicy, LayoutInput(BESIDE_ROWS, CONTENT, Some(0), Contradicting));
            && !Orderly(BESIDE_ROWS, 0, Contradicting)
            && plan.Some? && "a" in plan.value && "c" in plan.value
            && plan.value["a"] == Frame(0, 0, 700, 400) && plan.value["c"] == Frame(500, 0, 500, 800)
  {
    hide Overflow, Grow, Halve, Orderly, Contradicting;
    RootDivides();
    RowsOverflow();
    RootOverflows(map["a" := Frame(0, 0, 700, 400), "b" := Frame(0, 400, 500, 400)]);
  }

  lemma CappedPartition()
    ensures PartitionLengths(1000, 0, 0.5, AxisBounds(Some(700), Some(500)), FREE) == Lengths(500, 500, false)
  {
    var a := AxisBounds(Some(700), Some(500));
    assert Preferred(1000, 0.5) == 500;
    assert Clamp(500, a) == 500 && Clamp(500, FREE) == 500;
    assert Settle(500, 1000, a, FREE, ROUNDS) == 500;
  }
}
