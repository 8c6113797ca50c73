/** Planning where a new window goes, without disturbing the panes around it. */
module Insertion {
  import opened Geometry
  import opened BspTree
  import opened Partition
  import opened Planner
  import opened Policies

  /** Length a subtree takes up along an axis, read off the frames of its windows. */
  function SubtreeLength(node: Node, axis: Axis, frames: Frames, gap: int): Option<int> {
    match node
    case Leaf(id) => if id in frames then Some(Length(frames[id], axis)) else None
    case Split(divider, _, first, second) =>
      var a := SubtreeLength(first, axis, frames, gap);
      var b := SubtreeLength(second, axis, frames, gap);
      if a.None? || b.None? then None
      else Some(if divider == axis then a.value + gap + b.value else Max(a.value, b.value))
  }

  /** A ratio under which the divider stays where it is now. Zero lengths divide by zero in the
      program; 0.0 stands for the unusable result. */
  function RetainedRatio(ratio: real, first: int, available: int): real {
    if (available as real * ratio).Floor == first then ratio
    else if available == 0 then 0.0
    else (first as real + 0.5) / available as real
  }

  /** Rewrite the dividers on the way to the target so that they keep their present place. */
  function RetainPathDividers(node: Node, target: WindowId, frames: Frames, gap: int): (r: Node)
    ensures Bag(r) == Bag(node)
  {
    match node
    case Leaf(_) => node
    case Split(axis, ratio, first, second) =>
      var inFirst := FindLeaf(first, target);
      if !inFirst && !FindLeaf(second, target) then node else
        var a := SubtreeLength(first, axis, frames, gap);
        var b := SubtreeLength(second, axis, frames, gap);
        if a.None? || b.None? then node else
          var kept := RetainedRatio(ratio, a.value, a.value + b.value);
          if inFirst then node.(ratio := kept, first := RetainPathDividers(first, target, frames, gap))
          else node.(ratio := kept, second := RetainPathDividers(second, target, frames, gap))
  }

  datatype InsertionInput = InsertionInput(
    content: Option<Frame>,         // None when no display can host the workspace
    tree: Node,
    remembered: Option<WindowId>,   // last focused tiled member, else last focused member
    newId: WindowId,
    gap: int,
    resolve: Resolver,
    beside: Option<WindowId>,
    axis: Option<Axis>)

  datatype InsertionPlan = InsertionPlan(tree: Node, beside: Option<WindowId>, axis: Option<Axis>, frame: Frame)

  function LayoutOf(input: InsertionInput, tree: Node, content: Frame): LayoutInput {
    LayoutInput(tree, content, Some(input.gap), input.resolve)
  }

  /** The two-pane tree the target's frame is tried with. */
  function Pair(axis: Axis, beside: WindowId, newId: WindowId): Node {
    Split(axis, 0.5, Leaf(beside), Leaf(newId))
  }

  function PlannedFrame(plan: LayoutPlan, id: WindowId): Option<Frame> {
    if plan.Feasible? && id in plan.frames then Some(plan.frames[id]) else None
  }

  /** The window the new one goes beside. */
  function BesideOf(input: InsertionInput): WindowId {
    var requested := if input.beside.Some? then input.beside else input.remembered;
    if requested.Some? && requested.value in TiledMembers(input.tree) then requested.value
    else FirstLeaf(input.tree)
  }

  function AxesToTry(preferred: Axis, requested: Option<Axis>): seq<Axis> {
    if requested.None? then [preferred, Other(preferred)] else [preferred]
  }

  function TryAxes(input: InsertionInput, base: Node, beside: WindowId, target: Frame, content: Frame,
                   axes: seq<Axis>): Option<InsertionPlan>
  {
    if axes == [] then None else
      var rest := TryAxes(input, base, beside, target, content, axes[1..]);
      var tree := InsertLeaf(base, beside, input.newId, Some(target), Some(axes[0]));
      if tree.None? then rest
      else if PlanLayout(LayoutOf(input, Pair(axes[0], beside, input.newId), target), [GreedyPolicy]).Infeasible? then rest
      else
        var frame := PlannedFrame(PlanLayout(LayoutOf(input, tree.value, content), [GreedyPolicy]), input.newId);
        if frame.None? then rest else Some(InsertionPlan(tree.value, Some(beside), Some(axes[0]), frame.value))
  }

  function InsertIntoEmpty(input: InsertionInput, content: Frame): Option<InsertionPlan> {
    var tree := Leaf(input.newId);
    var frame := PlannedFrame(PlanLayout(LayoutOf(input, tree, content), DEFAULT_CHAIN), input.newId);
    if frame.None? then None else Some(InsertionPlan(tree, None, None, frame.value))
  }

  function InsertionBase(input: InsertionInput, current: LayoutPlan, beside: WindowId): Node
    requires current.Feasible?
  {
    if current.policy == GreedyPolicy then RetainPathDividers(input.tree, beside, current.frames, input.gap)
    else input.tree
  }

  function PlanInsertion(input: InsertionInput): Option<InsertionPlan> {
    if input.content.None? then None
    else if IsEmptyTree(input.tree) then InsertIntoEmpty(input, input.content.value)
    else
      var content := input.content.value;
      var beside := BesideOf(input);
      var current := PlanLayout(LayoutOf(input, input.tree, content), DEFAULT_CHAIN);
      var target := PlannedFrame(current, beside);
      if target.None? then None else
        var preferred := if input.axis.Some? then input.axis.value else AxisForFrame(target.value);
        var tried := TryAxes(input, InsertionBase(input, current, beside), beside, target.value, content,
                             AxesToTry(preferred, input.axis));
        if tried.Some? then tried else
          var tree := InsertLeaf(input.tree, beside, input.newId, Some(target.value), Some(preferred));
          if tree.None? then None else
            var frame := PlannedFrame(PlanLayout(LayoutOf(input, tree.value, content), DEFAULT_CHAIN), input.newId);
            if frame.None? then None else Some(InsertionPlan(tree.value, Some(beside), Some(preferred), frame.value))
  }

  // ---------------------------------------------------------------- dividers that stay

  /** Frames that agree with a plan on every window of the tree. */
  ghost predicate Shows(frames: Frames, node: Node, plan: Frames) {
    forall id :: Has(node, id) ==> id in frames && id in plan && frames[id] == plan[id]
  }

  lemma ShowsParts(frames: Frames, node: Node, rect: Frame, gap: int, resolve: Resolver)
    requires node.Split? && Distinct(node)
    requires Solve(node, rect, gap, resolve).Some? && Shows(frames, node, Solve(node, rect, gap, resolve).value)
    ensures var r := Halve(node, rect, gap, resolve);
            && Shows(frames, node.first, Solve(node.first, FirstRect(rect, node.axis, r.first), gap, resolve).value)
            && Shows(frames, node.second,
                     Solve(node.second, SecondRect(rect, node.axis, r.first, r.second, gap), gap, resolve).value)
  {
    DistinctParts(node);
    forall id | Has(node.first, id) || Has(node.second, id) ensures Has(node, id) {}
  }

  lemma JoinedLength(node: Node, rect: Frame, first: int, second: int, gap: int, axis: Axis, frames: Frames)
    requires node.Split? && first + gap + second == Length(rect, node.axis)
    requires SubtreeLength(node.first, axis, frames, gap) == Some(Length(FirstRect(rect, node.axis, first), axis))
    requires SubtreeLength(node.second, axis, frames, gap)
             == Some(Length(SecondRect(rect, node.axis, first, second, gap), axis))
    ensures SubtreeLength(node, axis, frames, gap) == Some(Length(rect, axis))
  {
  }

  /** The length read off a plan's frames is the length of the rectangle that was planned. */
  lemma {:induction false} SubtreeLengthIsRectLength(node: Node, rect: Frame, gap: int, resolve: Resolver,
                                                     axis: Axis, frames: Frames)
    requires Distinct(node) && Solve(node, rect, gap, resolve).Some?
    requires Shows(frames, node, Solve(node, rect, gap, resolve).value)
    ensures SubtreeLength(node, axis, frames, gap) == Some(Length(rect, axis))
  {
    if node.Leaf? {
      assert Has(node, node.id);
    } else {
      DistinctParts(node);
      ShowsParts(frames, node, rect, gap, resolve);
      SplitLengths(node, rect, gap, resolve);
      var r := Halve(node, rect, gap, resolve);
      var firstRect := FirstRect(rect, node.axis, r.first);
      var secondRect := SecondRect(rect, node.axis, r.first, r.second, gap);
      SubtreeLengthIsRectLength(node.first, firstRect, gap, resolve, axis, frames);
      SubtreeLengthIsRectLength(node.second, secondRect, gap, resolve, axis, frames);
      JoinedLength(node, rect, r.first, r.second, gap, axis, frames);
    }
  }

  lemma RetainedRatioKeepsDivider(ratio: real, first: int, available: int)
    requires 0 < first < available
    ensures Preferred(available, RetainedRatio(ratio, first, available)) == first
  {
    hide Preferred;
    if (available as real * ratio).Floor == first {
      FittingRatio(ratio, first, available);
    } else {
      MiddleRatio(first, available);
    }
  }

  lemma FittingRatio(ratio: real, first: int, available: int)
    requires 0 < first < available && (available as real * ratio).Floor == first
    ensures Preferred(available, ratio) == first
  {
    hide Preferred;
    var product := available as real * ratio;
    assert first as real <= product < first as real + 1.0;
    RatioInRange(available as real, ratio, first);
    PreferredIs(available, ratio, first);
  }

  lemma MiddleRatio(first: int, available: int)
    requires 0 < first < available
    ensures Preferred(available, (first as real + 0.5) / available as real) == first
  {
    hide Preferred;
    var x, n := first as real + 0.5, available as real;
    QuotientBetween(x, n);
    DivideThenMultiply(x, n);
    PreferredIs(available, x / n, first);
  }

  lemma PreferredIs(space: int, ratio: real, first: int)
    requires IsValidRatio(ratio) && first as real <= space as real * ratio < first as real + 1.0
    ensures Preferred(space, ratio) == first
  {
  }

  lemma RatioInRange(n: real, ratio: real, first: int)
    requires n * ratio >= first as real && first > 0 && n * ratio < n
    requires n > 0.0
    ensures IsValidRatio(ratio)
  {
    if ratio <= 0.0 {
      ProductBelow(n, ratio, 0.0);
      assert false;
    }
    if ratio >= 1.0 {
      ProductBelow(n, 1.0, ratio);
      assert false;
    }
  }

  /** If both halves can be solved on either side of a divider, a tree that prefers the divider
      there puts it there: no bound of a pane pushes it away. */
  lemma DividerStays(node: Node, rect: Frame, gap: int, resolve: Resolver, first: int, second: int)
    requires node.Split?
    requires first + gap + second == Length(rect, node.axis) && first > 0 && second > 0
    requires Preferred(first + gap + second - gap, node.ratio) == first
    requires Solve(node.first, FirstRect(rect, node.axis, first), gap, resolve).Some?
    requires Solve(node.second, SecondRect(rect, node.axis, first, second, gap), gap, resolve).Some?
    ensures Halve(node, rect, gap, resolve) == Lengths(first, second, true)
  {
    hide Solve, AggregateBounds, PartitionLengths, Preferred;
    BoundsPropagate(node.first, FirstRect(rect, node.axis, first), gap, resolve, node.axis);
    BoundsPropagate(node.second, SecondRect(rect, node.axis, first, second, gap), gap, resolve, node.axis);
    AdmissiblePreferenceIsKept(first + gap + second, gap, node.ratio,
                               AggregateBounds(node.first, node.axis, gap, resolve),
                               AggregateBounds(node.second, node.axis, gap, resolve), first, second);
  }

  /** A path node whose halves are re-planned in place is itself re-planned in place. */
  lemma ReplannedHalves(node: Node, rect: Frame, gap: int, resolve: Resolver, frames: Frames,
                        first: Node, second: Node)
    requires node.Split? && Distinct(node) && Solve(node, rect, gap, resolve).Some?
    requires Shows(frames, node, Solve(node, rect, gap, resolve).value)
    requires var r := Halve(node, rect, gap, resolve);
             && Solve(first, FirstRect(rect, node.axis, r.first), gap, resolve).Some?
             && Solve(second, SecondRect(rect, node.axis, r.first, r.second, gap), gap, resolve).Some?
    ensures var r := Halve(node, rect, gap, resolve);
            var a := SubtreeLength(node.first, node.axis, frames, gap);
            var b := SubtreeLength(node.second, node.axis, frames, gap);
            && a == Some(r.first) && b == Some(r.second)
            && var node' := Split(node.axis, RetainedRatio(node.ratio, r.first, r.first + r.second), first, second);
               Solve(node', rect, gap, resolve)
               == Some(Solve(second, SecondRect(rect, node.axis, r.first, r.second, gap), gap, resolve).value
                     + Solve(first, FirstRect(rect, node.axis, r.first), gap, resolve).value)
  {
    hide Halve, RetainedRatio, Preferred, AggregateBounds, Shows, SubtreeLength, Bag, Has, Distinct;
    DistinctParts(node);
    ShowsParts(frames, node, rect, gap, resolve);
    SplitLengths(node, rect, gap, resolve);
    SolveOfSplit(node, rect, gap, resolve);
    var r := Halve(node, rect, gap, resolve);
    var firstRect := FirstRect(rect, node.axis, r.first);
    var secondRect := SecondRect(rect, node.axis, r.first, r.second, gap);
    SubtreeLengthIsRectLength(node.first, firstRect, gap, resolve, node.axis, frames);
    SubtreeLengthIsRectLength(node.second, secondRect, gap, resolve, node.axis, frames);
    RetainedRatioKeepsDivider(node.ratio, r.first, r.first + r.second);
    var node' := Split(node.axis, RetainedRatio(node.ratio, r.first, r.first + r.second), first, second);
    assert r.first + gap + r.second - gap == r.first + r.second;
    DividerStays(node', rect, gap, resolve, r.first, r.second);
  }

  /** What retaining does at one node of the path. */
  lemma RetainAtNode(node: Node, target: WindowId, frames: Frames, gap: int, a: int, b: int)
    requires node.Split? && Has(node, target)
    requires SubtreeLength(node.first, node.axis, frames, gap) == Some(a)
    requires SubtreeLength(node.second, node.axis, frames, gap) == Some(b)
    ensures RetainPathDividers(node, target, frames, gap)
            == if FindLeaf(node.first, target)
               then Split(node.axis, RetainedRatio(node.ratio, a, a + b),
                          RetainPathDividers(node.first, target, frames, gap), node.second)
               else Split(node.axis, RetainedRatio(node.ratio, a, a + b),
                          node.first, RetainPathDividers(node.second, target, frames, gap))
  {
    hide SubtreeLength, RetainedRatio;
  }

  lemma RetainOffPath(node: Node, target: WindowId, frames: Frames, gap: int)
    ensures node.Leaf? || !Has(node, target) ==> RetainPathDividers(node, target, frames, gap) == node
  {
  }

  /** Retaining the dividers on a path leaves the whole plan as it was. */
  lemma {:induction false} RetainedPlanUnchanged(node: Node, rect: Frame, gap: int, resolve: Resolver,
                                                 target: WindowId, frames: Frames)
    requires Distinct(node) && Solve(node, rect, gap, resolve).Some?
    requires Shows(frames, node, Solve(node, rect, gap, resolve).value)
    ensures Solve(RetainPathDividers(node, target, frames, gap), rect, gap, resolve)
            == Solve(node, rect, gap, resolve)
  {
    hide *;
    RetainOffPath(node, target, frames, gap);
    if node.Split? && Has(node, target) {
      SolveOfSplit(node, rect, gap, resolve);
      var r := Halve(node, rect, gap, resolve);
      var firstRect := FirstRect(rect, node.axis, r.first);
      var secondRect := SecondRect(rect, node.axis, r.first, r.second, gap);
      DistinctParts(node);
      ShowsParts(frames, node, rect, gap, resolve);
      RetainedPlanUnchanged(node.first, firstRect, gap, resolve, target, frames);
      RetainedPlanUnchanged(node.second, secondRect, gap, resolve, target, frames);
      var first := RetainPathDividers(node.first, target, frames, gap);
      var second := RetainPathDividers(node.second, target, frames, gap);
      ReplannedHalves(node, rect, gap, resolve, frames, first, node.second);
      ReplannedHalves(node, rect, gap, resolve, frames, node.first, second);
      RetainAtNode(node, target, frames, gap, r.first, r.second);
    }
  }

  /** Retain the path, then split the target along `axis`. */
  function Inserted(node: Node, target: WindowId, newId: WindowId, axis: Axis, frames: Frames, gap: int)
    : (r: Option<Node>)
    requires target in frames
    ensures r.Some? <==> Has(node, target)
  {
    InsertLeaf(RetainPathDividers(node, target, frames, gap), target, newId, Some(frames[target]), Some(axis))
  }

  lemma LocalAtLeaf(node: Node, rect: Frame, gap: int, resolve: Resolver, target: WindowId, newId: WindowId,
                    axis: Axis, frames: Frames, pair: Frames)
    requires node.Leaf? && Has(node, target) && target in frames && target in pair
    requires Solve(node, rect, gap, resolve).Some?
    requires Shows(frames, node, Solve(node, rect, gap, resolve).value)
    requires Solve(Pair(axis, target, newId), frames[target], gap, resolve) == Some(pair)
    ensures Solve(Inserted(node, target, newId, axis, frames, gap).value, rect, gap, resolve)
            == Some(Solve(node, rect, gap, resolve).value + pair)
  {
    hide Halve;
    assert node.id == target;
    assert Solve(node, rect, gap, resolve).value + pair == pair;
  }

  lemma LocalInFirst(node: Node, rect: Frame, gap: int, resolve: Resolver, target: WindowId, newId: WindowId,
                     axis: Axis, frames: Frames, pair: Frames)
    requires node.Split? && Distinct(node) && Has(node.first, target) && target in frames
    requires Solve(node, rect, gap, resolve).Some?
    requires Shows(frames, node, Solve(node, rect, gap, resolve).value)
    requires var firstRect := FirstRect(rect, node.axis, Halve(node, rect, gap, resolve).first);
             Solve(Inserted(node.first, target, newId, axis, frames, gap).value, firstRect, gap, resolve)
             == Some(Solve(node.first, firstRect, gap, resolve).value + pair)
    ensures Has(node, target)
    ensures Solve(Inserted(node, target, newId, axis, frames, gap).value, rect, gap, resolve)
            == Some(Solve(node, rect, gap, resolve).value + pair)
  {
    hide *;
    SolveOfSplit(node, rect, gap, resolve);
    DistinctParts(node);
    var r := Halve(node, rect, gap, resolve);
    var grown := Inserted(node.first, target, newId, axis, frames, gap).value;
    ReplannedHalves(node, rect, gap, resolve, frames, grown, node.second);
    InsertedAtNode(node, target, newId, axis, frames, gap, r.first, r.second);
    MergeAssociates(Solve(node.second, SecondRect(rect, node.axis, r.first, r.second, gap), gap, resolve).value,
                    Solve(node.first, FirstRect(rect, node.axis, r.first), gap, resolve).value, pair);
  }

  lemma LocalInSecond(node: Node, rect: Frame, gap: int, resolve: Resolver, target: WindowId, newId: WindowId,
                      axis: Axis, frames: Frames, pair: Frames)
    requires node.Split? && Distinct(node) && Has(node.second, target) && !Has(node.first, target) && target in frames
    requires Solve(node, rect, gap, resolve).Some?
    requires Shows(frames, node, Solve(node, rect, gap, resolve).value)
    requires forall id :: Has(node.first, id) ==> id !in pair
    requires var r := Halve(node, rect, gap, resolve);
             var secondRect := SecondRect(rect, node.axis, r.first, r.second, gap);
             Solve(Inserted(node.second, target, newId, axis, frames, gap).value, secondRect, gap, resolve)
             == Some(Solve(node.second, secondRect, gap, resolve).value + pair)
    ensures Has(node, target)
    ensures Solve(Inserted(node, target, newId, axis, frames, gap).value, rect, gap, resolve)
            == Some(Solve(node, rect, gap, resolve).value + pair)
  {
    hide *;
    SolveOfSplit(node, rect, gap, resolve);
    DistinctParts(node);
    var r := Halve(node, rect, gap, resolve);
    var grown := Inserted(node.second, target, newId, axis, frames, gap).value;
    ReplannedHalves(node, rect, gap, resolve, frames, node.first, grown);
    InsertedAtNode(node, target, newId, axis, frames, gap, r.first, r.second);
    MergeOver(Solve(node.first, FirstRect(rect, node.axis, r.first), gap, resolve).value,
              Solve(node.second, SecondRect(rect, node.axis, r.first, r.second, gap), gap, resolve).value, pair);
  }

  /** Insertion is local. When the target's own frame can be split between it and the new window,
      the whole tree can be planned with the new window in it: the two share the target's frame and
      every other window keeps its frame exactly. */
  lemma {:induction false} InsertedPlanIsLocal(node: Node, rect: Frame, gap: int, resolve: Resolver,
                                               target: WindowId, newId: WindowId, axis: Axis, frames: Frames)
    requires Distinct(node) && Has(node, target) && !Has(node, newId) && target in frames
    requires Solve(node, rect, gap, resolve).Some?
    requires Shows(frames, node, Solve(node, rect, gap, resolve).value)
    requires Solve(Pair(axis, target, newId), frames[target], gap, resolve).Some?
    ensures Solve(Inserted(node, target, newId, axis, frames, gap).value, rect, gap, resolve)
            == Some(Solve(node, rect, gap, resolve).value
                  + Solve(Pair(axis, target, newId), frames[target], gap, resolve).value)
  {
    hide *;
    var pair := Solve(Pair(axis, target, newId), frames[target], gap, resolve).value;
    PairHolds(axis, target, newId, frames[target], gap, resolve);
    if node.Leaf? {
      LocalAtLeaf(node, rect, gap, resolve, target, newId, axis, frames, pair);
    } else {
      var r := Halve(node, rect, gap, resolve);
      HasInParts(node);
      DistinctParts(node);
      SolveOfSplit(node, rect, gap, resolve);
      ShowsParts(frames, node, rect, gap, resolve);
      if FindLeaf(node.first, target) {
        InsertedPlanIsLocal(node.first, FirstRect(rect, node.axis, r.first), gap, resolve,
                            target, newId, axis, frames);
        LocalInFirst(node, rect, gap, resolve, target, newId, axis, frames, pair);
      } else {
        InsertedPlanIsLocal(node.second, SecondRect(rect, node.axis, r.first, r.second, gap), gap, resolve,
                            target, newId, axis, frames);
        forall id | Has(node.first, id) ensures id !in pair {
          assert Has(node, id);
        }
        LocalInSecond(node, rect, gap, resolve, target, newId, axis, frames, pair);
      }
    }
  }

  lemma PairHolds(axis: Axis, target: WindowId, newId: WindowId, rect: Frame, gap: int, resolve: Resolver)
    requires Solve(Pair(axis, target, newId), rect, gap, resolve).Some?
    ensures forall id :: id in Solve(Pair(axis, target, newId), rect, gap, resolve).value <==> id == target || id == newId
  {
    forall id ensures Has(Pair(axis, target, newId), id) <==> id == target || id == newId {}
  }

  /** What inserting does at one node of the path. */
  lemma InsertedAtNode(node: Node, target: WindowId, newId: WindowId, axis: Axis, frames: Frames, gap: int,
                       a: int, b: int)
    requires node.Split? && Has(node, target) && target in frames
    requires SubtreeLength(node.first, node.axis, frames, gap) == Some(a)
    requires SubtreeLength(node.second, node.axis, frames, gap) == Some(b)
    ensures var ratio := RetainedRatio(node.ratio, a, a + b);
            Inserted(node, target, newId, axis, frames, gap)
            == if FindLeaf(node.first, target)
               then Some(Split(node.axis, ratio,
                               Inserted(node.first, target, newId, axis, frames, gap).value, node.second))
               else Some(Split(node.axis, ratio,
                               node.first, Inserted(node.second, target, newId, axis, frames, gap).value))
  {
    RetainAtNode(node, target, frames, gap, a, b);
  }

  lemma MergeOver(a: Frames, b: Frames, pair: Frames)
    requires forall id :: id in a ==> id !in b && id !in pair
    ensures (b + pair) + a == (b + a) + pair
  {
  }

  // ---------------------------------------------------------------- what the planner delivers

  /** The target frame can be shared along `axis`. */
  ghost predicate Shares(input: InsertionInput, frames: Frames, beside: WindowId, axis: Axis) {
    beside in frames && Solve(Pair(axis, beside, input.newId), frames[beside], input.gap, input.resolve).Some?
  }

  lemma GreedyOnly(input: InsertionInput, tree: Node, rect: Frame)
    requires Positive(rect)
    ensures var plan := Solve(tree, rect, input.gap, input.resolve);
            PlanLayout(LayoutOf(input, tree, rect), [GreedyPolicy])
            == if plan.Some? then Feasible(GreedyPolicy, plan.value) else Infeasible
  {
    hide Solve;
    var layout := LayoutOf(input, tree, rect);
    assert [GreedyPolicy][1..] == [];
    assert ChainPlan(layout, []) == Infeasible;
    assert layout.Gap() == input.gap;
    assert PolicyPlan(GreedyPolicy, layout) == Solve(tree, rect, input.gap, input.resolve);
  }

  /** Along an axis that the target frame can be shared on, the trial succeeds at once. */
  lemma SharedAxisIsTaken(input: InsertionInput, content: Frame, frames: Frames, beside: WindowId, axes: seq<Axis>)
    requires axes != [] && Shares(input, frames, beside, axes[0])
    requires Positive(content) && Distinct(input.tree) && Has(input.tree, beside) && !Has(input.tree, input.newId)
    requires Solve(input.tree, content, input.gap, input.resolve) == Some(frames)
    ensures var base := RetainPathDividers(input.tree, beside, frames, input.gap);
            var pair := Solve(Pair(axes[0], beside, input.newId), frames[beside], input.gap, input.resolve).value;
            && input.newId in pair
            && TryAxes(input, base, beside, frames[beside], content, axes)
               == Some(InsertionPlan(Inserted(input.tree, beside, input.newId, axes[0], frames, input.gap).value,
                                     Some(beside), Some(axes[0]), pair[input.newId]))
  {
    hide Solve, Distinct, Has, Bag, RetainPathDividers, InsertLeaf, PlanLayout, Pair;
    var axis := axes[0];
    var tree := Inserted(input.tree, beside, input.newId, axis, frames, input.gap).value;
    GreedyFrameIsPositive(input, content, frames, beside);
    PairHolds(axis, beside, input.newId, frames[beside], input.gap, input.resolve);
    GreedyOnly(input, Pair(axis, beside, input.newId), frames[beside]);
    InsertedPlanIsLocal(input.tree, content, input.gap, input.resolve, beside, input.newId, axis, frames);
    GreedyOnly(input, tree, content);
  }

  lemma GreedyFrameIsPositive(input: InsertionInput, content: Frame, frames: Frames, id: WindowId)
    requires Positive(content) && Has(input.tree, id)
    requires Solve(input.tree, content, input.gap, input.resolve) == Some(frames)
    ensures Positive(frames[id])
  {
    SolvedFramePositive(input.tree, content, input.gap, input.resolve, id);
  }

  /** An axis the frame cannot be shared on is passed over. */
  lemma UnsharedAxisIsSkipped(input: InsertionInput, content: Frame, frames: Frames, beside: WindowId, axes: seq<Axis>)
    requires axes != [] && beside in frames && !Shares(input, frames, beside, axes[0])
    requires Positive(content) && Has(input.tree, beside)
    requires Solve(input.tree, content, input.gap, input.resolve) == Some(frames)
    ensures var base := RetainPathDividers(input.tree, beside, frames, input.gap);
            TryAxes(input, base, beside, frames[beside], content, axes)
            == TryAxes(input, base, beside, frames[beside], content, axes[1..])
  {
    hide Solve, Has, Bag, RetainPathDividers, InsertLeaf, PlanLayout, Pair;
    GreedyFrameIsPositive(input, content, frames, beside);
    GreedyOnly(input, Pair(axes[0], beside, input.newId), frames[beside]);
  }

  /** The first axis worth trying on which the target frame can be shared. */
  function SharedAxis(input: InsertionInput, frames: Frames, beside: WindowId): (r: Option<Axis>)
    requires beside in frames
    ensures r.Some? ==> Shares(input, frames, beside, r.value)
  {
    var preferred := if input.axis.Some? then input.axis.value else AxisForFrame(frames[beside]);
    if Solve(Pair(preferred, beside, input.newId), frames[beside], input.gap, input.resolve).Some? then Some(preferred)
    else if input.axis.None?
            && Solve(Pair(Other(preferred), beside, input.newId), frames[beside], input.gap, input.resolve).Some?
    then Some(Other(preferred))
    else None
  }

  /** The planner's promise for a workspace laid out greedily. If the target's pane can hold two
      windows, the plan is exactly the local one: it is again greedy, all other windows keep their
      frames, the two share the target's old frame, and closing the new window later brings every
      frame back. */
  lemma InsertionDisturbsOnlyItsPane(input: InsertionInput, frames: Frames)
    requires input.content.Some? && Positive(input.content.value)
    requires !IsEmptyTree(input.tree) && Distinct(input.tree) && !Has(input.tree, input.newId)
    requires Solve(input.tree, input.content.value, input.gap, input.resolve) == Some(frames)
    requires Has(input.tree, BesideOf(input)) && SharedAxis(input, frames, BesideOf(input)).Some?
    ensures var content, beside := input.content.value, BesideOf(input);
            var axis := SharedAxis(input, frames, beside).value;
            var pair := Solve(Pair(axis, beside, input.newId), frames[beside], input.gap, input.resolve).value;
            var result := PlanInsertion(input);
            && result.Some? && result.value.beside == Some(beside) && result.value.axis == Some(axis)
            && input.newId in pair && result.value.frame == pair[input.newId]
            && Solve(result.value.tree, content, input.gap, input.resolve) == Some(frames + pair)
            && (forall id :: Has(input.tree, id) && id != beside ==> (frames + pair)[id] == frames[id])
            && RemoveLeaf(result.value.tree, input.newId).Some?
            && Solve(RemoveLeaf(result.value.tree, input.newId).value, content, input.gap, input.resolve) == Some(frames)
  {
    hide Solve, Distinct, Has, Bag, RetainPathDividers, InsertLeaf, PlanLayout, Pair, RemoveLeaf, TryAxes, BesideOf,
      Shares;
    var content, beside := input.content.value, BesideOf(input);
    var axis := SharedAxis(input, frames, beside).value;
    var base := RetainPathDividers(input.tree, beside, frames, input.gap);
    GreedyWhenItFits(LayoutOf(input, input.tree, content));
    var preferred := if input.axis.Some? then input.axis.value else AxisForFrame(frames[beside]);
    var axes := AxesToTry(preferred, input.axis);
    if axis == preferred {
      SharedAxisIsTaken(input, content, frames, beside, axes);
    } else {
      NotShared(input, frames, beside, preferred);
      UnsharedAxisIsSkipped(input, content, frames, beside, axes);
      SharedAxisIsTaken(input, content, frames, beside, axes[1..]);
    }
    InsertedPlanIsLocal(input.tree, content, input.gap, input.resolve, beside, input.newId, axis, frames);
    PairHolds(axis, beside, input.newId, frames[beside], input.gap, input.resolve);
    RetainedHasSameWindows(input.tree, beside, frames, input.gap);
    RemoveUndoesInsert(base, beside, input.newId, Some(frames[beside]), Some(axis));
    RetainedPlanUnchanged(input.tree, content, input.gap, input.resolve, beside, frames);
  }

  lemma NotShared(input: InsertionInput, frames: Frames, beside: WindowId, axis: Axis)
    requires beside in frames && SharedAxis(input, frames, beside) == Some(Other(axis))
    requires axis == if input.axis.Some? then input.axis.value else AxisForFrame(frames[beside])
    ensures !Shares(input, frames, beside, axis)
  {
    hide Solve;
  }

  lemma RetainedHasSameWindows(tree: Node, target: WindowId, frames: Frames, gap: int)
    ensures forall id :: Has(RetainPathDividers(tree, target, frames, gap), id) <==> Has(tree, id)
  {
    hide RetainPathDividers;
  }

  // ---------------------------------------------------------------- planning once, executing later

  /** Asking for exactly what a plan decided. */
  function Confirm(input: InsertionInput, plan: InsertionPlan): InsertionInput {
    input.(beside := plan.beside, axis := plan.axis)
  }

  lemma {:induction false} TrialsIgnoreTheRequest(input: InsertionInput, other: InsertionInput, base: Node,
                                                  beside: WindowId,
                                                  target: Frame, content: Frame, axes: seq<Axis>)
    requires other == input.(beside := other.beside, axis := other.axis)
    ensures TryAxes(input, base, beside, target, content, axes) == TryAxes(other, base, beside, target, content, axes)
    ensures var r := TryAxes(input, base, beside, target, content, axes);
            r.Some? ==> r.value.beside == Some(beside) && r.value.axis.Some? && r.value.axis.value in axes
                        && TryAxes(other, base, beside, target, content, [r.value.axis.value]) == r
  {
    hide PlanLayout, InsertLeaf;
    if axes != [] {
      TrialsIgnoreTheRequest(input, other, base, beside, target, content, axes[1..]);
      assert [axes[0]][1..] == [];
    }
  }

  lemma ConfirmedBeside(input: InsertionInput, plan: InsertionPlan)
    requires plan.beside == Some(BesideOf(input))
    ensures BesideOf(Confirm(input, plan)) == BesideOf(input)
  {
  }

  /** Preflight agrees with execution: planning again with the neighbour and the axis the first plan
      settled on gives the very same plan, whichever branch the first plan came from. */
  lemma ConfirmedPlanIsThePlan(input: InsertionInput)
    requires PlanInsertion(input).Some?
    ensures PlanInsertion(Confirm(input, PlanInsertion(input).value)) == PlanInsertion(input)
  {
    hide PlanLayout, InsertLeaf, RetainPathDividers, BesideOf, TryAxes;
    var plan := PlanInsertion(input).value;
    var again := Confirm(input, plan);
    var content := input.content.value;
    if !IsEmptyTree(input.tree) {
      var beside := BesideOf(input);
      var current := PlanLayout(LayoutOf(input, input.tree, content), DEFAULT_CHAIN);
      var target := PlannedFrame(current, beside).value;
      var base := InsertionBase(input, current, beside);
      var preferred := if input.axis.Some? then input.axis.value else AxisForFrame(target);
      TrialsIgnoreTheRequest(input, again, base, beside, target, content, AxesToTry(preferred, input.axis));
      ConfirmedBeside(input, plan);
      if TryAxes(input, base, beside, target, content, AxesToTry(preferred, input.axis)).None? {
        FallbackAgain(input, again, base, beside, target, content, preferred);
      }
    }
  }

  lemma FallbackAgain(input: InsertionInput, again: InsertionInput, base: Node, beside: WindowId, target: Frame,
                      content: Frame, preferred: Axis)
    requires again == input.(beside := again.beside, axis := again.axis)
    requires TryAxes(input, base, beside, target, content, AxesToTry(preferred, input.axis)).None?
    ensures TryAxes(again, base, beside, target, content, [preferred]).None?
  {
    hide PlanLayout, InsertLeaf;
    TrialsIgnoreTheRequest(input, again, base, beside, target, content, [preferred]);
    assert [preferred][1..] == [];
    if input.axis.None? {
      assert AxesToTry(preferred, input.axis)[0] == preferred;
    }
  }
}
