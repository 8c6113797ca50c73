/** Which pane a new window shares, and how, said of the input alone. */
module InsertionLaws {
  import opened Geometry
  import opened BspTree
  import opened Partition
  import opened Planner
  import opened Policies
  import opened Insertion

  /** The window asked for, if it is a tile; with none asked for, the remembered one, if that is a tile; else the first
      of the tree. */
  ghost predicate IsNeighbour(input: InsertionInput, neighbour: WindowId) {
    var asked := input.beside.Some?;
    var known := (id: WindowId) => id in Leaves(input.tree) && id != EMPTY_LEAF;
    && (asked && known(input.beside.value) ==> neighbour == input.beside.value)
    && (!asked && input.remembered.Some? && known(input.remembered.value) ==> neighbour == input.remembered.value)
    && (asked && !known(input.beside.value) ==> neighbour == Leaves(input.tree)[0])
    && (!asked && (input.remembered.None? || !known(input.remembered.value)) ==> neighbour == Leaves(input.tree)[0])
  }

  lemma LeavesAreWindows(tree: Node, id: WindowId)
    ensures id in Leaves(tree) <==> Has(tree, id)
  {
    BagCountsLeaves(tree);
  }

  lemma BesideIsNeighbour(input: InsertionInput)
    ensures IsNeighbour(input, BesideOf(input))
    ensures forall id :: IsNeighbour(input, id) ==> id == BesideOf(input)
  {
    BagCountsLeaves(input.tree);
  }

  /** `later` is `before` with the new one put in right after the first occurrence of the neighbour. */
  ghost predicate JoinsAfter(before: seq<WindowId>, later: seq<WindowId>, neighbour: WindowId, newId: WindowId) {
    exists ahead, behind :: JoinsBetween(before, later, ahead, behind, neighbour, newId)
  }

  predicate JoinsBetween(before: seq<WindowId>, later: seq<WindowId>, ahead: seq<WindowId>, behind: seq<WindowId>,
                         neighbour: WindowId, newId: WindowId)
  {
    neighbour !in ahead && before == ahead + [neighbour] + behind && later == ahead + [neighbour] + [newId] + behind
  }

  lemma JoinsInFirst(a: seq<WindowId>, b: seq<WindowId>, later: seq<WindowId>, neighbour: WindowId, newId: WindowId)
    requires JoinsAfter(a, later, neighbour, newId)
    ensures JoinsAfter(a + b, later + b, neighbour, newId)
  {
    var ahead, behind :| JoinsBetween(a, later, ahead, behind, neighbour, newId);
    assert JoinsBetween(a + b, later + b, ahead, behind + b, neighbour, newId);
  }

  lemma JoinsInSecond(a: seq<WindowId>, b: seq<WindowId>, later: seq<WindowId>, neighbour: WindowId, newId: WindowId)
    requires JoinsAfter(b, later, neighbour, newId) && neighbour !in a
    ensures JoinsAfter(a + b, a + later, neighbour, newId)
  {
    var ahead, behind :| JoinsBetween(b, later, ahead, behind, neighbour, newId);
    assert JoinsBetween(a + b, a + later, a + ahead, behind, neighbour, newId);
  }

  /** Somewhere in the tree the neighbour and the new window share a split, half and half, the neighbour first. */
  ghost predicate SharesHalfAndHalf(tree: Node, axis: Axis, neighbour: WindowId, newId: WindowId) {
    tree.Split? && (tree == Split(axis, 0.5, Leaf(neighbour), Leaf(newId))
                    || SharesHalfAndHalf(tree.first, axis, neighbour, newId)
                    || SharesHalfAndHalf(tree.second, axis, neighbour, newId))
  }

  lemma {:induction false} InsertedJoins(tree: Node, neighbour: WindowId, newId: WindowId, frame: Option<Frame>, axis: Axis)
    requires Has(tree, neighbour)
    ensures var r := InsertLeaf(tree, neighbour, newId, frame, Some(axis));
            && r.Some? && JoinsAfter(Leaves(tree), Leaves(r.value), neighbour, newId)
            && SharesHalfAndHalf(r.value, axis, neighbour, newId)
  {
    var r := InsertLeaf(tree, neighbour, newId, frame, Some(axis)).value;
    if tree.Leaf? {
      assert JoinsBetween(Leaves(tree), Leaves(r), [], [], neighbour, newId);
    } else {
      HasInParts(tree);
      if Has(tree.first, neighbour) {
        InsertedJoins(tree.first, neighbour, newId, frame, axis);
        JoinsInFirst(Leaves(tree.first), Leaves(tree.second), Leaves(r.first), neighbour, newId);
      } else {
        InsertedJoins(tree.second, neighbour, newId, frame, axis);
        LeavesAreWindows(tree.first, neighbour);
        JoinsInSecond(Leaves(tree.first), Leaves(tree.second), Leaves(r.second), neighbour, newId);
      }
    }
  }

  lemma {:induction false} RetainingKeepsLeaves(node: Node, target: WindowId, frames: Frames, gap: int)
    ensures Leaves(RetainPathDividers(node, target, frames, gap)) == Leaves(node)
  {
    hide RetainedRatio, SubtreeLength;
    if node.Split? {
      RetainingKeepsLeaves(node.first, target, frames, gap);
      RetainingKeepsLeaves(node.second, target, frames, gap);
    }
  }

  /** What one trial or another settled on. */
  lemma {:induction false} TriedIsOneOfThem(input: InsertionInput, base: Node, beside: WindowId, target: Frame, content: Frame,
                                            axes: seq<Axis>)
    requires TryAxes(input, base, beside, target, content, axes).Some?
    ensures var plan := TryAxes(input, base, beside, target, content, axes).value;
            && plan.axis.Some? && plan.axis.value in axes && plan.beside == Some(beside)
            && InsertLeaf(base, beside, input.newId, Some(target), plan.axis) == Some(plan.tree)
            && PlannedFrame(PlanLayout(LayoutOf(input, plan.tree, content), [GreedyPolicy]), input.newId) == Some(plan.frame)
    decreases |axes|
  {
    hide InsertLeaf, PlanLayout;
    var tree := InsertLeaf(base, beside, input.newId, Some(target), Some(axes[0]));
    var rest := TryAxes(input, base, beside, target, content, axes[1..]);
    if tree.None?
       || PlanLayout(LayoutOf(input, Pair(axes[0], beside, input.newId), target), [GreedyPolicy]).Infeasible?
       || PlannedFrame(PlanLayout(LayoutOf(input, tree.value, content), [GreedyPolicy]), input.newId).None?
    {
      assert TryAxes(input, base, beside, target, content, axes) == rest;
      TriedIsOneOfThem(input, base, beside, target, content, axes[1..]);
    }
  }

  /** A greedy plan is also what the default chain comes to. */
  lemma GreedyIsDefault(input: InsertionInput, tree: Node, content: Frame)
    requires PlanLayout(LayoutOf(input, tree, content), [GreedyPolicy]).Feasible?
    ensures PlanLayout(LayoutOf(input, tree, content), [GreedyPolicy]) == PlanLayout(LayoutOf(input, tree, content), DEFAULT_CHAIN)
  {
    hide Solve;
    GreedyOnly(input, tree, content);
    GreedyWhenItFits(LayoutOf(input, tree, content));
  }

  /** Wherever the plan comes from: the new window shares the pane of the window asked for, else of the remembered one,
      else of the first, right behind it, half and half, along the axis asked for; nothing else moves in the tree's order;
      and the frame it is promised is the one the new tree gives it. */
  lemma InsertionJoinsTheNeighbour(input: InsertionInput)
    requires PlanInsertion(input).Some? && !IsEmptyTree(input.tree)
    ensures input.content.Some?
    ensures var plan := PlanInsertion(input).value;
            && plan.beside.Some? && plan.axis.Some? && IsNeighbour(input, plan.beside.value)
            && (input.axis.Some? ==> plan.axis == input.axis)
            && JoinsAfter(Leaves(input.tree), Leaves(plan.tree), plan.beside.value, input.newId)
            && SharesHalfAndHalf(plan.tree, plan.axis.value, plan.beside.value, input.newId)
            && var layout := PlanLayout(LayoutInput(plan.tree, input.content.value, Some(input.gap), input.resolve), DEFAULT_CHAIN);
               layout.Feasible? && input.newId in layout.frames && layout.frames[input.newId] == plan.frame
  {
    hide InsertLeaf, PlanLayout, TryAxes, BesideOf, RetainPathDividers, Leaves, JoinsAfter, SharesHalfAndHalf, IsNeighbour;
    BesideIsNeighbour(input);
    var content, beside := input.content.value, BesideOf(input);
    var current := PlanLayout(LayoutOf(input, input.tree, content), DEFAULT_CHAIN);
    var target := PlannedFrame(current, beside).value;
    var preferred := if input.axis.Some? then input.axis.value else AxisForFrame(target);
    var base := InsertionBase(input, current, beside);
    RetainingKeepsLeaves(input.tree, beside, current.frames, input.gap);
    var tried := TryAxes(input, base, beside, target, content, AxesToTry(preferred, input.axis));
    var plan := PlanInsertion(input).value;
    if tried.Some? {
      TriedIsOneOfThem(input, base, beside, target, content, AxesToTry(preferred, input.axis));
      GreedyIsDefault(input, plan.tree, content);
      InsertedJoins(base, beside, input.newId, Some(target), plan.axis.value);
    } else {
      InsertedJoins(input.tree, beside, input.newId, Some(target), preferred);
    }
  }

  /** The first window of an empty workspace is all of its tree, and is beside nobody. */
  lemma FirstWindowHasTheTree(input: InsertionInput)
    requires IsEmptyTree(input.tree)
    ensures var layout := PlanLayout(LayoutInput(Leaf(input.newId), if input.content.Some? then input.content.value else Frame(0, 0, 0, 0),
                                                 Some(input.gap), input.resolve), DEFAULT_CHAIN);
            && (PlanInsertion(input).Some? <==> input.content.Some? && layout.Feasible? && input.newId in layout.frames)
            && (PlanInsertion(input).Some? ==>
                  PlanInsertion(input) == Some(InsertionPlan(Leaf(input.newId), None, None, layout.frames[input.newId])))
  {
    hide PlanLayout;
  }

  /** In a greedy layout: which axis, and where in the neighbour's frame. With no axis asked for it is the one across the
      longer side, unless the frame can only be shared along the other. The neighbour keeps the first half of its frame,
      the new window gets the second. */
  lemma InsertionSplitsTheLongerSide(input: InsertionInput, frames: Frames, neighbour: WindowId, axis: Axis)
    requires input.content.Some? && Positive(input.content.value)
    requires !IsEmptyTree(input.tree) && Distinct(input.tree) && !Has(input.tree, input.newId)
    requires Solve(input.tree, input.content.value, input.gap, input.resolve) == Some(frames)
    requires IsNeighbour(input, neighbour) && neighbour in frames
    requires var pair := Split(axis, 0.5, Leaf(neighbour), Leaf(input.newId));
             Solve(pair, frames[neighbour], input.gap, input.resolve).Some?
    requires var f := frames[neighbour];
             var longer := if f.width >= f.height then Vertical else Horizontal;
             if input.axis.Some? then axis == input.axis.value
             else axis == longer || Solve(Split(longer, 0.5, Leaf(neighbour), Leaf(input.newId)), f, input.gap, input.resolve).None?
    ensures var pair := Split(axis, 0.5, Leaf(neighbour), Leaf(input.newId));
            var shared := Solve(pair, frames[neighbour], input.gap, input.resolve).value;
            var plan := PlanInsertion(input);
            && plan.Some? && plan.value.beside == Some(neighbour) && plan.value.axis == Some(axis)
            && Solve(plan.value.tree, input.content.value, input.gap, input.resolve) == Some(frames + shared)
            && input.newId in shared && plan.value.frame == shared[input.newId] && neighbour in shared
            && Start(shared[neighbour], axis) == Start(frames[neighbour], axis)
            && Start(shared[input.newId], axis) == End(shared[neighbour], axis) + input.gap
            && End(shared[input.newId], axis) == End(frames[neighbour], axis)
  {
    hide Solve, Distinct, Has, Bag, PlanInsertion, IsNeighbour, Leaves;
    BesideIsNeighbour(input);
    assert Pair(axis, neighbour, input.newId) == Split(axis, 0.5, Leaf(neighbour), Leaf(input.newId));
    InsertionDisturbsOnlyItsPane(input, frames);
    PairOfHalves(axis, neighbour, input.newId, frames[neighbour], input.gap, input.resolve);
  }

  lemma PairOfHalves(axis: Axis, neighbour: WindowId, newId: WindowId, rect: Frame, gap: int, resolve: Resolver)
    requires neighbour != newId && Solve(Split(axis, 0.5, Leaf(neighbour), Leaf(newId)), rect, gap, resolve).Some?
    ensures var shared := Solve(Split(axis, 0.5, Leaf(neighbour), Leaf(newId)), rect, gap, resolve).value;
            && newId in shared && neighbour in shared
            && Start(shared[neighbour], axis) == Start(rect, axis)
            && Start(shared[newId], axis) == End(shared[neighbour], axis) + gap
            && End(shared[newId], axis) == End(rect, axis)
  {
    var pair := Split(axis, 0.5, Leaf(neighbour), Leaf(newId));
    SolveOfSplit(pair, rect, gap, resolve);
    SplitLengths(pair, rect, gap, resolve);
    hide Halve;
  }
}
