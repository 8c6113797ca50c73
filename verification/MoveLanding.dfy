/** Where a moved window lands when something faces it or lies ahead, branch by branch, said of tree and frames alone. */
module MoveLanding {
  import opened Geometry
  import opened BspTree
  import opened Partition
  import opened Planner
  import opened Policies
  import opened Subtrees
  import opened GeometricMove
  import opened GeometricMoveProofs
  import opened GeometricEdgeProofs
  import opened GeometricMoveTheorems
  import opened SwapTheorems
  import opened SwapInTree
  import opened MoveBack
  import opened MoveTargets

  // ---------------------------------------------------------------- the one window headed for

  lemma HeadsForOne(input: MoveInput, a: WindowId, b: WindowId)
    requires AllSeen(input) && HeadsFor(input, a) && HeadsFor(input, b)
    ensures a == b
  {
    hide Has, NoWorse, Ahead;
    var axis, from := Dimension(input.direction), input.frames[input.moved];
    var k: nat :| PlacedFirstAt(input, a, k);
    var m: nat :| PlacedFirstAt(input, b, m);
    assert NoWorse(from, input.frames[a], input.frames[b], axis) && NoWorse(from, input.frames[b], input.frames[a], axis);
  }

  /** The regions behind the window headed for. */
  lemma Facing(input: MoveInput, target: WindowId) returns (o: Region, t: Region)
    requires Distinct(input.tree) && AllSeen(input) && HeadsFor(input, target)
    ensures Visit(input.tree, [], input.frames).1.Some?
    ensures Situated(input, o, t) && t.node == Leaf(target) && o in LeafRegions(input) && t in LeafRegions(input)
    ensures o.frame == input.frames[input.moved] && t.frame == input.frames[target]
    ensures var regions, axis := Visit(input.tree, [], input.frames).0, Dimension(input.direction);
            MoveGeometrically(input) == if Share(o.frame, t.frame, Other(axis), 1) then MoveDirect(input, o, t, regions, axis)
                                        else MoveDiagonal(input, o, t, axis)
  {
    hide Has, Distinct, HeadsFor, Visit, Ahead, Keep, ForwardTarget, MoveDirect, MoveDiagonal, Origin, Overlap, Share, AtPath;
    OriginIffSeen(input);
    o := Origin(input).value;
    var axis, before := Dimension(input.direction), MovedLeafIsFirst(input.direction);
    TargetIsHeadedFor(input, o);
    HeadedIsAhead(input, target);
    t := ForwardTarget(o, LeafRegions(input), axis, before).value;
    HeadsForOne(input, t.node.id, target);
    LeafRegionFacts(input, o);
    LeafRegionFacts(input, t);
    ParentsAreSplits(input, o, t);
    SharingIsOverlap(o.frame, t.frame, Other(axis), 1);
  }

  lemma HeadedIsAhead(input: MoveInput, target: WindowId)
    requires AllSeen(input) && HeadsFor(input, target)
    ensures !NothingAhead(input) && target != input.moved && Has(input.tree, target)
  {
    hide NoWorse, FirstOfItsPlace;
  }

  // ---------------------------------------------------------------- a pair put in one window's place

  lemma {:induction false} PairCollapses(tree: Node, id: WindowId, moved: WindowId, pair: Node)
    requires Distinct(tree) && Has(tree, id) && !Has(tree, moved) && id != moved && pair.Split?
    requires (pair.first == Leaf(id) && pair.second == Leaf(moved)) || (pair.first == Leaf(moved) && pair.second == Leaf(id))
    ensures RemoveLeaf(Replace(tree, Leaf(id), pair), moved) == Some(tree)
    ensures Sub(Replace(tree, Leaf(id), pair), pair)
  {
    if tree.Split? {
      DistinctParts(tree);
      HasInParts(tree);
      HasLeaf(tree.first, id);
      HasLeaf(tree.second, id);
      hide Has, Distinct;
      if Has(tree.first, id) {
        PairCollapses(tree.first, id, moved, pair);
        ReplaceMissing(tree.second, Leaf(id), pair);
      } else {
        PairCollapses(tree.second, id, moved, pair);
        ReplaceMissing(tree.first, Leaf(id), pair);
      }
    }
  }

  /** The tree without the moved window is the same before and after, and the pair is in it. */
  ghost predicate OnlyPairedUp(tree: Node, result: Node, moved: WindowId, pair: Node) {
    Sub(result, pair) && RemoveLeaf(result, moved) == RemoveLeaf(tree, moved)
  }

  lemma PairedUp(input: MoveInput, origin: Region, target: Region, pair: Node)
    requires Situated(input, origin, target) && target.node.Leaf? && pair.Split?
    requires (pair.first == target.node && pair.second == origin.node) || (pair.first == origin.node && pair.second == target.node)
    ensures OnlyPairedUp(input.tree, Replace(Without(input.tree, input.moved), target.node, pair), input.moved, pair)
  {
    hide Replace, Sub, AtPath, Distinct, Has;
    SituatedFacts(input, origin, target);
    HasLeaf(input.tree, input.moved);
    HasLeaf(input.tree, target.node.id);
    RemoveLeafConserves(input.tree, input.moved);
    var rest := Without(input.tree, input.moved);
    StillThere(input.tree, rest, input.moved, target.node.id);
    PairCollapses(rest, target.node.id, input.moved, pair);
  }

  lemma StillThere(tree: Node, rest: Node, moved: WindowId, id: WindowId)
    requires Bag(rest) + multiset{moved} == Bag(tree) && id != moved && Has(tree, id)
    ensures Has(rest, id)
  {
    assert Bag(tree)[id] == Bag(rest)[id] + multiset{moved}[id];
  }

  /** Nothing faces it: the moved window and the one it heads for become a pair across the move, half and half, in that
      one's place, the moved one on the side it came from. */
  lemma DiagonalMoveLands(input: MoveInput, target: WindowId)
    requires Distinct(input.tree) && AllSeen(input) && HeadsFor(input, target)
    requires !Share(input.frames[input.moved], input.frames[target], Other(Dimension(input.direction)), 1)
    ensures var across := Other(Dimension(input.direction));
            var near := Start(input.frames[input.moved], across) < Start(input.frames[target], across);
            var pair := Split(across, 0.5, Leaf(if near then input.moved else target), Leaf(if near then target else input.moved));
            OnlyPairedUp(input.tree, MoveGeometrically(input), input.moved, pair)
  {
    hide Has, Distinct, HeadsFor, AllSeen, Visit, MoveGeometrically, MoveDirect, Share, Situated, Replace, Without, OnlyPairedUp;
    var o, t := Facing(input, target);
    var across := Other(Dimension(input.direction));
    SituatedNodes(input, o, t);
    PairedUp(input, o, t, SplitToward(across, 0.5, o.node, t.node, Start(o.frame, across) < Start(t.frame, across)));
  }

  lemma SituatedNodes(input: MoveInput, origin: Region, target: Region)
    requires Situated(input, origin, target)
    ensures origin.node == Leaf(input.moved) && target.node != origin.node
  {
  }

  // ---------------------------------------------------------------- parents

  predicate IsParent(p: Node, child: Node) {
    p.Split? && (p.first == child || p.second == child)
  }

  lemma {:induction false} ParentOnce(tree: Node, id: WindowId, p: Node, q: Node)
    requires Distinct(tree) && Sub(tree, p) && Sub(tree, q) && IsParent(p, Leaf(id)) && IsParent(q, Leaf(id))
    ensures p == q
  {
    if tree.Split? {
      DistinctParts(tree);
      ChildBelow(tree, id, p);
      ChildBelow(tree, id, q);
      hide Has, Distinct;
      if tree != p && tree != q {
        if Has(tree.first, id) {
          ParentOnce(tree.first, id, p, q);
        } else {
          ParentOnce(tree.second, id, p, q);
        }
      } else if tree == p {
        NotBelowItself(tree, id, q);
      } else {
        NotBelowItself(tree, id, p);
      }
    }
  }

  /** A parent inside the tree is the tree or in the half that has the child. */
  lemma ChildBelow(tree: Node, id: WindowId, p: Node)
    requires tree.Split? && Distinct(tree) && Sub(tree, p) && IsParent(p, Leaf(id))
    ensures tree == p || (Sub(tree.first, p) && Has(tree.first, id) && !Has(tree.second, id))
         || (Sub(tree.second, p) && Has(tree.second, id) && !Has(tree.first, id))
  {
    DistinctParts(tree);
    if tree != p {
      assert Has(Leaf(id), id);
      HasInParts(p);
      if Sub(tree.first, p) { SubHas(tree.first, p, id); } else { SubHas(tree.second, p, id); }
    }
  }

  lemma NotBelowItself(tree: Node, id: WindowId, q: Node)
    requires Distinct(tree) && IsParent(tree, Leaf(id)) && Sub(tree, q) && IsParent(q, Leaf(id))
    ensures tree == q
  {
    ChildBelow(tree, id, q);
    assert Has(Leaf(id), id);
    DistinctParts(tree);
  }

  lemma LastIsParent(input: MoveInput, origin: Region, target: Region, p: Node, q: Node)
    requires Situated(input, origin, target) && target.node.Leaf?
    requires Sub(input.tree, p) && Sub(input.tree, q) && IsParent(p, origin.node) && IsParent(q, target.node)
    ensures Last(origin.path) == p && Last(target.path) == q
  {
    hide Distinct, AtPath, Sub;
    SituatedFacts(input, origin, target);
    ParentOnce(input.tree, input.moved, Last(origin.path), p);
    ParentOnce(input.tree, target.node.id, Last(target.path), q);
  }

  /** The windows of one pane, each with its path through the splits that have it. */
  lemma OnPathIffHas(input: MoveInput, origin: Region, target: Region, q: Node)
    requires Situated(input, origin, target) && Sub(input.tree, q) && q.Split?
    ensures q in origin.path <==> Has(q, input.moved)
  {
    hide AtPath, Distinct;
    AtPathIsSub(input.tree, origin.path, origin.node);
    HasLeaf(q, input.moved);
    if Has(q, input.moved) {
      BetweenIsOnPath(input.tree, origin.path, origin.node, q);
    }
  }

  // ---------------------------------------------------------------- facing windows

  /** The borders across the move are within two points of one another. */
  predicate LinedUp(a: Frame, b: Frame, across: Axis) {
    && Start(a, across) - 2 <= Start(b, across) <= Start(a, across) + 2
    && End(a, across) - 2 <= End(b, across) <= End(a, across) + 2
  }

  /** Both are panes of the run of the split that parts them. */
  ghost predicate InOneRun(tree: Node, axis: Axis, a: WindowId, b: WindowId, run: Node) {
    Sub(tree, run) && Parts(run, a, b) && Leaf(a) in Flatten(run, axis) && Leaf(b) in Flatten(run, axis)
  }

  lemma {:induction false} PaneParentsOnAxis(run: Node, axis: Axis, id: WindowId, p: Node)
    requires Distinct(run) && Leaf(id) in Flatten(run, axis) && Sub(run, p) && IsParent(p, Leaf(id))
    ensures p.axis == axis
  {
    if run.Split? && run.axis == axis {
      ChildBelow(run, id, p);
      DistinctParts(run);
      if run != p {
        hide Distinct;
        var k :| 0 <= k < |Flatten(run, axis)| && Flatten(run, axis)[k] == Leaf(id);
        PaneIsInHalf(run, axis, k, id);
        if Has(run.first, id) {
          PaneParentsOnAxis(run.first, axis, id, p);
        } else {
          PaneParentsOnAxis(run.second, axis, id, p);
        }
      }
    }
  }

  /** A facing neighbour in the run: the run's panes are as before but for the two, which have changed places. */
  lemma RunMoveLands(input: MoveInput, target: WindowId, run: Node)
    requires Distinct(input.tree) && AllSeen(input) && HeadsFor(input, target)
    requires Share(input.frames[input.moved], input.frames[target], Other(Dimension(input.direction)), 1)
    requires InOneRun(input.tree, Dimension(input.direction), input.moved, target, run)
    ensures exists exchanged, i, j ::
              var axis := Dimension(input.direction);
              var panes := Flatten(run, axis);
              && 0 <= i < |panes| && 0 <= j < |panes| && panes[i] == Leaf(input.moved) && panes[j] == Leaf(target)
              && Flatten(exchanged, axis) == panes[i := panes[j]][j := panes[i]]
              && MoveGeometrically(input) == Replace(input.tree, run, exchanged)
  {
    hide Has, Distinct, HeadsFor, AllSeen, Visit, MoveGeometrically, Share, Replace, Without, Flatten, SwapAlongAxis,
         CommonAncestor, AtPath, Sub, Parts, Close, SwapAlignedFrames, CarryDivider, TradePlaces;
    var o, t := Facing(input, target);
    var axis := Dimension(input.direction);
    CommonAncestorParts(input.tree, o.path, t.path, input.moved, target);
    PartsOnce(input.tree, input.moved, target, CommonAncestor(o.path, t.path).value, run);
    var i, j := IndexOf(Flatten(run, axis), o.node), IndexOf(Flatten(run, axis), t.node);
    SwapAlongAxisIsSwapped(input.tree, run, o, t, input.frames, axis, input.gap);
    SwappedPanes(run, axis, input.frames, i, j, input.gap);
    var exchanged := Swapped(run, axis, input.frames, i, j, input.gap);
    RunParents(input, o, t, run);
    assert MoveGeometrically(input) == Replace(input.tree, run, exchanged);
    assert Flatten(exchanged, axis) == Flatten(run, axis)[i := Flatten(run, axis)[j]][j := Flatten(run, axis)[i]];
  }

  lemma RunParents(input: MoveInput, origin: Region, target: Region, run: Node)
    requires Situated(input, origin, target) && target.node.Leaf?
    requires InOneRun(input.tree, Dimension(input.direction), input.moved, target.node.id, run)
    ensures origin.path != [] && target.path != []
    ensures Last(origin.path).Split? && Last(origin.path).axis == Dimension(input.direction)
    ensures Last(target.path).Split? && Last(target.path).axis == Dimension(input.direction)
  {
    hide AtPath, Flatten, Has, Distinct;
    var axis := Dimension(input.direction);
    SituatedFacts(input, origin, target);
    SubDistinct(input.tree, run);
    PartsHaveBoth(run, input.moved, target.node.id);
    ParentInside(input.tree, run, input.moved, Last(origin.path), axis);
    ParentInside(input.tree, run, target.node.id, Last(target.path), axis);
    PaneParentsOnAxis(run, axis, input.moved, Last(origin.path));
    PaneParentsOnAxis(run, axis, target.node.id, Last(target.path));
  }

  /** The parent of a window is inside every split that has the window. */
  lemma {:induction false} ParentInside(tree: Node, part: Node, id: WindowId, p: Node, axis: Axis)
    requires Distinct(tree) && Sub(tree, part) && part.Split? && Has(part, id) && Sub(tree, p) && IsParent(p, Leaf(id))
    ensures Sub(part, p)
  {
    if tree != part {
      ChildBelow(tree, id, p);
      DistinctParts(tree);
      if Sub(tree.first, part) {
        SubHas(tree.first, part, id);
      } else {
        SubHas(tree.second, part, id);
      }
      hide Distinct;
      if tree == p {
        LeafHasNoSplit(tree, part, id);
      } else if Has(tree.first, id) {
        PartBelow(tree, part, id);
        ParentInside(tree.first, part, id, p, axis);
      } else {
        PartBelow(tree, part, id);
        ParentInside(tree.second, part, id, p, axis);
      }
    }
  }

  lemma PartBelow(tree: Node, part: Node, id: WindowId)
    requires tree.Split? && Distinct(tree) && Sub(tree, part) && tree != part && Has(part, id)
    ensures Has(tree.first, id) ==> Sub(tree.first, part)
    ensures Has(tree.second, id) ==> Sub(tree.second, part)
  {
    DistinctParts(tree);
    if Sub(tree.first, part) { SubHas(tree.first, part, id); }
    if Sub(tree.second, part) { SubHas(tree.second, part, id); }
  }

  lemma LeafHasNoSplit(tree: Node, part: Node, id: WindowId)
    requires Distinct(tree) && IsParent(tree, Leaf(id)) && Sub(tree, part) && part.Split? && Has(part, id)
    ensures tree == part
  {
    if tree != part {
      PartBelow(tree, part, id);
      HasInParts(tree);
      DistinctParts(tree);
    }
  }

  /** Facing but not lined up, from a pair across the move: the moved window leaves its pair, and pairs up in the same way
      with the window it heads for, in that one's place. */
  lemma CarriedMoveLands(input: MoveInput, target: WindowId, p: Node)
    requires Distinct(input.tree) && AllSeen(input) && HeadsFor(input, target)
    requires var axis, f, g := Dimension(input.direction), input.frames[input.moved], input.frames[target];
             && Share(f, g, Other(axis), 1) && !LinedUp(f, g, Other(axis))
             && Sub(input.tree, p) && IsParent(p, Leaf(input.moved)) && p.axis != axis
    ensures var first := p.first == Leaf(input.moved);
            var pair := Split(p.axis, p.ratio, Leaf(if first then input.moved else target), Leaf(if first then target else input.moved));
            OnlyPairedUp(input.tree, MoveGeometrically(input), input.moved, pair)
  {
    hide Has, Distinct, HeadsFor, AllSeen, Visit, MoveGeometrically, Share, Replace, Without, OnlyPairedUp, SwapAlongAxis,
         CommonAncestor, AtPath, Sub, Parts, SwapAlignedFrames, TradePlaces;
    var o, t := Facing(input, target);
    SomeParent(input, o, t);
    LastIsParent(input, o, t, p, Last(t.path));
    CommonAncestorParts(input.tree, o.path, t.path, input.moved, target);
    OneChild(input.tree, p, input.moved);
    var pair := p.(first := if p.first == o.node then o.node else t.node, second := if p.second == o.node then o.node else t.node);
    PairedUp(input, o, t, pair);
  }

  lemma OneChild(tree: Node, p: Node, id: WindowId)
    requires Distinct(tree) && Sub(tree, p) && IsParent(p, Leaf(id))
    ensures p.first != p.second
  {
    hide Distinct;
    ChildrenDiffer(tree, p);
  }

  lemma SomeParent(input: MoveInput, origin: Region, target: Region)
    requires Situated(input, origin, target)
    ensures Sub(input.tree, Last(origin.path)) && IsParent(Last(origin.path), origin.node)
    ensures Sub(input.tree, Last(target.path)) && IsParent(Last(target.path), target.node)
  {
    hide AtPath, Distinct;
    SituatedFacts(input, origin, target);
  }

  /** The half of a split that is not this child. */
  function OtherHalf(p: Node, child: Node): Node
    requires p.Split?
  {
    if p.first == child then p.second else p.first
  }

  /** Facing but not lined up, from a pair along the move to one across it: as if the two windows changed places and the
      pair that the moved one came into was turned round. A pair the moved window is in already stays. */
  lemma TradedMoveLands(input: MoveInput, target: WindowId, p: Node, q: Node)
    requires Distinct(input.tree) && AllSeen(input) && HeadsFor(input, target)
    requires var axis, f, g := Dimension(input.direction), input.frames[input.moved], input.frames[target];
             && Share(f, g, Other(axis), 1) && !LinedUp(f, g, Other(axis))
             && Sub(input.tree, p) && IsParent(p, Leaf(input.moved)) && p.axis == axis
             && Sub(input.tree, q) && IsParent(q, Leaf(target)) && q.axis != axis
    ensures var rest := OtherHalf(q, Leaf(target));
            var first := q.first == Leaf(target);
            var came := q.(first := if first then Leaf(input.moved) else rest, second := if first then rest else Leaf(input.moved));
            if Has(q, input.moved) then MoveGeometrically(input) == input.tree
            else MoveGeometrically(input)
                 == Replace(SwapLeaves(input.tree, input.moved, target), came, came.(first := came.second, second := came.first))
  {
    hide Has, Distinct, HeadsFor, AllSeen, Visit, MoveGeometrically, Share, Replace, Without, SwapAlongAxis,
         CommonAncestor, AtPath, Sub, Parts, SwapAlignedFrames, CarryDivider, SwapLeaves;
    var o, t := Facing(input, target);
    LastIsParent(input, o, t, p, q);
    CommonAncestorParts(input.tree, o.path, t.path, input.moved, target);
    OnPathIffHas(input, o, t, q);
    if !Has(q, input.moved) {
      OneChild(input.tree, q, target);
      TradeIsExchange(input.tree, input.moved, target, q);
    }
  }

  lemma {:induction false} NotThere(tree: Node, a: WindowId, b: WindowId)
    requires !Has(tree, a) && !Has(tree, b)
    ensures SwapLeaves(tree, a, b) == tree
  {
    if tree.Split? {
      HasInParts(tree);
      NotThere(tree.first, a, b);
      NotThere(tree.second, a, b);
    } else {
      assert Has(tree, tree.id);
    }
  }

  /** Where only the moved window is, exchanging the two is putting the target in its place. */
  lemma {:induction false} OnlyMoved(tree: Node, a: WindowId, b: WindowId)
    requires !Has(tree, b)
    ensures SwapLeaves(tree, a, b) == Replace(tree, Leaf(a), Leaf(b))
  {
    if tree.Split? {
      HasInParts(tree);
      OnlyMoved(tree.first, a, b);
      OnlyMoved(tree.second, a, b);
    } else {
      assert Has(tree, tree.id);
    }
  }

  lemma ParentExchanged(q: Node, a: WindowId, b: WindowId)
    requires Distinct(q) && IsParent(q, Leaf(b)) && !Has(q, a)
    ensures var rest := OtherHalf(q, Leaf(b));
            SwapLeaves(q, a, b) == if q.first == Leaf(b) then q.(first := Leaf(a), second := rest)
                                   else q.(first := rest, second := Leaf(a))
    ensures Replace(q, Leaf(a), Leaf(b)) == q
  {
    DistinctParts(q);
    HasInParts(q);
    assert Has(Leaf(b), b);
    NotThere(OtherHalf(q, Leaf(b)), a, b);
    HasLeaf(q, a);
    ReplaceMissing(q, Leaf(a), Leaf(b));
  }

  lemma ExchangedHas(tree: Node, a: WindowId, b: WindowId)
    ensures Has(SwapLeaves(tree, a, b), a) <==> Has(tree, b)
    ensures Has(SwapLeaves(tree, a, b), b) <==> Has(tree, a)
    decreases tree
  {
    if tree.Split? {
      HasInParts(tree);
      HasInParts(SwapLeaves(tree, a, b));
      ExchangedHas(tree.first, a, b);
      ExchangedHas(tree.second, a, b);
    } else {
      assert Has(tree, tree.id) && Has(SwapLeaves(tree, a, b), SwapLeaves(tree, a, b).id);
    }
  }

  /** Putting the target where the moved window was, and then turning its old pair round with the moved window in it. */
  lemma {:induction false} TradeIsExchange(tree: Node, a: WindowId, b: WindowId, q: Node)
    requires Distinct(tree) && a != b && Sub(tree, q) && IsParent(q, Leaf(b)) && !Has(q, a)
    ensures var rest := OtherHalf(q, Leaf(b));
            var first := q.first == Leaf(b);
            var came := q.(first := if first then Leaf(a) else rest, second := if first then rest else Leaf(a));
            var turned := came.(first := came.second, second := came.first);
            Replace(Replace(tree, Leaf(a), Leaf(b)), q, turned) == Replace(SwapLeaves(tree, a, b), came, turned)
  {
    var rest := OtherHalf(q, Leaf(b));
    var first := q.first == Leaf(b);
    var came := q.(first := if first then Leaf(a) else rest, second := if first then rest else Leaf(a));
    var turned := came.(first := came.second, second := came.first);
    SubDistinct(tree, q);
    ParentExchanged(q, a, b);
    assert SwapLeaves(q, a, b) == came;
    if tree != q {
      ChildBelow(tree, b, q);
      DistinctParts(tree);
      var half := if Has(tree.first, b) then tree.first else tree.second;
      var other := if Has(tree.first, b) then tree.second else tree.first;
      var id := SomeWindow(rest);
      RestIsElsewhere(q, a, b, id);
      SubHas(half, q, id);
      ExchangedHas(q, a, b);
      ApartFromPair(tree, a, b, q);
      hide Has, Distinct;
      TradeIsExchange(half, a, b, q);
      ReplaceOnce(Replace(tree, Leaf(a), Leaf(b)), q, turned);
      ReplaceOnce(SwapLeaves(tree, a, b), came, turned);
      TheOther(other, a, b, q, came, turned, id);
    }
  }

  lemma RestIsElsewhere(q: Node, a: WindowId, b: WindowId, id: WindowId)
    requires Distinct(q) && IsParent(q, Leaf(b)) && !Has(q, a) && Has(OtherHalf(q, Leaf(b)), id)
    ensures Has(q, id) && id != a && id != b && Has(q, b)
  {
    HasInParts(q);
    DistinctParts(q);
    assert Has(Leaf(b), b);
  }

  lemma {:induction false} OthersStay(tree: Node, a: WindowId, b: WindowId, id: WindowId)
    requires id != a && id != b
    ensures Has(SwapLeaves(tree, a, b), id) <==> Has(tree, id)
  {
    if tree.Split? {
      HasInParts(tree);
      HasInParts(SwapLeaves(tree, a, b));
      OthersStay(tree.first, a, b, id);
      OthersStay(tree.second, a, b, id);
    } else {
      assert Has(tree, tree.id) && Has(SwapLeaves(tree, a, b), SwapLeaves(tree, a, b).id);
    }
  }

  /** In the half without the pair there is nothing to turn round. */
  lemma TheOther(other: Node, a: WindowId, b: WindowId, q: Node, came: Node, turned: Node, id: WindowId)
    requires !Has(other, b) && Has(came, a) && Has(q, id) && id != a && id != b && !Has(other, id)
    ensures Replace(Replace(other, Leaf(a), Leaf(b)), q, turned) == Replace(SwapLeaves(other, a, b), came, turned)
  {
    hide Has;
    var changed := SwapLeaves(other, a, b);
    OnlyMoved(other, a, b);
    ExchangedHas(other, a, b);
    OthersStay(other, a, b, id);
    if Sub(changed, q) { SubHas(changed, q, id); }
    if Sub(changed, came) { SubHas(changed, came, a); }
    ReplaceMissing(changed, q, turned);
    ReplaceMissing(changed, came, turned);
  }

  lemma {:induction false} AsManyLeaves(tree: Node, a: WindowId, b: WindowId)
    ensures |Leaves(Replace(tree, Leaf(a), Leaf(b)))| == |Leaves(tree)|
  {
    if tree.Split? {
      AsManyLeaves(tree.first, a, b);
      AsManyLeaves(tree.second, a, b);
    }
  }

  lemma ApartFromPair(tree: Node, a: WindowId, b: WindowId, q: Node)
    requires Sub(tree, q) && tree != q
    ensures Replace(tree, Leaf(a), Leaf(b)) != q
    ensures SwapLeaves(tree, a, b) != SwapLeaves(q, a, b)
  {
    hide Sub, Leaves, Replace, SwapLeaves;
    AsManyLeaves(tree, a, b);
    FewerLeaves(tree, q);
  }

  // ---------------------------------------------------------------- moves that lead nowhere

  /** A layout that is not completely seen, or a window that is alone or not in it, stays as it is. */
  lemma UnseenStays(input: MoveInput)
    requires !AllSeen(input)
    ensures MoveGeometrically(input) == input.tree
  {
    hide AllSeen, Origin, ForwardTarget, Visit, Keep, MoveAtEdge, MoveDirect, MoveDiagonal;
    OriginIffSeen(input);
  }

  /** Facing but not lined up, both from pairs along the move but not of one run: nothing changes. */
  lemma StuckMoveStays(input: MoveInput, target: WindowId, p: Node, q: Node, run: Node)
    requires Distinct(input.tree) && AllSeen(input) && HeadsFor(input, target)
    requires var axis, f, g := Dimension(input.direction), input.frames[input.moved], input.frames[target];
             && Share(f, g, Other(axis), 1) && !LinedUp(f, g, Other(axis))
             && Sub(input.tree, p) && IsParent(p, Leaf(input.moved)) && p.axis == axis
             && Sub(input.tree, q) && IsParent(q, Leaf(target)) && q.axis == axis
    requires Sub(input.tree, run) && Parts(run, input.moved, target)
             && !InOneRun(input.tree, Dimension(input.direction), input.moved, target, run)
    ensures MoveGeometrically(input) == input.tree
  {
    hide Has, Distinct, HeadsFor, AllSeen, Visit, MoveGeometrically, Share, Replace, Without, SwapAlongAxis,
         CommonAncestor, AtPath, Sub, Parts, SwapAlignedFrames, CarryDivider, TradePlaces, Flatten;
    var o, t := Facing(input, target);
    LastIsParent(input, o, t, p, q);
    CommonAncestorParts(input.tree, o.path, t.path, input.moved, target);
    PartsOnce(input.tree, input.moved, target, CommonAncestor(o.path, t.path).value, run);
    NoSwapAlong(input, o, t, run);
  }

  lemma NoSwapAlong(input: MoveInput, o: Region, t: Region, run: Node)
    requires Sub(input.tree, run) && t.node.Leaf? && Parts(run, input.moved, t.node.id) && o.node == Leaf(input.moved)
    requires !InOneRun(input.tree, Dimension(input.direction), input.moved, t.node.id, run)
    ensures SwapAlongAxis(input.tree, run, o, t, Visit(input.tree, [], input.frames).0, Dimension(input.direction), input.gap).None?
  {
    hide Parts, Sub, Flatten, Visit, Rebuild;
  }
}
