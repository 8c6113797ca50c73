/** The directional move conserves windows: branch by branch, then as a whole. */
module GeometricMoveProofs {
  import opened Geometry
  import opened BspTree
  import opened Partition
  import opened Planner
  import opened Policies
  import opened Subtrees
  import opened GeometricMove

  // ---------------------------------------------------------------- where regions sit

  /** Every observed pane sits at the end of its path. */
  lemma {:induction false} VisitPlaces(node: Node, path: seq<Node>, frames: Frames, r: Region)
    requires r in Visit(node, path, frames).0
    ensures |path| <= |r.path| && r.path[..|path|] == path && AtPath(node, r.path[|path|..], r.node)
  {
    if node.Split? {
      var (inFirst, a) := Visit(node.first, path + [node], frames);
      var (inSecond, b) := Visit(node.second, path + [node], frames);
      if r in inFirst || r in inSecond {
        if r in inFirst {
          VisitPlaces(node.first, path + [node], frames, r);
        } else {
          VisitPlaces(node.second, path + [node], frames, r);
        }
        var n := |path|;
        assert r.path[..n + 1] == path + [node];
        assert r.path[n] == node;
        assert r.path[n..][1..] == r.path[n + 1..];
        assert r.path[..n] == r.path[..n + 1][..n] == path;
      } else {
        assert r.path[|path|..] == [];
      }
    } else {
      assert r.path[|path|..] == [];
    }
  }

  lemma {:induction false} CommonAncestorIsShared(a: seq<Node>, b: seq<Node>)
    requires CommonAncestor(a, b).Some?
    ensures CommonAncestor(a, b).value in a && CommonAncestor(a, b).value in b
  {
    if CommonAncestor(a[1..], b[1..]).Some? {
      CommonAncestorIsShared(a[1..], b[1..]);
    }
  }

  /** A pane on the way to a region: a split of the tree that holds it. */
  ghost predicate Holds(tree: Node, pane: Node, part: Node) {
    pane.Split? && Sub(tree, pane) && Sub(pane, part)
  }

  lemma OnPathHolds(tree: Node, r: Region, pane: Node)
    requires AtPath(tree, r.path, r.node) && pane in r.path
    ensures Holds(tree, pane, r.node)
  {
    AtPathIsSub(tree, r.path, r.node);
  }

  lemma CommonAncestorHolds(tree: Node, a: Region, b: Region)
    requires AtPath(tree, a.path, a.node) && AtPath(tree, b.path, b.node)
    requires CommonAncestor(a.path, b.path).Some?
    ensures var c := CommonAncestor(a.path, b.path).value; Holds(tree, c, a.node) && Holds(tree, c, b.node)
  {
    hide AtPath, CommonAncestor;
    CommonAncestorIsShared(a.path, b.path);
    OnPathHolds(tree, a, CommonAncestor(a.path, b.path).value);
    OnPathHolds(tree, b, CommonAncestor(a.path, b.path).value);
  }

  // ---------------------------------------------------------------- rebuilding runs

  function Nodes(panes: seq<SizedPane>): (r: seq<Node>)
    ensures |r| == |panes|
  {
    seq(|panes|, i requires 0 <= i < |panes| => panes[i].node)
  }

  lemma NodesBagSplits(panes: seq<SizedPane>, n: nat)
    requires n <= |panes|
    ensures BagOf(Nodes(panes)) == BagOf(Nodes(panes[..n])) + BagOf(Nodes(panes[n..]))
  {
    hide BagOf;
    assert Nodes(panes) == Nodes(panes[..n]) + Nodes(panes[n..]);
    BagOfConcat(Nodes(panes[..n]), Nodes(panes[n..]));
  }

  lemma {:induction false} RebuildBag(node: Node, axis: Axis, panes: seq<SizedPane>, gap: int)
    requires |panes| == |Flatten(node, axis)|
    ensures Bag(Rebuild(node, axis, panes, gap).node) == BagOf(Nodes(panes))
  {
    hide RatioForLength, BagOf, Nodes;
    if node.Split? && node.axis == axis {
      var n := |Flatten(node.first, axis)|;
      RebuildBag(node.first, axis, panes[..n], gap);
      RebuildBag(node.second, axis, panes[n..], gap);
      NodesBagSplits(panes, n);
    } else {
      OnePane(panes);
    }
  }

  lemma OnePane(panes: seq<SizedPane>)
    requires |panes| == 1
    ensures BagOf(Nodes(panes)) == Bag(panes[0].node)
  {
    assert Nodes(panes) == [panes[0].node];
    BagOfOne(panes[0].node);
  }

  lemma SwapAlongAxisConserves(tree: Node, ancestor: Node, origin: Region, target: Region,
                               regions: seq<Region>, dimension: Axis, gap: int)
    ensures var r := SwapAlongAxis(tree, ancestor, origin, target, regions, dimension, gap);
            r.Some? ==> Bag(r.value) == Bag(tree)
  {
    hide Bag, Replace, Flatten, Rebuild, BagOf;
    var panes := Flatten(ancestor, dimension);
    var from, to := IndexOf(panes, origin.node), IndexOf(panes, target.node);
    if from >= 0 && to >= 0 {
      var ordered := panes[from := panes[to]][to := panes[from]];
      SwapTwoBag(panes, from, to);
      FlattenBag(ancestor, dimension);
      var sized := Sized(ordered, regions, dimension);
      assert Nodes(sized) == ordered;
      RebuildBag(ancestor, dimension, sized, gap);
      RearrangeConserves(tree, ancestor, Rebuild(ancestor, dimension, sized, gap).node);
    }
  }

  lemma {:induction false} JoinBag(panes: seq<SizedPane>, axis: Axis, gap: int)
    requires panes != []
    ensures Bag(JoinPanes(panes, axis, gap).node) == BagOf(Nodes(panes))
  {
    if |panes| == 1 {
      assert Nodes(panes) == [panes[0].node];
      BagOfOne(panes[0].node);
    } else {
      JoinBag(panes[1..], axis, gap);
      assert Nodes(panes)[1..] == Nodes(panes[1..]);
    }
  }

  /** Joining a run in which two neighbours were merged into one pane. */
  lemma MergedRunConserves(tree: Node, run: Node, axis: Axis, regions: seq<Region>, at: nat, merged: SizedPane, gap: int)
    requires at + 1 < |Flatten(run, axis)|
    requires Bag(merged.node) == Bag(Flatten(run, axis)[at]) + Bag(Flatten(run, axis)[at + 1])
    ensures var ordered := Splice(Sized(Flatten(run, axis), regions, axis), at, 2, merged);
            ordered != [] && Bag(Replace(tree, run, JoinPanes(ordered, axis, gap).node)) == Bag(tree)
  {
    hide Bag, Replace, Flatten, JoinPanes, BagOf;
    var panes := Flatten(run, axis);
    var sized := Sized(panes, regions, axis);
    var ordered := Splice(sized, at, 2, merged);
    assert ordered == sized[..at] + [merged] + sized[at + 2..];
    assert Nodes(ordered) == panes[..at] + [merged.node] + panes[at + 2..];
    SplitAtTwo(panes, at);
    FlattenBag(run, axis);
    BagOfConcat(panes[..at] + [merged.node], panes[at + 2..]);
    BagOfConcat(panes[..at], [merged.node]);
    BagOfOne(merged.node);
    JoinBag(ordered, axis, gap);
    RearrangeConserves(tree, run, JoinPanes(ordered, axis, gap).node);
  }

  // ---------------------------------------------------------------- the moved pane taken out and put back

  /** The moved pane beside another pane of the tree. */
  ghost predicate Situated(input: MoveInput, origin: Region, target: Region) {
    && Distinct(input.tree)
    && origin.node == Leaf(input.moved)
    && target.node != origin.node
    && origin.path != [] && target.path != []
    && AtPath(input.tree, origin.path, origin.node)
    && AtPath(input.tree, target.path, target.node)
  }

  lemma WithoutConserves(tree: Node, moved: WindowId)
    requires Distinct(tree) && tree.Split? && Sub(tree, Leaf(moved))
    ensures Bag(Without(tree, moved)) + multiset{moved} == Bag(tree)
    ensures Distinct(Without(tree, moved))
  {
    HasLeaf(tree, moved);
    RemoveLeafConserves(tree, moved);
  }

  /** Two different panes neither of which is a single shared window: the tree is a split. */
  lemma SituatedFacts(input: MoveInput, origin: Region, target: Region)
    requires Situated(input, origin, target)
    ensures input.tree.Split? && Sub(input.tree, origin.node) && Sub(input.tree, target.node)
    ensures Holds(input.tree, Last(origin.path), origin.node) && Holds(input.tree, Last(target.path), target.node)
    ensures Last(origin.path).first == origin.node || Last(origin.path).second == origin.node
    ensures Last(target.path).first == target.node || Last(target.path).second == target.node
  {
    AtPathIsSub(input.tree, origin.path, origin.node);
    AtPathIsSub(input.tree, target.path, target.node);
    LastOnPathIsParent(input.tree, origin.path, origin.node);
    LastOnPathIsParent(input.tree, target.path, target.node);
  }

  lemma ReplaceLeafByPair(tree: Node, moved: WindowId, target: Node, pair: Node)
    requires Distinct(tree) && tree.Split? && Sub(tree, Leaf(moved))
    requires target.Leaf? && target.id != moved && Sub(tree, target)
    requires Bag(pair) == multiset{moved} + Bag(target)
    ensures Bag(Replace(Without(tree, moved), target, pair)) == Bag(tree)
  {
    hide Replace, Without, Sub, Distinct;
    var rest := Without(tree, moved);
    WithoutConserves(tree, moved);
    HasLeaf(tree, target.id);
    assert Has(rest, target.id) by {
      assert Bag(tree)[target.id] == Bag(rest)[target.id] + multiset{moved}[target.id];
    }
    HasLeaf(rest, target.id);
    ReplaceConserves(rest, target, pair);
    PutBack(Bag(Replace(rest, target, pair)), Bag(rest), Bag(target), multiset{moved}, Bag(tree));
  }

  lemma PutBack(result: multiset<WindowId>, rest: multiset<WindowId>, target: multiset<WindowId>,
                moved: multiset<WindowId>, whole: multiset<WindowId>)
    requires result + target == rest + (moved + target) && rest + moved == whole
    ensures result == whole
  {
    BagAssociates(rest, moved, target);
    BagCancels(result, whole, target);
  }

  lemma MoveDiagonalConserves(input: MoveInput, origin: Region, target: Region, dimension: Axis)
    requires Situated(input, origin, target) && target.node.Leaf?
    ensures Bag(MoveDiagonal(input, origin, target, dimension)) == Bag(input.tree)
  {
    hide Replace, Without, Sub, AtPath, Distinct;
    SituatedFacts(input, origin, target);
    var across := Other(dimension);
    var pair := SplitToward(across, 0.5, origin.node, target.node,
                            Start(origin.frame, across) < Start(target.frame, across));
    assert Bag(pair) == multiset{input.moved} + Bag(target.node);
    ReplaceLeafByPair(input.tree, input.moved, target.node, pair);
  }

  lemma ChildrenDiffer(tree: Node, pane: Node)
    requires Distinct(tree) && Sub(tree, pane) && pane.Split?
    ensures pane.first != pane.second
    ensures Distinct(pane)
  {
    SubDistinct(tree, pane);
    DistinctParts(pane);
    var id := SomeWindow(pane.first);
  }

  lemma CarryDividerConserves(input: MoveInput, origin: Region, target: Region)
    requires Situated(input, origin, target) && target.node.Leaf?
    ensures Last(origin.path).Split?
    ensures Bag(CarryDivider(input, origin, target, Last(origin.path))) == Bag(input.tree)
  {
    hide Replace, Without, Sub, AtPath, Distinct;
    SituatedFacts(input, origin, target);
    var parent := Last(origin.path);
    ChildrenDiffer(input.tree, parent);
    var pair := parent.(first := if parent.first == origin.node then origin.node else target.node,
                        second := if parent.second == origin.node then origin.node else target.node);
    assert Bag(pair) == multiset{input.moved} + Bag(target.node);
    ReplaceLeafByPair(input.tree, input.moved, target.node, pair);
  }

  /** Step one of trading places: the target stands where the moved pane stood. */
  lemma TradedTree(input: MoveInput, origin: Region, target: Region)
    requires Situated(input, origin, target) && target.node.Leaf?
    requires Last(target.path) !in origin.path
    ensures var traded := Replace(input.tree, origin.node, target.node);
            && Bag(traded) + multiset{input.moved} == Bag(input.tree) + Bag(target.node)
            && Sub(traded, Last(target.path))
  {
    hide Replace, AtPath, Distinct;
    SituatedFacts(input, origin, target);
    var parent := Last(target.path);
    ReplaceConserves(input.tree, origin.node, target.node);
    if Sub(parent, origin.node) {
      BetweenIsOnPath(input.tree, origin.path, origin.node, parent);
      assert false;
    }
    SubSurvivesReplace(input.tree, parent, origin.node, target.node);
  }

  lemma TradePlacesConserves(input: MoveInput, origin: Region, target: Region)
    requires Situated(input, origin, target) && target.node.Leaf?
    requires Last(target.path) !in origin.path
    ensures Last(target.path).Split?
    ensures Bag(TradePlaces(input, origin, target, Last(target.path))) == Bag(input.tree)
  {
    hide Replace, Sub, AtPath, Distinct;
    SituatedFacts(input, origin, target);
    TradedTree(input, origin, target);
    var parent := Last(target.path);
    ChildrenDiffer(input.tree, parent);
    var traded := Replace(input.tree, origin.node, target.node);
    var targetFirst := parent.first == target.node;
    var rest := if targetFirst then parent.second else parent.first;
    var pair := parent.(first := if targetFirst then rest else origin.node,
                        second := if targetFirst then origin.node else rest);
    var id := SomeWindow(rest);
    RestWindowOccursOnce(input, origin, target, rest, id, Bag(traded));
    assert Has(parent, id);
    ReplaceExchanges(traded, parent, pair, id);
    assert Bag(parent) == Bag(target.node) + Bag(rest);
    assert Bag(pair) == multiset{input.moved} + Bag(rest);
    TradeBags(Bag(Replace(traded, parent, pair)), Bag(traded), Bag(target.node), Bag(rest),
              multiset{input.moved}, Bag(input.tree));
  }

  lemma RestWindowOccursOnce(input: MoveInput, origin: Region, target: Region, rest: Node, id: WindowId,
                             traded: multiset<WindowId>)
    requires Situated(input, origin, target) && target.node.Leaf? && Has(rest, id)
    requires Last(target.path) == Last(target.path) && Last(target.path).Split?
    requires (Last(target.path).first == target.node && Last(target.path).second == rest)
          || (Last(target.path).second == target.node && Last(target.path).first == rest)
    requires Sub(input.tree, Last(target.path))
    requires traded + multiset{input.moved} == Bag(input.tree) + Bag(target.node)
    ensures traded[id] <= 1
  {
    hide Sub, AtPath, Distinct;
    var parent := Last(target.path);
    ChildrenDiffer(input.tree, parent);
    DistinctParts(parent);
    assert id != target.node.id by {
      assert Has(target.node, target.node.id);
    }
    assert (traded + multiset{input.moved})[id] == (Bag(input.tree) + Bag(target.node))[id];
    DistinctOne(input.tree, id);
  }

  lemma DistinctOne(tree: Node, id: WindowId)
    requires Distinct(tree)
    ensures Bag(tree)[id] <= 1
  {
  }

  lemma TradeBags(result: multiset<WindowId>, traded: multiset<WindowId>, target: multiset<WindowId>,
                  rest: multiset<WindowId>, moved: multiset<WindowId>, whole: multiset<WindowId>)
    requires result + (target + rest) == traded + (moved + rest)
    requires traded + moved == whole + target
    ensures result == whole
  {
    forall id ensures result[id] == whole[id] {
      assert (result + (target + rest))[id] == (traded + (moved + rest))[id];
      assert (traded + moved)[id] == (whole + target)[id];
    }
  }
}
