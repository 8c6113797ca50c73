/** Binary split trees and the edits that insert, remove and move their leaves. */
module BspTree {
  import opened Geometry

  datatype Node =
    | Leaf(id: WindowId)
    | Split(axis: Axis, ratio: real, first: Node, second: Node)

  /** Sentinel leaf of an emptied workspace. */
  const EMPTY_LEAF: WindowId := ""

  function Leaves(tree: Node): (ids: seq<WindowId>)
    ensures |ids| >= 1
  {
    match tree
    case Leaf(id) => [id]
    case Split(_, _, first, second) => Leaves(first) + Leaves(second)
  }

  /** The windows of a tree with multiplicity. */
  function Bag(tree: Node): (bag: multiset<WindowId>) {
    match tree
    case Leaf(id) => multiset{id}
    case Split(_, _, first, second) => Bag(first) + Bag(second)
  }

  lemma {:induction false} BagCountsLeaves(tree: Node)
    ensures Bag(tree) == multiset(Leaves(tree))
  {
    if tree.Split? {
      BagCountsLeaves(tree.first);
      BagCountsLeaves(tree.second);
    }
  }

  predicate Has(tree: Node, id: WindowId) {
    Bag(tree)[id] > 0
  }

  /** Every window has one pane. */
  ghost predicate Distinct(tree: Node) {
    forall id :: Bag(tree)[id] <= 1
  }

  ghost predicate NoDuplicates<T>(s: seq<T>) {
    forall i, j :: 0 <= i < j < |s| ==> s[i] != s[j]
  }

  lemma RepeatCountsTwice(s: seq<WindowId>, i: nat, j: nat)
    requires i < j < |s| && s[i] == s[j]
    ensures multiset(s)[s[i]] >= 2
  {
    assert s == s[..j] + [s[j]] + s[j + 1..];
    assert s[i] in s[..j];
    assert multiset(s)[s[i]] == multiset(s[..j])[s[i]] + 1 + multiset(s[j + 1..])[s[i]];
  }

  lemma NoDuplicatesCount(s: seq<WindowId>)
    requires forall id :: multiset(s)[id] <= 1
    ensures NoDuplicates(s)
  {
    forall i, j | 0 <= i < j < |s| ensures s[i] != s[j] {
      if s[i] == s[j] {
        RepeatCountsTwice(s, i, j);
        assert false;
      }
    }
  }

  lemma DistinctMeansNoDuplicates(tree: Node)
    requires Distinct(tree)
    ensures NoDuplicates(Leaves(tree))
  {
    BagCountsLeaves(tree);
    NoDuplicatesCount(Leaves(tree));
  }

  predicate FindLeaf(tree: Node, id: WindowId)
    ensures FindLeaf(tree, id) <==> Has(tree, id)
  {
    match tree
    case Leaf(other) => other == id
    case Split(_, _, first, second) => FindLeaf(first, id) || FindLeaf(second, id)
  }

  function FirstLeaf(tree: Node): (id: WindowId)
    ensures id == Leaves(tree)[0]
  {
    match tree
    case Leaf(id) => id
    case Split(_, _, first, _) => FirstLeaf(first)
  }

  // ---------------------------------------------------------------- members

  /** The elements of `s` in order of first appearance. */
  function Dedup(s: seq<WindowId>): (r: seq<WindowId>)
    ensures NoDuplicates(r)
    ensures forall x :: x in r <==> x in s
  {
    if s == [] then [] else
      var rest := Dedup(s[..|s| - 1]);
      assert s == s[..|s| - 1] + [s[|s| - 1]];
      if s[|s| - 1] in rest then rest else rest + [s[|s| - 1]]
  }

  lemma {:induction false} DedupKeepsDistinct(s: seq<WindowId>)
    requires NoDuplicates(s)
    ensures Dedup(s) == s
  {
    if s != [] {
      DedupKeepsDistinct(s[..|s| - 1]);
      assert s == s[..|s| - 1] + [s[|s| - 1]];
    }
  }

  /** Leaf ids in traversal order, first occurrence wins. */
  method MemberIds(tree: Node) returns (out: seq<WindowId>)
    ensures out == Dedup(Leaves(tree))
  {
    var raw := Leaves(tree);
    var seen: set<WindowId> := {};
    out := [];
    for i := 0 to |raw|
      invariant out == Dedup(raw[..i])
      invariant forall id :: id in seen <==> id in out
    {
      assert raw[..i + 1][..i] == raw[..i];
      if raw[i] !in seen {
        seen := seen + {raw[i]};
        out := out + [raw[i]];
      }
    }
    assert raw[..|raw|] == raw;
  }

  function WithoutSentinel(ids: seq<WindowId>): (r: seq<WindowId>)
    ensures forall id :: id in r <==> id in ids && id != EMPTY_LEAF
  {
    if ids == [] then [] else
      (if ids[0] == EMPTY_LEAF then [] else [ids[0]]) + WithoutSentinel(ids[1..])
  }

  /** The windows taking part in layout. */
  function TiledMembers(tree: Node): (r: seq<WindowId>)
    ensures forall id :: id in r <==> Has(tree, id) && id != EMPTY_LEAF
  {
    BagCountsLeaves(tree);
    WithoutSentinel(Dedup(Leaves(tree)))
  }

  predicate IsEmptyTree(tree: Node) {
    tree == Leaf(EMPTY_LEAF)
  }

  lemma {:induction false} WithoutSentinelKeepsDistinct(ids: seq<WindowId>)
    requires NoDuplicates(ids)
    ensures NoDuplicates(WithoutSentinel(ids))
  {
    if ids != [] {
      forall i, j | 0 <= i < j < |ids[1..]| ensures ids[1..][i] != ids[1..][j] {
        assert ids[i + 1] != ids[j + 1];
      }
      WithoutSentinelKeepsDistinct(ids[1..]);
      var rest := WithoutSentinel(ids[1..]);
      assert ids[0] !in ids[1..];
      assert ids[0] !in rest;
    }
  }

  // ---------------------------------------------------------------- edits

  function AxisForFrame(frame: Frame): Axis {
    if frame.width >= frame.height then Vertical else Horizontal
  }

  /** Split the target leaf; `axis` wins over the target's longest side. */
  function InsertLeaf(tree: Node, target: WindowId, newId: WindowId,
                      targetFrame: Option<Frame>, axis: Option<Axis>): (r: Option<Node>)
    ensures r.Some? <==> Has(tree, target)
    ensures r.Some? ==> Bag(r.value) == Bag(tree) + multiset{newId}
  {
    match tree
    case Leaf(id) =>
      if id != target then None else
        var divider :=
          match axis
          case Some(a) => a
          case None => if targetFrame.Some? then AxisForFrame(targetFrame.value) else Vertical;
        Some(Split(divider, 0.5, Leaf(target), Leaf(newId)))
    case Split(_, _, first, second) =>
      var inFirst := InsertLeaf(first, target, newId, targetFrame, axis);
      if inFirst.Some? then Some(tree.(first := inFirst.value)) else
        var inSecond := InsertLeaf(second, target, newId, targetFrame, axis);
        if inSecond.Some? then Some(tree.(second := inSecond.value)) else None
  }

  /** Removing a leaf promotes its sibling wholesale; None when emptied. */
  function RemoveLeaf(tree: Node, id: WindowId): (r: Option<Node>)
    ensures r.None? <==> tree == Leaf(id)
    ensures !Has(tree, id) ==> r == Some(tree)
  {
    match tree
    case Leaf(other) => if other == id then None else Some(tree)
    case Split(_, _, first, second) =>
      var f := RemoveLeaf(first, id);
      if f.None? then Some(second) else
        var s := RemoveLeaf(second, id);
        if s.None? then Some(first) else
          Some(tree.(first := f.value, second := s.value))
  }

  lemma {:induction false} RemoveLeafConserves(tree: Node, id: WindowId)
    requires Distinct(tree) && Has(tree, id) && tree.Split?
    ensures var r := RemoveLeaf(tree, id);
            && r.Some? && Bag(r.value) + multiset{id} == Bag(tree)
            && Distinct(r.value) && !Has(r.value, id)
  {
    var Split(_, _, first, second) := tree;
    assert Bag(tree)[id] == Bag(first)[id] + Bag(second)[id];
    DistinctParts(tree);
    if Has(first, id) {
      if first.Split? { RemoveLeafConserves(first, id); }
    } else {
      if second.Split? { RemoveLeafConserves(second, id); }
    }
    var r := RemoveLeaf(tree, id);
    assert Bag(r.value) + multiset{id} == Bag(tree);
    forall x ensures Bag(r.value)[x] <= 1 {
      assert Bag(tree)[x] == Bag(r.value)[x] + multiset{id}[x];
    }
  }

  lemma HasInParts(tree: Node)
    requires tree.Split?
    ensures forall id :: Has(tree, id) <==> Has(tree.first, id) || Has(tree.second, id)
  {
  }

  lemma DistinctParts(tree: Node)
    requires tree.Split? && Distinct(tree)
    ensures Distinct(tree.first) && Distinct(tree.second)
    ensures forall id :: !(Has(tree.first, id) && Has(tree.second, id))
  {
    forall id ensures Bag(tree.first)[id] + Bag(tree.second)[id] <= 1 {
      assert Bag(tree)[id] <= 1;
    }
  }

  /** Insertion is undone by removal: the very tree comes back. */
  lemma {:induction false} RemoveUndoesInsert(tree: Node, target: WindowId, newId: WindowId,
                                              targetFrame: Option<Frame>, axis: Option<Axis>)
    requires Has(tree, target) && !Has(tree, newId)
    ensures RemoveLeaf(InsertLeaf(tree, target, newId, targetFrame, axis).value, newId) == Some(tree)
  {
    match tree
    case Leaf(_) =>
    case Split(_, _, first, second) =>
      if Has(first, target) {
        RemoveUndoesInsert(first, target, newId, targetFrame, axis);
      } else {
        RemoveUndoesInsert(second, target, newId, targetFrame, axis);
      }
  }

  lemma InsertKeepsDistinct(tree: Node, target: WindowId, newId: WindowId,
                            targetFrame: Option<Frame>, axis: Option<Axis>)
    requires Distinct(tree) && Has(tree, target) && !Has(tree, newId)
    ensures Distinct(InsertLeaf(tree, target, newId, targetFrame, axis).value)
  {
    var r := InsertLeaf(tree, target, newId, targetFrame, axis).value;
    forall id ensures Bag(r)[id] <= 1 {
      assert Bag(r)[id] == Bag(tree)[id] + multiset{newId}[id];
    }
  }

  // ---------------------------------------------------------------- directional moves

  datatype Direction = Left | Right | Up | Down

  function AxisForDirection(direction: Direction): Axis {
    if direction == Left || direction == Right then Vertical else Horizontal
  }

  predicate MovedLeafIsFirst(direction: Direction) {
    direction == Left || direction == Up
  }

  function MoveTwoLeafTree(tree: Node, moved: WindowId, target: WindowId, direction: Direction): Node {
    if tree.Leaf? || !tree.first.Leaf? || !tree.second.Leaf? then tree
    else if tree.axis == AxisForDirection(direction) then
      tree.(first := tree.second, second := tree.first)
    else
      var before := MovedLeafIsFirst(direction);
      tree.(axis := AxisForDirection(direction),
            first := Leaf(if before then moved else target),
            second := Leaf(if before then target else moved))
  }

  function SiblingAxis(tree: Node, a: WindowId, b: WindowId): Option<Axis> {
    match tree
    case Leaf(_) => None
    case Split(axis, _, first, second) =>
      if (first == Leaf(a) && second == Leaf(b)) || (first == Leaf(b) && second == Leaf(a)) then
        Some(axis)
      else
        var inFirst := SiblingAxis(first, a, b);
        if inFirst.Some? then inFirst else SiblingAxis(second, a, b)
  }

  function InsertMovedLeaf(tree: Node, target: WindowId, moved: WindowId, direction: Direction,
                           targetFrame: Option<Frame>, preferred: Option<Axis>): (r: Option<Node>)
    ensures r.Some? <==> Has(tree, target)
    ensures r.Some? ==> Bag(r.value) == Bag(tree) + multiset{moved}
    ensures r.Some? ==> AreSiblings(r.value, target, moved, MovedLeafIsFirst(direction))
  {
    match tree
    case Leaf(id) =>
      if id != target then None else
        var divider :=
          if preferred.Some? then preferred.value
          else if targetFrame.None? then AxisForDirection(direction)
          else AxisForFrame(targetFrame.value);
        var before := MovedLeafIsFirst(direction);
        Some(Split(divider, 0.5, if before then Leaf(moved) else tree, if before then tree else Leaf(moved)))
    case Split(_, _, first, second) =>
      var inFirst := InsertMovedLeaf(first, target, moved, direction, targetFrame, preferred);
      if inFirst.Some? then Some(tree.(first := inFirst.value)) else
        var inSecond := InsertMovedLeaf(second, target, moved, direction, targetFrame, preferred);
        if inSecond.Some? then Some(tree.(second := inSecond.value)) else None
  }

  /** `moved` and `target` are the two halves of one split, in the order asked for. */
  ghost predicate AreSiblings(tree: Node, target: WindowId, moved: WindowId, movedFirst: bool) {
    match tree
    case Leaf(_) => false
    case Split(_, _, first, second) =>
      || (if movedFirst then first == Leaf(moved) && second == Leaf(target)
          else first == Leaf(target) && second == Leaf(moved))
      || AreSiblings(first, target, moved, movedFirst)
      || AreSiblings(second, target, moved, movedFirst)
  }

  function MoveLeaf(tree: Node, moved: WindowId, target: WindowId, direction: Direction,
                    targetFrame: Option<Frame>): Node
  {
    if moved == target || !FindLeaf(tree, moved) || !FindLeaf(tree, target) then tree
    else if |Dedup(Leaves(tree))| == 2 then MoveTwoLeafTree(tree, moved, target, direction)
    else
      var removed := RemoveLeaf(tree, moved);
      if removed.None? then tree else
        var inserted := InsertMovedLeaf(removed.value, target, moved, direction, targetFrame,
                                        SiblingAxis(tree, moved, target));
        if inserted.None? then tree else inserted.value
  }

  /** A move neither loses nor duplicates a window. With three or more panes it lands the window next to its target,
      on the side the direction names. Two panes come to lie along the direction, with the window on the side it
      names unless it was there already: then the two change places. */
  lemma MoveLeafConserves(tree: Node, moved: WindowId, target: WindowId, direction: Direction,
                          targetFrame: Option<Frame>)
    requires Distinct(tree)
    ensures var r := MoveLeaf(tree, moved, target, direction, targetFrame);
            && Bag(r) == Bag(tree)
            && (moved != target && Has(tree, moved) && Has(tree, target) && |Leaves(tree)| > 2
                ==> AreSiblings(r, target, moved, MovedLeafIsFirst(direction)))
            && (moved != target && Has(tree, moved) && Has(tree, target) && |Leaves(tree)| == 2
                ==> var before, axis := MovedLeafIsFirst(direction), AxisForDirection(direction);
                    var already := tree.Split? && tree.axis == axis && AreSiblings(tree, target, moved, before);
                    r.Split? && r.axis == axis && AreSiblings(r, target, moved, if already then !before else before))
  {
    hide Bag, RemoveLeaf, InsertMovedLeaf, SiblingAxis, AreSiblings, MoveTwoLeafTree, Dedup;
    if moved != target && Has(tree, moved) && Has(tree, target) {
      DistinctMeansNoDuplicates(tree);
      DedupKeepsDistinct(Leaves(tree));
      TwoWindowsNeedSplit(tree, moved, target);
      if |Leaves(tree)| == 2 {
        TwoLeafMoveConserves(tree, moved, target, direction);
        TwoLeafMoveSide(tree, moved, target, direction);
      } else {
        ReinsertConserves(tree, moved, target, direction, targetFrame);
      }
    }
  }

  lemma TwoWindowsNeedSplit(tree: Node, a: WindowId, b: WindowId)
    requires a != b && Has(tree, a) && Has(tree, b)
    ensures tree.Split?
  {
  }

  lemma ReinsertConserves(tree: Node, moved: WindowId, target: WindowId, direction: Direction,
                          targetFrame: Option<Frame>)
    requires Distinct(tree) && tree.Split? && moved != target && Has(tree, moved) && Has(tree, target)
    ensures var removed := RemoveLeaf(tree, moved);
            removed.Some?
            && var r := InsertMovedLeaf(removed.value, target, moved, direction, targetFrame,
                                        SiblingAxis(tree, moved, target));
               r.Some? && Bag(r.value) == Bag(tree) && AreSiblings(r.value, target, moved, MovedLeafIsFirst(direction))
  {
    hide SiblingAxis, InsertMovedLeaf, RemoveLeaf, AreSiblings, Bag, Distinct;
    RemoveLeafConserves(tree, moved);
    var removed := RemoveLeaf(tree, moved).value;
    assert Bag(tree)[target] == Bag(removed)[target] + multiset{moved}[target];
  }

  lemma TwoLeafMoveConserves(tree: Node, moved: WindowId, target: WindowId, direction: Direction)
    requires |Leaves(tree)| == 2 && moved != target && Has(tree, moved) && Has(tree, target)
    ensures Bag(MoveTwoLeafTree(tree, moved, target, direction)) == Bag(tree)
  {
    TwoLeaves(tree);
    var a, b := tree.first.id, tree.second.id;
    hide Bag, Leaves;
    TwoWindows(a, b, moved, target);
    var axis := AxisForDirection(direction);
    PairBag(tree.axis, tree.ratio, a, b);
    PairBag(tree.axis, tree.ratio, b, a);
    PairBag(axis, tree.ratio, moved, target);
    PairBag(axis, tree.ratio, target, moved);
    EitherOrder(a, b);
  }

  lemma TwoLeafMoveSide(tree: Node, moved: WindowId, target: WindowId, direction: Direction)
    requires |Leaves(tree)| == 2 && moved != target && Has(tree, moved) && Has(tree, target)
    ensures var before, axis := MovedLeafIsFirst(direction), AxisForDirection(direction);
            var already := tree.Split? && tree.axis == axis && AreSiblings(tree, target, moved, before);
            var r := MoveTwoLeafTree(tree, moved, target, direction);
            r.Split? && r.axis == axis && AreSiblings(r, target, moved, if already then !before else before)
  {
    TwoLeaves(tree);
    hide Leaves;
    TwoWindows(tree.first.id, tree.second.id, moved, target);
  }

  lemma TwoLeaves(tree: Node)
    requires |Leaves(tree)| == 2
    ensures tree.Split? && tree.first.Leaf? && tree.second.Leaf?
    ensures Bag(tree) == multiset{tree.first.id} + multiset{tree.second.id}
  {
  }

  lemma PairBag(axis: Axis, ratio: real, a: WindowId, b: WindowId)
    ensures Bag(Split(axis, ratio, Leaf(a), Leaf(b))) == multiset{a} + multiset{b}
  {
  }

  lemma EitherOrder(a: WindowId, b: WindowId)
    ensures multiset{a} + multiset{b} == multiset{b} + multiset{a}
  {
  }

  lemma TwoWindows(a: WindowId, b: WindowId, moved: WindowId, target: WindowId)
    requires moved != target
    requires (multiset{a} + multiset{b})[moved] > 0 && (multiset{a} + multiset{b})[target] > 0
    ensures (a == moved && b == target) || (a == target && b == moved)
  {
    if moved != a {
      assert multiset{a}[moved] == 0;
      assert moved == b;
    }
  }

  function SwapLeaves(tree: Node, a: WindowId, b: WindowId): (r: Node)
    ensures |Leaves(r)| == |Leaves(tree)|
    ensures forall i :: 0 <= i < |Leaves(tree)| ==>
              Leaves(r)[i] == (if Leaves(tree)[i] == a then b else if Leaves(tree)[i] == b then a else Leaves(tree)[i])
  {
    match tree
    case Leaf(id) => if id == a then Leaf(b) else if id == b then Leaf(a) else tree
    case Split(_, _, first, second) =>
      tree.(first := SwapLeaves(first, a, b), second := SwapLeaves(second, a, b))
  }

  /** Swapping twice restores the tree: divider topology and ratios never move. */
  lemma {:induction false} SwapLeavesInvolution(tree: Node, a: WindowId, b: WindowId)
    ensures SwapLeaves(SwapLeaves(tree, a, b), a, b) == tree
  {
    match tree
    case Leaf(_) =>
    case Split(_, _, first, second) =>
      SwapLeavesInvolution(first, a, b);
      SwapLeavesInvolution(second, a, b);
  }
}
