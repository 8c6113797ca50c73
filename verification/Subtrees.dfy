/** Subtrees, paths to them, and replacing one by another. Windows are distinct, so a subtree is
    recognised by its value wherever the program recognises it by identity. */
module Subtrees {
  import opened Geometry
  import opened BspTree

  predicate Sub(tree: Node, part: Node) {
    tree == part || (tree.Split? && (Sub(tree.first, part) || Sub(tree.second, part)))
  }

  /** `path` lists the splits from the root down to the parent of `part`. */
  predicate AtPath(tree: Node, path: seq<Node>, part: Node) {
    if path == [] then tree == part
    else tree == path[0] && tree.Split? && (AtPath(tree.first, path[1..], part) || AtPath(tree.second, path[1..], part))
  }

  /** Replace every occurrence of `target`. */
  function Replace(tree: Node, target: Node, replacement: Node): Node {
    if tree == target then replacement
    else if tree.Leaf? then tree
    else tree.(first := Replace(tree.first, target, replacement),
               second := Replace(tree.second, target, replacement))
  }

  function BagOf(nodes: seq<Node>): multiset<WindowId> {
    if nodes == [] then multiset{} else Bag(nodes[0]) + BagOf(nodes[1..])
  }

  lemma {:induction false} SubBag(tree: Node, part: Node)
    requires Sub(tree, part)
    ensures Bag(part) <= Bag(tree)
  {
    if tree != part {
      if Sub(tree.first, part) { SubBag(tree.first, part); } else { SubBag(tree.second, part); }
    }
  }

  lemma SubHas(tree: Node, part: Node, id: WindowId)
    requires Sub(tree, part) && Has(part, id)
    ensures Has(tree, id)
  {
    SubBag(tree, part);
  }

  lemma SubDistinct(tree: Node, part: Node)
    requires Sub(tree, part) && Distinct(tree)
    ensures Distinct(part)
  {
    SubBag(tree, part);
    forall id ensures Bag(part)[id] <= 1 {
      assert Bag(tree)[id] <= 1;
    }
  }

  lemma {:induction false} SubTransitive(tree: Node, middle: Node, part: Node)
    requires Sub(tree, middle) && Sub(middle, part)
    ensures Sub(tree, part)
  {
    if tree != middle {
      if Sub(tree.first, middle) { SubTransitive(tree.first, middle, part); } else { SubTransitive(tree.second, middle, part); }
    }
  }

  lemma {:induction false} SomeWindow(tree: Node) returns (id: WindowId)
    ensures Has(tree, id)
  {
    if tree.Leaf? { id := tree.id; } else { id := SomeWindow(tree.first); }
  }

  lemma {:induction false} HasLeaf(tree: Node, id: WindowId)
    ensures Has(tree, id) <==> Sub(tree, Leaf(id))
  {
    if tree.Split? {
      HasLeaf(tree.first, id);
      HasLeaf(tree.second, id);
    }
  }

  // ---------------------------------------------------------------- paths

  lemma {:induction false} AtPathIsSub(tree: Node, path: seq<Node>, part: Node)
    requires AtPath(tree, path, part)
    ensures Sub(tree, part)
    ensures forall i :: 0 <= i < |path| ==> path[i].Split? && Sub(tree, path[i]) && Sub(path[i], part)
  {
    if path != [] {
      var rest := path[1..];
      var child := if AtPath(tree.first, rest, part) then tree.first else tree.second;
      AtPathIsSub(child, rest, part);
      forall i | 0 <= i < |path| ensures path[i].Split? && Sub(tree, path[i]) && Sub(path[i], part) {
        if i > 0 {
          assert path[i] == rest[i - 1];
        }
      }
    }
  }

  lemma {:induction false} LastOnPathIsParent(tree: Node, path: seq<Node>, part: Node)
    requires AtPath(tree, path, part) && path != []
    ensures var parent := path[|path| - 1]; parent.Split? && (parent.first == part || parent.second == part)
  {
    var rest := path[1..];
    var child := if AtPath(tree.first, rest, part) then tree.first else tree.second;
    if rest != [] {
      LastOnPathIsParent(child, rest, part);
      assert rest[|rest| - 1] == path[|path| - 1];
    }
  }

  /** A window of `part` that occurs once pins `part` to one side of a split. */
  lemma OneSide(tree: Node, part: Node, id: WindowId)
    requires tree.Split? && Bag(tree)[id] <= 1 && Has(part, id)
    ensures !(Sub(tree.first, part) && Sub(tree.second, part))
  {
    if Sub(tree.first, part) && Sub(tree.second, part) {
      SubHas(tree.first, part, id);
      SubHas(tree.second, part, id);
      assert false;
    }
  }

  /** Every split between the root and a pane is on the pane's path. */
  lemma {:induction false} BetweenIsOnPath(tree: Node, path: seq<Node>, part: Node, middle: Node)
    requires Distinct(tree) && AtPath(tree, path, part)
    requires Sub(tree, middle) && Sub(middle, part) && middle != part
    ensures middle in path
  {
    if tree == middle {
    } else {
      var id := SomeWindow(part);
      DistinctParts(tree);
      if path == [] {
        SubAntisymmetric(tree, middle);
        assert false;
      } else {
        var rest := path[1..];
        OneSide(tree, part, id);
        if Sub(tree.first, middle) { SubTransitive(tree.first, middle, part); } else { SubTransitive(tree.second, middle, part); }
        if AtPath(tree.first, rest, part) { AtPathIsSub(tree.first, rest, part); } else { AtPathIsSub(tree.second, rest, part); }
        if Sub(tree.first, middle) {
          BetweenIsOnPath(tree.first, rest, part, middle);
        } else {
          BetweenIsOnPath(tree.second, rest, part, middle);
        }
      }
    }
  }

  function Size(tree: Node): nat {
    if tree.Leaf? then 1 else 1 + Size(tree.first) + Size(tree.second)
  }

  lemma {:induction false} SubSize(tree: Node, part: Node)
    requires Sub(tree, part)
    ensures Size(part) <= Size(tree) && (tree != part ==> Size(part) < Size(tree))
  {
    if tree != part {
      if Sub(tree.first, part) { SubSize(tree.first, part); } else { SubSize(tree.second, part); }
    }
  }

  lemma SubAntisymmetric(a: Node, b: Node)
    requires Sub(a, b) && Sub(b, a)
    ensures a == b
  {
    SubSize(a, b);
    SubSize(b, a);
  }

  // ---------------------------------------------------------------- bags

  lemma BagAssociates(a: multiset<WindowId>, b: multiset<WindowId>, c: multiset<WindowId>)
    ensures (a + b) + c == a + (b + c)
  {
  }

  lemma BagCancels(a: multiset<WindowId>, b: multiset<WindowId>, c: multiset<WindowId>)
    requires a + c == b + c
    ensures a == b
  {
    forall id ensures a[id] == b[id] {
      assert (a + c)[id] == (b + c)[id];
    }
  }

  /** An exchange of `t` for `r` in one part is the same exchange in the whole. */
  lemma ExchangeInPart(a: multiset<WindowId>, a': multiset<WindowId>, b: multiset<WindowId>,
                       t: multiset<WindowId>, r: multiset<WindowId>)
    requires a' + t == a + r
    ensures (a' + b) + t == (a + b) + r && (b + a') + t == (b + a) + r
  {
    forall id ensures ((a' + b) + t)[id] == ((a + b) + r)[id] {
      assert (a' + t)[id] == (a + r)[id];
    }
    forall id ensures ((b + a') + t)[id] == ((b + a) + r)[id] {
      assert (a' + t)[id] == (a + r)[id];
    }
  }

  // ---------------------------------------------------------------- replacing

  lemma {:induction false} ReplaceMissing(tree: Node, target: Node, replacement: Node)
    requires !Sub(tree, target)
    ensures Replace(tree, target, replacement) == tree
  {
    if tree.Split? {
      ReplaceMissing(tree.first, target, replacement);
      ReplaceMissing(tree.second, target, replacement);
    }
  }

  /** Replacing a pane that holds a once-occurring window exchanges exactly its windows. */
  lemma {:induction false} ReplaceExchanges(tree: Node, target: Node, replacement: Node, id: WindowId)
    requires Sub(tree, target) && Has(target, id) && Bag(tree)[id] <= 1
    ensures Bag(Replace(tree, target, replacement)) + Bag(target) == Bag(tree) + Bag(replacement)
  {
    if tree != target {
      OneSide(tree, target, id);
      assert Bag(tree)[id] == Bag(tree.first)[id] + Bag(tree.second)[id];
      if Sub(tree.first, target) {
        ReplaceExchanges(tree.first, target, replacement, id);
        ReplaceMissing(tree.second, target, replacement);
        ExchangeInPart(Bag(tree.first), Bag(Replace(tree.first, target, replacement)), Bag(tree.second),
                       Bag(target), Bag(replacement));
      } else {
        ReplaceExchanges(tree.second, target, replacement, id);
        ReplaceMissing(tree.first, target, replacement);
        ExchangeInPart(Bag(tree.second), Bag(Replace(tree.second, target, replacement)), Bag(tree.first),
                       Bag(target), Bag(replacement));
      }
    }
  }

  lemma ReplaceConserves(tree: Node, target: Node, replacement: Node)
    requires Distinct(tree) && Sub(tree, target)
    ensures Bag(Replace(tree, target, replacement)) + Bag(target) == Bag(tree) + Bag(replacement)
  {
    hide Bag, Replace, Sub;
    var id := SomeWindow(target);
    ReplaceExchanges(tree, target, replacement, id);
  }

  /** Rearranging the windows of a pane, wherever it may occur, loses none. */
  lemma {:induction false} RearrangeConserves(tree: Node, target: Node, replacement: Node)
    requires Bag(target) == Bag(replacement)
    ensures Bag(Replace(tree, target, replacement)) == Bag(tree)
  {
    if tree != target && tree.Split? {
      RearrangeConserves(tree.first, target, replacement);
      RearrangeConserves(tree.second, target, replacement);
    }
  }

  /** A pane apart from the replaced one stays in place. */
  lemma {:induction false} SubSurvivesReplace(tree: Node, part: Node, target: Node, replacement: Node)
    requires Sub(tree, part) && !Sub(part, target) && !Sub(target, part)
    ensures Sub(Replace(tree, target, replacement), part)
  {
    if tree == part {
      ReplaceMissing(part, target, replacement);
    } else if Sub(tree.first, part) {
      SubSurvivesReplace(tree.first, part, target, replacement);
    } else {
      SubSurvivesReplace(tree.second, part, target, replacement);
    }
  }

  // ---------------------------------------------------------------- runs of panes along one axis

  /** The panes of a run: dividers on `axis` are dissolved. */
  function Flatten(tree: Node, axis: Axis): (panes: seq<Node>)
    ensures |panes| >= 1
  {
    if tree.Split? && tree.axis == axis then Flatten(tree.first, axis) + Flatten(tree.second, axis) else [tree]
  }

  lemma {:induction false} BagOfConcat(a: seq<Node>, b: seq<Node>)
    ensures BagOf(a + b) == BagOf(a) + BagOf(b)
  {
    hide Bag;
    if a == [] {
      assert a + b == b;
    } else {
      BagOfConcat(a[1..], b);
      assert (a + b)[1..] == a[1..] + b;
      BagAssociates(Bag(a[0]), BagOf(a[1..]), BagOf(b));
    }
  }

  lemma {:induction false} FlattenBag(tree: Node, axis: Axis)
    ensures BagOf(Flatten(tree, axis)) == Bag(tree)
  {
    if tree.Split? && tree.axis == axis {
      FlattenBag(tree.first, axis);
      FlattenBag(tree.second, axis);
      BagOfConcat(Flatten(tree.first, axis), Flatten(tree.second, axis));
    } else {
      assert [tree][1..] == [];
    }
  }

  lemma {:induction false} PanesAreNotOnAxis(node: Node, axis: Axis, i: nat)
    requires i < |Flatten(node, axis)|
    ensures var pane := Flatten(node, axis)[i]; !(pane.Split? && pane.axis == axis)
  {
    if node.Split? && node.axis == axis {
      var n := |Flatten(node.first, axis)|;
      if i < n { PanesAreNotOnAxis(node.first, axis, i); } else { PanesAreNotOnAxis(node.second, axis, i - n); }
    }
  }

  lemma {:induction false} FlattenSub(tree: Node, axis: Axis, i: nat)
    requires i < |Flatten(tree, axis)|
    ensures Sub(tree, Flatten(tree, axis)[i])
  {
    if tree.Split? && tree.axis == axis {
      var n := |Flatten(tree.first, axis)|;
      if i < n { FlattenSub(tree.first, axis, i); } else { FlattenSub(tree.second, axis, i - n); }
    }
  }

  lemma SplitAt(nodes: seq<Node>, i: nat)
    requires i < |nodes|
    ensures BagOf(nodes) == BagOf(nodes[..i]) + Bag(nodes[i]) + BagOf(nodes[i + 1..])
  {
    assert nodes == nodes[..i] + nodes[i..];
    BagOfConcat(nodes[..i], nodes[i..]);
    assert nodes[i..][1..] == nodes[i + 1..];
  }

  lemma SplitAtTwo(nodes: seq<Node>, i: nat)
    requires i + 1 < |nodes|
    ensures BagOf(nodes) == BagOf(nodes[..i]) + (Bag(nodes[i]) + Bag(nodes[i + 1])) + BagOf(nodes[i + 2..])
  {
    SplitAt(nodes, i);
    assert nodes[i + 1..][1..] == nodes[i + 2..];
  }

  lemma BagOfOne(node: Node)
    ensures BagOf([node]) == Bag(node)
  {
    assert [node][1..] == [];
  }

  lemma UpdateBag(nodes: seq<Node>, i: nat, node: Node)
    requires i < |nodes|
    ensures BagOf(nodes[i := node]) + Bag(nodes[i]) == BagOf(nodes) + Bag(node)
  {
    hide *;
    var changed := nodes[i := node];
    SplitAt(nodes, i);
    SplitAt(changed, i);
    assert changed[..i] == nodes[..i];
    assert changed[i + 1..] == nodes[i + 1..];
    ExchangeMiddle(BagOf(nodes[..i]), Bag(nodes[i]), Bag(node), BagOf(nodes[i + 1..]));
  }

  lemma ExchangeMiddle(a: multiset<WindowId>, m: multiset<WindowId>, m': multiset<WindowId>, b: multiset<WindowId>)
    ensures (a + m' + b) + m == (a + m + b) + m'
  {
  }

  /** Exchanging two panes of a run keeps its windows. */
  lemma SwapTwoBag(nodes: seq<Node>, i: nat, j: nat)
    requires i < |nodes| && j < |nodes|
    ensures BagOf(nodes[i := nodes[j]][j := nodes[i]]) == BagOf(nodes)
  {
    hide *;
    var once := nodes[i := nodes[j]];
    var twice := once[j := nodes[i]];
    UpdateBag(nodes, i, nodes[j]);
    UpdateBag(once, j, nodes[i]);
    assert once[j] == nodes[j];
    assert BagOf(twice) + Bag(nodes[j]) == BagOf(once) + Bag(nodes[i]);
    BagCancels(BagOf(twice), BagOf(nodes), Bag(nodes[j]));
  }
}
