/** Swapping two panes of a run on planner-made frames: lengths travel with the panes, nothing else
    moves, and swapping back restores every frame. */
module SwapTheorems {
  import opened Geometry
  import opened BspTree
  import opened Partition
  import opened Planner
  import opened Subtrees
  import opened Insertion
  import opened GeometricMove
  import opened GeometricMoveProofs

  // ---------------------------------------------------------------- observed panes of a plan

  /** Smallest frame around a pane's windows. */
  function Hull(node: Node, frames: Frames): Frame {
    match node
    case Leaf(id) => if id in frames then frames[id] else Frame(0, 0, 0, 0)
    case Split(_, _, first, second) => Union(Hull(first, frames), Hull(second, frames))
  }

  lemma {:induction false} RegionFrameIsHull(node: Node, path: seq<Node>, frames: Frames, r: Region)
    requires r in Visit(node, path, frames).0
    ensures r.frame == Hull(r.node, frames)
  {
    if node.Split? {
      var (inFirst, a) := Visit(node.first, path + [node], frames);
      var (inSecond, b) := Visit(node.second, path + [node], frames);
      if r in inFirst {
        RegionFrameIsHull(node.first, path + [node], frames, r);
      } else if r in inSecond {
        RegionFrameIsHull(node.second, path + [node], frames, r);
      } else {
        RegionFrameIsHull(node.first, path + [node], frames, a.value);
        RegionFrameIsHull(node.second, path + [node], frames, b.value);
      }
    }
  }

  lemma {:induction false} EveryPaneHasRegion(node: Node, path: seq<Node>, frames: Frames, part: Node)
    returns (r: Region)
    requires Visit(node, path, frames).1.Some? && Sub(node, part)
    ensures r in Visit(node, path, frames).0 && r.node == part
  {
    if node == part {
      r := Visit(node, path, frames).1.value;
    } else if Sub(node.first, part) {
      r := EveryPaneHasRegion(node.first, path + [node], frames, part);
    } else {
      r := EveryPaneHasRegion(node.second, path + [node], frames, part);
    }
  }

  lemma {:induction false} FindFinds(regions: seq<Region>, p: Region -> bool, r: Region)
    requires r in regions && p(r)
    ensures FindRegion(regions, p).Some?
  {
    if !p(regions[0]) {
      FindFinds(regions[1..], p, r);
    }
  }

  lemma FrameOfIsHull(tree: Node, frames: Frames, part: Node)
    requires Visit(tree, [], frames).1.Some? && Sub(tree, part)
    ensures FrameOf(part, Visit(tree, [], frames).0) == Hull(part, frames)
  {
    hide Visit, Sub, FindRegion, Hull;
    var regions := Visit(tree, [], frames).0;
    var r := EveryPaneHasRegion(tree, [], frames, part);
    FindFinds(regions, (x: Region) => x.node == part, r);
    var found := FindRegion(regions, (x: Region) => x.node == part).value;
    RegionFrameIsHull(tree, [], frames, found);
  }

  lemma UnionOfHalves(rect: Frame, axis: Axis, first: int, second: int, gap: int)
    requires first + gap + second == Length(rect, axis) && first > 0 && second > 0 && gap >= 0
    ensures Union(FirstRect(rect, axis, first), SecondRect(rect, axis, first, second, gap)) == rect
  {
  }

  /** On planned frames the observed hull of a pane is the rectangle it was planned in. */
  lemma {:induction false} HullIsRect(node: Node, rect: Frame, gap: int, resolve: Resolver, frames: Frames)
    requires gap >= 0 && Distinct(node) && Solve(node, rect, gap, resolve).Some?
    requires Shows(frames, node, Solve(node, rect, gap, resolve).value)
    ensures Hull(node, frames) == rect
  {
    if node.Leaf? {
      assert Has(node, node.id);
    } else {
      HullOfHalves(node, rect, gap, resolve, frames);
      var r := Halve(node, rect, gap, resolve);
      HullIsRect(node.first, FirstRect(rect, node.axis, r.first), gap, resolve, frames);
      HullIsRect(node.second, SecondRect(rect, node.axis, r.first, r.second, gap), gap, resolve, frames);
      UnionOfHalves(rect, node.axis, r.first, r.second, gap);
    }
  }

  lemma HullOfHalves(node: Node, rect: Frame, gap: int, resolve: Resolver, frames: Frames)
    requires node.Split? && Distinct(node) && Solve(node, rect, gap, resolve).Some?
    requires Shows(frames, node, Solve(node, rect, gap, resolve).value)
    ensures var r := Halve(node, rect, gap, resolve);
            && r.first + gap + r.second == Length(rect, node.axis) && r.first > 0 && r.second > 0
            && Distinct(node.first) && Distinct(node.second)
            && Solve(node.first, FirstRect(rect, node.axis, r.first), gap, resolve).Some?
            && Solve(node.second, SecondRect(rect, node.axis, r.first, r.second, gap), gap, resolve).Some?
            && Shows(frames, node.first, Solve(node.first, FirstRect(rect, node.axis, r.first), gap, resolve).value)
            && Shows(frames, node.second,
                     Solve(node.second, SecondRect(rect, node.axis, r.first, r.second, gap), gap, resolve).value)
  {
    hide *;
    DistinctParts(node);
    ShowsParts(frames, node, rect, gap, resolve);
    SolveOfSplit(node, rect, gap, resolve);
    SplitLengths(node, rect, gap, resolve);
  }

  lemma {:induction false} PlannedIsComplete(node: Node, path: seq<Node>, frames: Frames)
    requires forall id :: Has(node, id) ==> id in frames && Positive(frames[id])
    ensures Visit(node, path, frames).1.Some?
  {
    if node.Leaf? {
      assert Has(node, node.id);
    } else {
      HasInParts(node);
      PlannedIsComplete(node.first, path + [node], frames);
      PlannedIsComplete(node.second, path + [node], frames);
    }
  }

  // ---------------------------------------------------------------- runs of sized panes

  function Total(panes: seq<SizedPane>, gap: int): int
    requires panes != []
  {
    if |panes| == 1 then panes[0].size else panes[0].size + gap + Total(panes[1..], gap)
  }

  function Join(a: Option<Frames>, b: Option<Frames>): Option<Frames> {
    if a.Some? && b.Some? then Some(b.value + a.value) else None
  }

  lemma JoinAssociates(a: Option<Frames>, b: Option<Frames>, c: Option<Frames>)
    ensures Join(Join(a, b), c) == Join(a, Join(b, c))
  {
    if a.Some? && b.Some? && c.Some? {
      MergeAssociates(c.value, b.value, a.value);
    }
  }

  function Rest(rect: Frame, axis: Axis, first: int, gap: int): Frame {
    SecondRect(rect, axis, first, Length(rect, axis) - first - gap, gap)
  }

  /** Panes laid side by side, each at its own length. */
  function RunPlan(panes: seq<SizedPane>, rect: Frame, axis: Axis, gap: int, resolve: Resolver): Option<Frames>
    requires panes != []
  {
    if |panes| == 1 then Solve(panes[0].node, rect, gap, resolve)
    else Join(Solve(panes[0].node, FirstRect(rect, axis, panes[0].size), gap, resolve),
              RunPlan(panes[1..], Rest(rect, axis, panes[0].size, gap), axis, gap, resolve))
  }

  ghost predicate Measured(panes: seq<SizedPane>, rect: Frame, axis: Axis, gap: int) {
    && panes != []
    && (forall i :: 0 <= i < |panes| ==> panes[i].size > 0)
    && gap >= 0
    && Total(panes, gap) == Length(rect, axis)
  }

  lemma {:induction false} TotalOfConcat(a: seq<SizedPane>, b: seq<SizedPane>, gap: int)
    requires a != [] && b != []
    ensures Total(a + b, gap) == Total(a, gap) + gap + Total(b, gap)
  {
    assert (a + b)[1..] == a[1..] + b;
    if |a| > 1 {
      TotalOfConcat(a[1..], b, gap);
    } else {
      assert a[1..] + b == b;
    }
  }

  lemma {:induction false} TotalPositive(panes: seq<SizedPane>, gap: int)
    requires panes != [] && gap >= 0 && forall i :: 0 <= i < |panes| ==> panes[i].size > 0
    ensures Total(panes, gap) > 0
  {
    if |panes| > 1 {
      TotalPositive(panes[1..], gap);
    }
  }

  /** A run cut in two is two runs side by side. */
  lemma {:induction false} RunOfConcat(a: seq<SizedPane>, b: seq<SizedPane>, rect: Frame, axis: Axis, gap: int,
                                       resolve: Resolver)
    requires a != [] && b != [] && Total(a + b, gap) == Length(rect, axis)
    ensures RunPlan(a + b, rect, axis, gap, resolve)
            == Join(RunPlan(a, FirstRect(rect, axis, Total(a, gap)), axis, gap, resolve),
                    RunPlan(b, SecondRect(rect, axis, Total(a, gap), Total(b, gap), gap), axis, gap, resolve))
  {
    hide Solve, Join;
    assert (a + b)[1..] == a[1..] + b;
    TotalOfConcat(a, b, gap);
    if |a| == 1 {
      assert a[1..] + b == b;
    } else {
      var rest := Rest(rect, axis, a[0].size, gap);
      TotalOfConcat(a[1..], b, gap);
      RunOfConcat(a[1..], b, rest, axis, gap, resolve);
      JoinAssociates(Solve(a[0].node, FirstRect(rect, axis, a[0].size), gap, resolve),
                     RunPlan(a[1..], FirstRect(rest, axis, Total(a[1..], gap)), axis, gap, resolve),
                     RunPlan(b, SecondRect(rest, axis, Total(a[1..], gap), Total(b, gap), gap), axis, gap, resolve));
    }
  }

  lemma SplitMeasured(panes: seq<SizedPane>, n: nat, rect: Frame, axis: Axis, gap: int)
    requires Measured(panes, rect, axis, gap) && 0 < n < |panes|
    ensures var a, b := Total(panes[..n], gap), Total(panes[n..], gap);
            && a > 0 && b > 0 && a + gap + b == Length(rect, axis)
            && Measured(panes[..n], FirstRect(rect, axis, a), axis, gap)
            && Measured(panes[n..], SecondRect(rect, axis, a, b, gap), axis, gap)
  {
    assert panes == panes[..n] + panes[n..];
    TotalOfConcat(panes[..n], panes[n..], gap);
    TotalPositive(panes[..n], gap);
    TotalPositive(panes[n..], gap);
  }

  lemma {:induction false} RebuildSize(node: Node, axis: Axis, panes: seq<SizedPane>, gap: int)
    requires |panes| == |Flatten(node, axis)|
    ensures Rebuild(node, axis, panes, gap).size == Total(panes, gap)
  {
    hide RatioForLength;
    if node.Split? && node.axis == axis {
      var n := |Flatten(node.first, axis)|;
      RebuildSize(node.first, axis, panes[..n], gap);
      RebuildSize(node.second, axis, panes[n..], gap);
      TotalOfConcat(panes[..n], panes[n..], gap);
      assert panes[..n] + panes[n..] == panes;
    }
  }

  /** Refilling a divider topology lays the panes out as a run: every divider lands between the
      lengths it was built from. */
  lemma {:induction false} RebuiltRunSolves(node: Node, axis: Axis, panes: seq<SizedPane>, rect: Frame, gap: int,
                                            resolve: Resolver)
    requires |panes| == |Flatten(node, axis)| && Measured(panes, rect, axis, gap)
    requires RunPlan(panes, rect, axis, gap, resolve).Some?
    ensures Solve(Rebuild(node, axis, panes, gap).node, rect, gap, resolve) == RunPlan(panes, rect, axis, gap, resolve)
  {
    if node.Split? && node.axis == axis {
      var n := |Flatten(node.first, axis)|;
      RebuiltHalves(node, axis, panes, rect, gap, resolve);
      var a, b := Total(panes[..n], gap), Total(panes[n..], gap);
      RebuiltRunSolves(node.first, axis, panes[..n], FirstRect(rect, axis, a), gap, resolve);
      RebuiltRunSolves(node.second, axis, panes[n..], SecondRect(rect, axis, a, b, gap), gap, resolve);
      RebuiltNodeSolves(node, axis, panes, rect, gap, resolve);
    } else {
      hide Solve;
      assert |panes| == 1;
    }
  }

  lemma RebuiltHalves(node: Node, axis: Axis, panes: seq<SizedPane>, rect: Frame, gap: int, resolve: Resolver)
    requires node.Split? && node.axis == axis && |panes| == |Flatten(node, axis)| && Measured(panes, rect, axis, gap)
    requires RunPlan(panes, rect, axis, gap, resolve).Some?
    ensures var n := |Flatten(node.first, axis)|;
            && 0 < n < |panes| && |panes| - n == |Flatten(node.second, axis)|
            && var a, b := Total(panes[..n], gap), Total(panes[n..], gap);
            && a > 0 && b > 0 && a + gap + b == Length(rect, axis)
            && Measured(panes[..n], FirstRect(rect, axis, a), axis, gap)
            && Measured(panes[n..], SecondRect(rect, axis, a, b, gap), axis, gap)
            && RunPlan(panes[..n], FirstRect(rect, axis, a), axis, gap, resolve).Some?
            && RunPlan(panes[n..], SecondRect(rect, axis, a, b, gap), axis, gap, resolve).Some?
            && RunPlan(panes, rect, axis, gap, resolve)
               == Join(RunPlan(panes[..n], FirstRect(rect, axis, a), axis, gap, resolve),
                       RunPlan(panes[n..], SecondRect(rect, axis, a, b, gap), axis, gap, resolve))
  {
    hide Solve, RunPlan;
    var n := |Flatten(node.first, axis)|;
    SplitMeasured(panes, n, rect, axis, gap);
    assert panes == panes[..n] + panes[n..];
    RunOfConcat(panes[..n], panes[n..], rect, axis, gap, resolve);
  }

  lemma RebuiltNodeSolves(node: Node, axis: Axis, panes: seq<SizedPane>, rect: Frame, gap: int, resolve: Resolver)
    requires node.Split? && node.axis == axis && |panes| == |Flatten(node, axis)|
    requires var n := |Flatten(node.first, axis)|;
             && 0 < n < |panes| && |panes| - n == |Flatten(node.second, axis)|
             && var a, b := Total(panes[..n], gap), Total(panes[n..], gap);
             && a > 0 && b > 0 && a + gap + b == Length(rect, axis)
             && Solve(Rebuild(node.first, axis, panes[..n], gap).node, FirstRect(rect, axis, a), gap, resolve).Some?
             && Solve(Rebuild(node.second, axis, panes[n..], gap).node, SecondRect(rect, axis, a, b, gap), gap, resolve).Some?
    ensures var n := |Flatten(node.first, axis)|;
            var a, b := Total(panes[..n], gap), Total(panes[n..], gap);
            Solve(Rebuild(node, axis, panes, gap).node, rect, gap, resolve)
            == Join(Solve(Rebuild(node.first, axis, panes[..n], gap).node, FirstRect(rect, axis, a), gap, resolve),
                    Solve(Rebuild(node.second, axis, panes[n..], gap).node, SecondRect(rect, axis, a, b, gap), gap, resolve))
  {
    hide Halve, RatioForLength, Flatten, Preferred, Total;
    var n := |Flatten(node.first, axis)|;
    var a, b := Total(panes[..n], gap), Total(panes[n..], gap);
    RebuildSize(node.first, axis, panes[..n], gap);
    RebuildSize(node.second, axis, panes[n..], gap);
    var rebuilt := Rebuild(node, axis, panes, gap).node;
    RatioForLengthIsExact(a as real, a + b);
    assert a + gap + b - gap == a + b;
    DividerStays(rebuilt, rect, gap, resolve, a, b);
  }

  // ---------------------------------------------------------------- a solved tree is a run

  /** The panes of a run with the lengths they are seen at. */
  function Measure(panes: seq<Node>, frames: Frames, axis: Axis): (r: seq<SizedPane>)
    ensures |r| == |panes|
    ensures forall i :: 0 <= i < |panes| ==> r[i] == SizedPane(panes[i], Length(Hull(panes[i], frames), axis))
  {
    if panes == [] then [] else
      [SizedPane(panes[0], Length(Hull(panes[0], frames), axis))] + Measure(panes[1..], frames, axis)
  }

  lemma {:induction false} MeasureOfConcat(a: seq<Node>, b: seq<Node>, frames: Frames, axis: Axis)
    ensures Measure(a + b, frames, axis) == Measure(a, frames, axis) + Measure(b, frames, axis)
  {
  }

  lemma {:induction false} SolvedTreeIsRun(node: Node, rect: Frame, axis: Axis, gap: int, resolve: Resolver,
                                           frames: Frames)
    requires gap >= 0 && Distinct(node) && Solve(node, rect, gap, resolve).Some?
    requires Shows(frames, node, Solve(node, rect, gap, resolve).value)
    requires Length(rect, axis) > 0
    ensures var panes := Measure(Flatten(node, axis), frames, axis);
            && Measured(panes, rect, axis, gap)
            && RunPlan(panes, rect, axis, gap, resolve) == Solve(node, rect, gap, resolve)
  {
    hide Solve, Halve, Shows, Distinct, Measured, RunPlan;
    if node.Split? && node.axis == axis {
      HullOfHalves(node, rect, gap, resolve, frames);
      var r := Halve(node, rect, gap, resolve);
      SolvedTreeIsRun(node.first, FirstRect(rect, axis, r.first), axis, gap, resolve, frames);
      SolvedTreeIsRun(node.second, SecondRect(rect, axis, r.first, r.second, gap), axis, gap, resolve, frames);
      JoinedRuns(node, rect, gap, resolve, frames);
    } else {
      HullIsRect(node, rect, gap, resolve, frames);
      SinglePane(node, rect, axis, gap, resolve, frames);
    }
  }

  lemma SinglePane(node: Node, rect: Frame, axis: Axis, gap: int, resolve: Resolver, frames: Frames)
    requires gap >= 0 && Length(rect, axis) > 0 && Hull(node, frames) == rect
    ensures var panes := Measure([node], frames, axis);
            Measured(panes, rect, axis, gap)
            && RunPlan(panes, rect, axis, gap, resolve) == Solve(node, rect, gap, resolve)
  {
    hide Solve;
  }

  lemma JoinedRuns(node: Node, rect: Frame, gap: int, resolve: Resolver, frames: Frames)
    requires node.Split? && Solve(node, rect, gap, resolve).Some?
    requires var r := Halve(node, rect, gap, resolve);
             var axis := node.axis;
             var p := Measure(Flatten(node.first, axis), frames, axis);
             var q := Measure(Flatten(node.second, axis), frames, axis);
             var firstRect := FirstRect(rect, axis, r.first);
             var secondRect := SecondRect(rect, axis, r.first, r.second, gap);
             && r.first + gap + r.second == Length(rect, axis)
             && Measured(p, firstRect, axis, gap) && Measured(q, secondRect, axis, gap)
             && RunPlan(p, firstRect, axis, gap, resolve) == Solve(node.first, firstRect, gap, resolve)
             && RunPlan(q, secondRect, axis, gap, resolve) == Solve(node.second, secondRect, gap, resolve)
    ensures var panes := Measure(Flatten(node, node.axis), frames, node.axis);
            && Measured(panes, rect, node.axis, gap)
            && RunPlan(panes, rect, node.axis, gap, resolve) == Solve(node, rect, gap, resolve)
  {
    hide Solve, Halve, RunPlan, Hull;
    var axis := node.axis;
    var r := Halve(node, rect, gap, resolve);
    var p := Measure(Flatten(node.first, axis), frames, axis);
    var q := Measure(Flatten(node.second, axis), frames, axis);
    MeasureOfConcat(Flatten(node.first, axis), Flatten(node.second, axis), frames, axis);
    TotalOfConcat(p, q, gap);
    RunOfConcat(p, q, rect, axis, gap, resolve);
    SolveOfSplit(node, rect, gap, resolve);
  }

  // ---------------------------------------------------------------- panes fit wherever their size does

  /** Whether a tree can be planned depends on the rectangle's size, not on where it is. */
  lemma {:induction false} SolvableBySize(node: Node, a: Frame, b: Frame, gap: int, resolve: Resolver)
    requires a.width == b.width && a.height == b.height
    ensures Solve(node, a, gap, resolve).Some? <==> Solve(node, b, gap, resolve).Some?
  {
    if node.Split? {
      assert Halve(node, a, gap, resolve) == Halve(node, b, gap, resolve);
      hide Halve;
      var r := Halve(node, a, gap, resolve);
      SolvableBySize(node.first, FirstRect(a, node.axis, r.first), FirstRect(b, node.axis, r.first), gap, resolve);
      SolvableBySize(node.second, SecondRect(a, node.axis, r.first, r.second, gap),
                     SecondRect(b, node.axis, r.first, r.second, gap), gap, resolve);
    }
  }

  /** Each pane can be planned at its own length and the run's breadth. */
  ghost predicate Fits(panes: seq<SizedPane>, rect: Frame, axis: Axis, gap: int, resolve: Resolver) {
    forall i :: 0 <= i < |panes| ==> Solve(panes[i].node, Shrink(rect, axis, panes[i].size), gap, resolve).Some?
  }

  lemma {:induction false} RunSolvable(panes: seq<SizedPane>, rect: Frame, axis: Axis, gap: int, resolve: Resolver)
    requires Measured(panes, rect, axis, gap)
    ensures RunPlan(panes, rect, axis, gap, resolve).Some? <==> Fits(panes, rect, axis, gap, resolve)
  {
    hide Solve;
    if |panes| == 1 {
      assert Shrink(rect, axis, panes[0].size) == rect;
    } else {
      var rest := Rest(rect, axis, panes[0].size, gap);
      RunSolvable(panes[1..], rest, axis, gap, resolve);
      forall i | 0 <= i < |panes| - 1
        ensures Solve(panes[1..][i].node, Shrink(rest, axis, panes[1..][i].size), gap, resolve).Some?
                <==> Solve(panes[i + 1].node, Shrink(rect, axis, panes[i + 1].size), gap, resolve).Some?
      {
        SolvableBySize(panes[i + 1].node, Shrink(rest, axis, panes[i + 1].size),
                       Shrink(rect, axis, panes[i + 1].size), gap, resolve);
      }
      FitsFromRest(panes, rect, rest, axis, gap, resolve);
    }
  }

  lemma FitsFromRest(panes: seq<SizedPane>, rect: Frame, rest: Frame, axis: Axis, gap: int, resolve: Resolver)
    requires |panes| >= 2
    requires forall i :: 0 <= i < |panes| - 1 ==>
               (Solve(panes[1..][i].node, Shrink(rest, axis, panes[1..][i].size), gap, resolve).Some?
                <==> Solve(panes[i + 1].node, Shrink(rect, axis, panes[i + 1].size), gap, resolve).Some?)
    ensures Fits(panes, rect, axis, gap, resolve)
            <==> Solve(panes[0].node, Shrink(rect, axis, panes[0].size), gap, resolve).Some?
                 && Fits(panes[1..], rest, axis, gap, resolve)
  {
    hide Solve;
    if Solve(panes[0].node, Shrink(rect, axis, panes[0].size), gap, resolve).Some? && Fits(panes[1..], rest, axis, gap, resolve) {
      forall i | 0 <= i < |panes| ensures Solve(panes[i].node, Shrink(rect, axis, panes[i].size), gap, resolve).Some? {
        if i > 0 {
          assert panes[1..][i - 1] == panes[i];
        }
      }
    }
    if Fits(panes, rect, axis, gap, resolve) {
      forall i | 0 <= i < |panes| - 1 ensures Solve(panes[1..][i].node, Shrink(rest, axis, panes[1..][i].size), gap, resolve).Some? {
        assert panes[1..][i] == panes[i + 1];
      }
    }
  }

  function SwapPanes(panes: seq<SizedPane>, i: nat, j: nat): (r: seq<SizedPane>)
    requires i < |panes| && j < |panes|
    ensures |r| == |panes|
    ensures forall k :: 0 <= k < |panes| ==> r[k] == if k == j then panes[i] else if k == i then panes[j] else panes[k]
  {
    panes[i := panes[j]][j := panes[i]]
  }

  function Sum(panes: seq<SizedPane>): int {
    if panes == [] then 0 else panes[0].size + Sum(panes[1..])
  }

  lemma {:induction false} TotalIsSum(panes: seq<SizedPane>, gap: int)
    requires panes != []
    ensures Total(panes, gap) == Sum(panes) + (|panes| - 1) * gap
  {
    if |panes| > 1 {
      TotalIsSum(panes[1..], gap);
      assert (|panes| - 1) * gap == (|panes| - 2) * gap + gap;
    }
  }

  lemma {:induction false} SumOfUpdate(panes: seq<SizedPane>, i: nat, pane: SizedPane)
    requires i < |panes|
    ensures Sum(panes[i := pane]) == Sum(panes) - panes[i].size + pane.size
  {
    if i > 0 {
      SumOfUpdate(panes[1..], i - 1, pane);
      assert panes[i := pane][1..] == panes[1..][i - 1 := pane];
    } else {
      assert panes[0 := pane][1..] == panes[1..];
    }
  }

  /** The total extent of a run does not change when two panes trade places. */
  lemma SwapKeepsTotal(panes: seq<SizedPane>, i: nat, j: nat, gap: int)
    requires i < |panes| && j < |panes|
    ensures Total(SwapPanes(panes, i, j), gap) == Total(panes, gap)
  {
    hide Sum;
    TotalIsSum(panes, gap);
    TotalIsSum(SwapPanes(panes, i, j), gap);
    SumOfUpdate(panes, i, panes[j]);
    SumOfUpdate(panes[i := panes[j]], j, panes[i]);
    assert panes[i := panes[j]][j] == panes[j];
  }

  lemma SwappedRunSolves(panes: seq<SizedPane>, i: nat, j: nat, rect: Frame, axis: Axis, gap: int, resolve: Resolver)
    requires Measured(panes, rect, axis, gap) && i < |panes| && j < |panes|
    requires RunPlan(panes, rect, axis, gap, resolve).Some?
    ensures Measured(SwapPanes(panes, i, j), rect, axis, gap)
    ensures RunPlan(SwapPanes(panes, i, j), rect, axis, gap, resolve).Some?
  {
    hide Solve, RunPlan, Total;
    SwapKeepsTotal(panes, i, j, gap);
    RunSolvable(panes, rect, axis, gap, resolve);
    RunSolvable(SwapPanes(panes, i, j), rect, axis, gap, resolve);
  }

  // ---------------------------------------------------------------- lengths travel with the panes

  /** In the plan of a run every pane is seen at the length it was given. */
  lemma {:induction false} RunShowsLengths(panes: seq<SizedPane>, rect: Frame, axis: Axis, gap: int, resolve: Resolver,
                                           frames: Frames, i: nat)
    requires Measured(panes, rect, axis, gap) && RunPlan(panes, rect, axis, gap, resolve).Some? && i < |panes|
    requires forall id :: BagOf(Nodes(panes))[id] <= 1
    requires var plan := RunPlan(panes, rect, axis, gap, resolve).value;
             forall id :: id in plan ==> id in frames && frames[id] == plan[id]
    ensures Length(Hull(panes[i].node, frames), axis) == panes[i].size
  {
    hide Solve, Hull, BagOf;
    if |panes| == 1 {
      OnePane(panes);
      PaneShowsLength(panes[0].node, rect, axis, gap, resolve, frames);
    } else {
      RunParts(panes, rect, axis, gap, resolve, frames);
      if i == 0 {
        PaneShowsLength(panes[0].node, FirstRect(rect, axis, panes[0].size), axis, gap, resolve, frames);
      } else {
        RunShowsLengths(panes[1..], Rest(rect, axis, panes[0].size, gap), axis, gap, resolve, frames, i - 1);
      }
    }
  }

  lemma PaneShowsLength(node: Node, rect: Frame, axis: Axis, gap: int, resolve: Resolver, frames: Frames)
    requires gap >= 0 && Solve(node, rect, gap, resolve).Some? && forall id :: Bag(node)[id] <= 1
    requires var plan := Solve(node, rect, gap, resolve).value;
             forall id :: id in plan ==> id in frames && frames[id] == plan[id]
    ensures Length(Hull(node, frames), axis) == Length(rect, axis)
  {
    hide Solve, Hull;
    HullIsRect(node, rect, gap, resolve, frames);
  }

  lemma RunParts(panes: seq<SizedPane>, rect: Frame, axis: Axis, gap: int, resolve: Resolver, frames: Frames)
    requires |panes| >= 2 && Measured(panes, rect, axis, gap) && RunPlan(panes, rect, axis, gap, resolve).Some?
    requires forall id :: BagOf(Nodes(panes))[id] <= 1
    requires var plan := RunPlan(panes, rect, axis, gap, resolve).value;
             forall id :: id in plan ==> id in frames && frames[id] == plan[id]
    ensures var rest := Rest(rect, axis, panes[0].size, gap);
            && Measured(panes[1..], rest, axis, gap)
            && (forall id :: Bag(panes[0].node)[id] <= 1)
            && (forall id :: BagOf(Nodes(panes[1..]))[id] <= 1)
            && Solve(panes[0].node, FirstRect(rect, axis, panes[0].size), gap, resolve).Some?
            && RunPlan(panes[1..], rest, axis, gap, resolve).Some?
            && (var a := Solve(panes[0].node, FirstRect(rect, axis, panes[0].size), gap, resolve).value;
                forall id :: id in a ==> id in frames && frames[id] == a[id])
            && (var b := RunPlan(panes[1..], rest, axis, gap, resolve).value;
                forall id :: id in b ==> id in frames && frames[id] == b[id])
  {
    hide Solve, BagOf;
    var rest := Rest(rect, axis, panes[0].size, gap);
    RunBagOfRest(panes);
    var a := Solve(panes[0].node, FirstRect(rect, axis, panes[0].size), gap, resolve).value;
    var b := RunPlan(panes[1..], rest, axis, gap, resolve).value;
    forall id ensures Bag(panes[0].node)[id] + BagOf(Nodes(panes[1..]))[id] <= 1 {
      assert BagOf(Nodes(panes))[id] <= 1;
    }
    forall id | id in b ensures id !in a {
      RunWindows(panes[1..], rest, axis, gap, resolve, id);
    }
  }

  lemma RunBagOfRest(panes: seq<SizedPane>)
    requires |panes| >= 2
    ensures BagOf(Nodes(panes)) == Bag(panes[0].node) + BagOf(Nodes(panes[1..]))
  {
    assert Nodes(panes)[1..] == Nodes(panes[1..]);
  }

  lemma {:induction false} RunWindows(panes: seq<SizedPane>, rect: Frame, axis: Axis, gap: int, resolve: Resolver,
                                      id: WindowId)
    requires panes != [] && RunPlan(panes, rect, axis, gap, resolve).Some?
    ensures id in RunPlan(panes, rect, axis, gap, resolve).value <==> BagOf(Nodes(panes))[id] > 0
  {
    hide Solve, BagOf;
    if |panes| == 1 {
      OnePane(panes);
    } else {
      RunBagOfRest(panes);
      RunWindows(panes[1..], Rest(rect, axis, panes[0].size, gap), axis, gap, resolve, id);
    }
  }

  // ---------------------------------------------------------------- the swap

  /** The topology of a run refilled with its panes `i` and `j` exchanged. */
  function Swapped(run: Node, axis: Axis, frames: Frames, i: nat, j: nat, gap: int): Node
    requires i < |Flatten(run, axis)| && j < |Flatten(run, axis)|
  {
    Rebuild(run, axis, SwapPanes(Measure(Flatten(run, axis), frames, axis), i, j), gap).node
  }

  lemma NodesOfParts(panes: seq<SizedPane>, n: nat)
    requires n <= |panes|
    ensures Nodes(panes) == Nodes(panes[..n]) + Nodes(panes[n..])
  {
  }

  lemma RebuiltPane(node: Node, axis: Axis, panes: seq<SizedPane>, gap: int)
    requires |panes| == |Flatten(node, axis)| && !(node.Split? && node.axis == axis)
    requires !(panes[0].node.Split? && panes[0].node.axis == axis)
    ensures Flatten(Rebuild(node, axis, panes, gap).node, axis) == [panes[0].node] == Nodes(panes)
  {
    assert |panes| == 1;
  }

  ghost predicate OffAxis(panes: seq<SizedPane>, axis: Axis) {
    forall i :: 0 <= i < |panes| ==> !(panes[i].node.Split? && panes[i].node.axis == axis)
  }

  lemma OffAxisParts(panes: seq<SizedPane>, axis: Axis, n: nat)
    requires OffAxis(panes, axis) && n <= |panes|
    ensures OffAxis(panes[..n], axis) && OffAxis(panes[n..], axis)
  {
  }

  lemma {:induction false} FlattenOfRebuilt(node: Node, axis: Axis, panes: seq<SizedPane>, gap: int)
    requires |panes| == |Flatten(node, axis)| && OffAxis(panes, axis)
    ensures Flatten(Rebuild(node, axis, panes, gap).node, axis) == Nodes(panes)
  {
    hide Rebuild, Nodes;
    if node.Split? && node.axis == axis {
      var n := |Flatten(node.first, axis)|;
      RebuiltFlattens(node, axis, panes, gap);
      hide Flatten, OffAxis;
      OffAxisParts(panes, axis, n);
      FlattenOfRebuilt(node.first, axis, panes[..n], gap);
      FlattenOfRebuilt(node.second, axis, panes[n..], gap);
      NodesOfParts(panes, n);
    } else {
      RebuiltPane(node, axis, panes, gap);
    }
  }

  lemma RebuiltFlattens(node: Node, axis: Axis, panes: seq<SizedPane>, gap: int)
    requires |panes| == |Flatten(node, axis)| && node.Split? && node.axis == axis
    ensures var n := |Flatten(node.first, axis)|;
            && n <= |panes| && |panes| - n == |Flatten(node.second, axis)|
            && Flatten(Rebuild(node, axis, panes, gap).node, axis)
               == Flatten(Rebuild(node.first, axis, panes[..n], gap).node, axis)
                + Flatten(Rebuild(node.second, axis, panes[n..], gap).node, axis)
  {
    hide RatioForLength;
  }

  lemma TurnedOffAxis(run: Node, axis: Axis, frames: Frames, i: nat, j: nat)
    requires i < |Flatten(run, axis)| && j < |Flatten(run, axis)|
    ensures OffAxis(SwapPanes(Measure(Flatten(run, axis), frames, axis), i, j), axis)
  {
    hide Flatten, Hull;
    var turned := SwapPanes(Measure(Flatten(run, axis), frames, axis), i, j);
    forall k | 0 <= k < |turned| ensures !(turned[k].node.Split? && turned[k].node.axis == axis) {
      PanesAreNotOnAxis(run, axis, if k == i then j else if k == j then i else k);
    }
  }

  lemma SwappedPanes(run: Node, axis: Axis, frames: Frames, i: nat, j: nat, gap: int)
    requires i < |Flatten(run, axis)| && j < |Flatten(run, axis)|
    ensures var panes := Flatten(run, axis);
            Flatten(Swapped(run, axis, frames, i, j, gap), axis) == panes[i := panes[j]][j := panes[i]]
    ensures Bag(Swapped(run, axis, frames, i, j, gap)) == Bag(run)
  {
    hide Flatten, Bag, Rebuild, BagOf, Hull;
    var panes := Flatten(run, axis);
    var sized := SwapPanes(Measure(panes, frames, axis), i, j);
    var expected := panes[i := panes[j]][j := panes[i]];
    TurnedOffAxis(run, axis, frames, i, j);
    assert Nodes(sized) == expected;
    FlattenOfRebuilt(run, axis, sized, gap);
    RebuildBag(run, axis, sized, gap);
    SwapTwoBag(panes, i, j);
    FlattenBag(run, axis);
  }

  /** Swapping carries lengths. Re-planning the swapped run in the same rectangle succeeds, shows
      each pane, in its new position, at the length it had before, and swapping the same positions
      again brings back every frame. */
  lemma SwapCarriesLengths(run: Node, rect: Frame, axis: Axis, gap: int, resolve: Resolver, i: nat, j: nat)
    requires gap >= 0 && Distinct(run) && Length(rect, axis) > 0
    requires i < |Flatten(run, axis)| && j < |Flatten(run, axis)|
    requires Solve(run, rect, gap, resolve).Some?
    ensures var before := Solve(run, rect, gap, resolve).value;
            var swapped := Swapped(run, axis, before, i, j, gap);
            var after := Solve(swapped, rect, gap, resolve);
            && after.Some?
            && |Flatten(swapped, axis)| == |Flatten(run, axis)|
            && (forall pane :: pane in Flatten(run, axis) ==>
                  Length(Hull(pane, after.value), axis) == Length(Hull(pane, before), axis))
            && Solve(Swapped(swapped, axis, after.value, i, j, gap), rect, gap, resolve) == Some(before)
  {
    hide Solve, Flatten, Bag, Rebuild, Hull, RunPlan, BagOf, Distinct, Measured;
    var before := Solve(run, rect, gap, resolve).value;
    var panes := Flatten(run, axis);
    var sized := Measure(panes, before, axis);
    SolvedTreeIsRun(run, rect, axis, gap, resolve, before);
    var turned := SwapPanes(sized, i, j);
    SwappedRunSolves(sized, i, j, rect, axis, gap, resolve);
    RebuiltRunSolves(run, axis, turned, rect, gap, resolve);
    var swapped := Swapped(run, axis, before, i, j, gap);
    var after := Solve(swapped, rect, gap, resolve).value;
    SwappedPanes(run, axis, before, i, j, gap);
    SwappedLengths(run, rect, axis, gap, resolve, i, j, after);
    var back := Measure(Flatten(swapped, axis), after, axis);
    forall k | 0 <= k < |back| ensures back[k] == turned[k] {
      assert Flatten(swapped, axis)[k] == turned[k].node;
    }
    assert back == turned;
    assert SwapPanes(back, i, j) == sized;
    RebuiltRunSolves(swapped, axis, sized, rect, gap, resolve);
    forall pane | pane in panes ensures Length(Hull(pane, after), axis) == Length(Hull(pane, before), axis) {
      var k :| 0 <= k < |panes| && panes[k] == pane;
      var k' := if k == i then j else if k == j then i else k;
      assert turned[k'] == sized[k];
    }
  }

  lemma SwappedLengths(run: Node, rect: Frame, axis: Axis, gap: int, resolve: Resolver, i: nat, j: nat, after: Frames)
    requires Distinct(run) && i < |Flatten(run, axis)| && j < |Flatten(run, axis)|
    requires Solve(run, rect, gap, resolve).Some?
    requires var before := Solve(run, rect, gap, resolve).value;
             var turned := SwapPanes(Measure(Flatten(run, axis), before, axis), i, j);
             Measured(turned, rect, axis, gap) && RunPlan(turned, rect, axis, gap, resolve) == Some(after)
    ensures var before := Solve(run, rect, gap, resolve).value;
            var turned := SwapPanes(Measure(Flatten(run, axis), before, axis), i, j);
            forall k :: 0 <= k < |turned| ==> Length(Hull(turned[k].node, after), axis) == turned[k].size
  {
    hide Solve, Flatten, Bag, Rebuild, Hull, RunPlan, BagOf, Measured;
    var before := Solve(run, rect, gap, resolve).value;
    var panes := Flatten(run, axis);
    var turned := SwapPanes(Measure(panes, before, axis), i, j);
    assert Nodes(turned) == panes[i := panes[j]][j := panes[i]];
    SwapTwoBag(panes, i, j);
    FlattenBag(run, axis);
    forall k | 0 <= k < |turned| ensures Length(Hull(turned[k].node, after), axis) == turned[k].size {
      RunShowsLengths(turned, rect, axis, gap, resolve, after, k);
    }
  }
}
