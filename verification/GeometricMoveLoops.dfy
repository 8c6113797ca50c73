/** The step-by-step parts of the directional move, each proved to compute its specification. */
module GeometricMoveLoops {
  import opened Geometry
  import opened BspTree
  import opened Partition
  import opened Planner
  import opened Subtrees
  import opened GeometricMove

  /** Regions pushed in visiting order. */
  class RegionList {
    var regions: seq<Region>

    constructor ()
      ensures regions == []
    {
      regions := [];
    }

    method Collect(node: Node, path: seq<Node>, frames: Frames) returns (own: Option<Region>)
      modifies this
      ensures regions == old(regions) + Visit(node, path, frames).0
      ensures own == Visit(node, path, frames).1
      decreases node
    {
      match node
      case Leaf(id) =>
        if id !in frames || !Positive(frames[id]) {
          return None;
        }
        var region := Region(node, frames[id], Area(frames[id]), path);
        regions := regions + [region];
        return Some(region);
      case Split(_, _, first, second) =>
        ghost var before := regions;
        var a := Collect(first, path + [node], frames);
        var b := Collect(second, path + [node], frames);
        ghost var inFirst := GeometricMove.Visit(first, path + [node], frames).0;
        ghost var inSecond := GeometricMove.Visit(second, path + [node], frames).0;
        assert regions == before + (inFirst + inSecond);
        if a.None? || b.None? {
          return None;
        }
        own := Some(Joined(node, a.value, b.value, path));
        Appended(before, inFirst + inSecond, own.value);
        regions := regions + [own.value];
    }
  }

  function Joined(node: Node, a: Region, b: Region, path: seq<Node>): Region {
    Region(node, Union(a.frame, b.frame), a.area + b.area, path)
  }

  lemma Appended(before: seq<Region>, inner: seq<Region>, own: Region)
    ensures before + inner + [own] == before + (inner + [own])
  {
  }

  lemma RunSplits(node: Node, axis: Axis)
    ensures node.Split? && node.axis == axis ==>
              |Flatten(node, axis)| == |Flatten(node.first, axis)| + |Flatten(node.second, axis)|
    ensures !(node.Split? && node.axis == axis) ==> |Flatten(node, axis)| == 1
  {
  }

  lemma LonePane(node: Node, axis: Axis, panes: seq<SizedPane>, gap: int)
    requires |panes| == |Flatten(node, axis)| && !(node.Split? && node.axis == axis)
    ensures Rebuild(node, axis, panes, gap) == panes[0]
  {
  }

  lemma RefilledHalves(node: Node, axis: Axis, panes: seq<SizedPane>, gap: int, first: SizedPane, second: SizedPane)
    requires node.Split? && node.axis == axis && |panes| == |Flatten(node, axis)|
    requires var n := |Flatten(node.first, axis)|;
             && first == Rebuild(node.first, axis, panes[..n], gap) && second == Rebuild(node.second, axis, panes[n..], gap)
    ensures var size := first.size + gap + second.size;
            Rebuild(node, axis, panes, gap)
            == SizedPane(Split(axis, RatioForLength(first.size as real, size - gap), first.node, second.node), size)
  {
    hide RatioForLength;
    assert first.size + gap + second.size - gap == first.size + second.size;
  }

  /** Panes handed out one by one while a divider topology is refilled. */
  class PaneCursor {
    var index: nat

    constructor ()
      ensures index == 0
    {
      index := 0;
    }

    method Refill(node: Node, axis: Axis, ordered: seq<SizedPane>, gap: int) returns (r: SizedPane)
      requires index + |Flatten(node, axis)| <= |ordered|
      modifies this
      ensures index == old(index) + |Flatten(node, axis)|
      ensures r == Rebuild(node, axis, ordered[old(index)..index], gap)
      decreases node
    {
      RunSplits(node, axis);
      hide RatioForLength, Rebuild, Flatten;
      if node.Leaf? || node.axis != axis {
        LonePane(node, axis, ordered[index..index + 1], gap);
        r := ordered[index];
        index := index + 1;
      } else {
        ghost var start := index;
        var first := Refill(node.first, axis, ordered, gap);
        ghost var middle := index;
        var second := Refill(node.second, axis, ordered, gap);
        ghost var panes := ordered[start..index];
        assert panes[..middle - start] == ordered[start..middle];
        assert panes[middle - start..] == ordered[middle..index];
        var size := first.size + gap + second.size;
        r := SizedPane(Split(axis, RatioForLength(first.size as real, size - gap), first.node, second.node), size);
        RefilledHalves(node, axis, panes, gap, first, second);
      }
    }
  }

  /** Recursive slicing with the advancing border. */
  method SliceRegions(regions: seq<Region>, dimensions: seq<Axis>, gap: int) returns (r: Option<Node>)
    requires regions != []
    ensures r == SliceFrames(regions, dimensions, gap)
    decreases |regions|, 1
  {
    if |regions| == 1 {
      return Some(regions[0].node);
    }
    var bounds := UnionAll(regions);
    for d := 0 to |dimensions|
      invariant SliceAlong(regions, dimensions, dimensions, gap) == SliceAlong(regions, dimensions, dimensions[d..], gap)
    {
      var dimension := dimensions[d];
      var ordered := OrderedAlong(regions, dimension);
      var cut := SliceOrdered(ordered, dimensions, dimension, bounds, gap);
      if cut.Some? {
        return cut;
      }
    }
    r := None;
  }

  /** The scan for a border no region crosses, pushing the border out as it goes. */
  method SliceOrdered(ordered: seq<Region>, dimensions: seq<Axis>, dimension: Axis, bounds: Frame, gap: int)
    returns (cut: Option<Node>)
    requires |ordered| >= 2
    ensures cut == SliceFrom(ordered, dimensions, dimension, bounds, 1, gap)
    decreases |ordered|, 0
  {
    hide RatioForLength;
    var border := End(ordered[0].frame, dimension);
    for i := 1 to |ordered|
      invariant border == BorderOf(ordered, i, dimension)
      invariant SliceFrom(ordered, dimensions, dimension, bounds, 1, gap)
                == SliceFrom(ordered, dimensions, dimension, bounds, i, gap)
    {
      if border <= Start(ordered[i].frame, dimension) + BORDER_TOLERANCE {
        var first := SliceRegions(ordered[..i], dimensions, gap);
        var second := SliceRegions(ordered[i..], dimensions, gap);
        var ratio := RatioForLength((border - Start(bounds, dimension)) as real, Length(bounds, dimension) - gap);
        if first.Some? && second.Some? && IsValidRatio(ratio) {
          return Some(Split(dimension, ratio, first.value, second.value));
        }
      }
      border := Max(border, End(ordered[i].frame, dimension));
    }
    cut := None;
  }
}
