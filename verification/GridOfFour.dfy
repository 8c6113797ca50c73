/** Four windows in a grid of two columns: moving one along the row it stands in does change places with the next, and so
    turns the two columns into two rows. */
module GridOfFour {
  import opened Geometry
  import opened BspTree
  import opened Partition
  import opened Planner
  import opened Policies
  import opened Subtrees
  import opened GeometricMove

  datatype Grid = Grid(a: WindowId, b: WindowId, c: WindowId, d: WindowId, x: int, y: int, left: int, right: int, top: int, bottom: int,
                       gap: int, first: real, second: real, third: real)

  /** Every pane is wider and higher than a border may drift. */
  predicate Proper(q: Grid) {
    && q.a != q.b && q.a != q.c && q.a != q.d && q.b != q.c && q.b != q.d && q.c != q.d
    && q.left > 2 && q.right > 2 && q.top > 2 && q.bottom > 2 && q.gap >= 0
  }

  function LeftColumn(q: Grid): Node { Split(Horizontal, q.second, Leaf(q.a), Leaf(q.b)) }

  function RightColumn(q: Grid): Node { Split(Horizontal, q.third, Leaf(q.c), Leaf(q.d)) }

  function Columns(q: Grid): Node { Split(Vertical, q.first, LeftColumn(q), RightColumn(q)) }

  function Across(q: Grid): int { q.x + q.left + q.gap }

  function Down(q: Grid): int { q.y + q.top + q.gap }

  function Seen(q: Grid): Frames {
    map[q.a := Frame(q.x, q.y, q.left, q.top), q.b := Frame(q.x, Down(q), q.left, q.bottom),
        q.c := Frame(Across(q), q.y, q.right, q.top), q.d := Frame(Across(q), Down(q), q.right, q.bottom)]
  }

  function RegionAt(q: Grid, id: WindowId, column: Node): Region
    requires id in Seen(q)
  {
    Region(Leaf(id), Seen(q)[id], Area(Seen(q)[id]), [Columns(q), column])
  }

  function Windows(q: Grid): seq<Region> {
    [RegionAt(q, q.a, LeftColumn(q)), RegionAt(q, q.b, LeftColumn(q)), RegionAt(q, q.c, RightColumn(q)), RegionAt(q, q.d, RightColumn(q))]
  }

  /** What is moved: the first window, to the right. */
  function Move(q: Grid, groups: bool): MoveInput { MoveInput(Columns(q), q.a, Right, Seen(q), q.gap, groups) }

  // ---------------------------------------------------------------- what is seen

  lemma KeepOne(r: Region, rest: seq<Region>, p: Region -> bool)
    ensures Keep([r] + rest, p) == (if p(r) then [r] else []) + Keep(rest, p)
  {
    assert ([r] + rest)[1..] == rest;
  }

  lemma FirstAndRest(a: seq<Region>, b: seq<Region>)
    requires a != []
    ensures a + b == [a[0]] + (a[1..] + b) && a == [a[0]] + a[1..]
  {
  }

  lemma Regroup(a: seq<Region>, b: seq<Region>, c: seq<Region>)
    ensures a + (b + c) == (a + b) + c
  {
  }

  lemma {:induction false} KeepBoth(a: seq<Region>, b: seq<Region>, p: Region -> bool)
    ensures Keep(a + b, p) == Keep(a, p) + Keep(b, p)
  {
    if a == [] {
      assert a + b == b && [] + Keep(b, p) == Keep(b, p);
    } else {
      hide Keep;
      FirstAndRest(a, b);
      KeepBoth(a[1..], b, p);
      KeepOne(a[0], a[1..] + b, p);
      KeepOne(a[0], a[1..], p);
      Regroup(if p(a[0]) then [a[0]] else [], Keep(a[1..], p), Keep(b, p));
    }
  }

  lemma {:induction false} KeepAll(a: seq<Region>, p: Region -> bool)
    requires forall r :: r in a ==> p(r)
    ensures Keep(a, p) == a
  {
    if a != [] {
      hide Keep;
      FirstAndRest(a, []);
      KeepOne(a[0], a[1..], p);
      KeepAll(a[1..], p);
    }
  }

  lemma KeepNone(r: Region, p: Region -> bool)
    requires !p(r)
    ensures Keep([r], p) == []
  {
  }

  lemma SeenColumn(q: Grid, upper: WindowId, lower: WindowId, column: Node)
    requires Proper(q) && upper in Seen(q) && lower in Seen(q) && column.Split?
    requires column.first == Leaf(upper) && column.second == Leaf(lower) && Positive(Seen(q)[upper]) && Positive(Seen(q)[lower])
    ensures var visited := Visit(column, [Columns(q)], Seen(q));
            && visited.1.Some?
            && visited.0 == [RegionAt(q, upper, column), RegionAt(q, lower, column)] + [visited.1.value]
  {
    assert [Columns(q)] + [column] == [Columns(q), column];
    assert Visit(column.first, [Columns(q), column], Seen(q)).0 == [RegionAt(q, upper, column)];
    assert Visit(column.second, [Columns(q), column], Seen(q)).0 == [RegionAt(q, lower, column)];
  }

  /** The windows of each column, then the column, then all. */
  ghost predicate SeenAs(q: Grid, all: seq<Region>, l: Region, r: Region, root: Region)
    requires Proper(q)
  {
    l.node.Split? && r.node.Split? && root.node.Split? && all == Windows(q)[..2] + [l] + (Windows(q)[2..] + [r]) + [root]
  }

  lemma SeenWindows(q: Grid)
    requires Proper(q)
    ensures var visited := Visit(Columns(q), [], Seen(q));
            visited.1.Some? && exists l, r :: SeenAs(q, visited.0, l, r, visited.1.value)
  {
    SeenColumn(q, q.a, q.b, LeftColumn(q));
    SeenColumn(q, q.c, q.d, RightColumn(q));
    var l, r := Visit(LeftColumn(q), [Columns(q)], Seen(q)).1.value, Visit(RightColumn(q), [Columns(q)], Seen(q)).1.value;
    assert [] + [Columns(q)] == [Columns(q)];
    assert SeenAs(q, Visit(Columns(q), [], Seen(q)).0, l, r, Visit(Columns(q), [], Seen(q)).1.value);
  }

  lemma KeptBut(a: seq<Region>, r: Region, p: Region -> bool)
    requires !p(r)
    ensures Keep(a + [r], p) == Keep(a, p)
  {
    hide Keep;
    KeepBoth(a, [r], p);
    KeepNone(r, p);
  }

  lemma KeptOf(a: seq<Region>, b: seq<Region>, l: Region, r: Region, root: Region, p: Region -> bool)
    requires !p(l) && !p(r) && !p(root)
    ensures Keep(a + [l] + (b + [r]) + [root], p) == Keep(a, p) + Keep(b, p)
  {
    hide Keep;
    KeptBut(a + [l] + (b + [r]), root, p);
    KeepBoth(a + [l], b + [r], p);
    KeptBut(a, l, p);
    KeptBut(b, r, p);
  }

  lemma LeavesOfGrid(q: Grid)
    requires Proper(q)
    ensures Keep(Visit(Columns(q), [], Seen(q)).0, (r: Region) => r.node.Leaf?) == Windows(q)
  {
    hide Visit;
    SeenWindows(q);
    var all, w, p := Visit(Columns(q), [], Seen(q)).0, Windows(q), (r: Region) => r.node.Leaf?;
    var l, r :| SeenAs(q, all, l, r, Visit(Columns(q), [], Seen(q)).1.value);
    hide Keep;
    KeptOf(w[..2], w[2..], l, r, Visit(Columns(q), [], Seen(q)).1.value, p);
    KeepBoth(w[..2], w[2..], p);
    assert w[..2] + w[2..] == w;
    KeepAll(w, p);
  }

  // ---------------------------------------------------------------- whom the move heads for

  lemma SortOne(u: Region, le: (Region, Region) -> bool)
    ensures SortRegions([u], le) == [u]
  {
    assert [u][1..] == [];
  }

  lemma SortTwo(u: Region, v: Region, le: (Region, Region) -> bool)
    ensures SortRegions([u, v], le) == if le(u, v) then [u, v] else [v, u]
  {
    assert [u, v][1..] == [v];
    SortOne(v, le);
    assert [v][1..] == [] && [v] + [u] == [v, u] && [u] + [v] == [u, v];
    assert InsertRegion(u, [], le) == [u];
    assert InsertRegion(u, [v], le) == if le(u, v) then [u] + [v] else [v] + InsertRegion(u, [], le);
  }

  lemma HeadsForTheNext(q: Grid)
    requires Proper(q)
    ensures ForwardTarget(Windows(q)[0], Windows(q), Vertical, false) == Some(Windows(q)[2])
  {
    hide Keep, SortRegions, IsForward, NoFarther, Windows;
    TwoAreAhead(q);
    FacesOnlyOne(q);
    FirstOfTwo(Windows(q), Vertical);
  }

  lemma TwoAreAhead(q: Grid)
    requires Proper(q)
    ensures var w := Windows(q);
            && |w| == 4 && !IsForward(w[0], w[0], Vertical, false) && !IsForward(w[0], w[1], Vertical, false)
            && IsForward(w[0], w[2], Vertical, false) && IsForward(w[0], w[3], Vertical, false)
  {
  }

  lemma FirstOfTwo(w: seq<Region>, axis: Axis)
    requires |w| == 4 && !IsForward(w[0], w[0], axis, false) && !IsForward(w[0], w[1], axis, false)
    requires IsForward(w[0], w[2], axis, false) && IsForward(w[0], w[3], axis, false) && NoFarther(w[0], axis, w[2], w[3])
    ensures ForwardTarget(w[0], w, axis, false) == Some(w[2])
  {
    hide Keep, SortRegions, IsForward, NoFarther;
    var p := (r: Region) => IsForward(w[0], r, axis, false);
    KeepBoth([w[0]] + [w[1]], [w[2], w[3]], p);
    KeptBut([w[0]], w[1], p);
    KeepNone(w[0], p);
    KeepAll([w[2], w[3]], p);
    assert [w[0]] + [w[1]] + [w[2], w[3]] == w && [] + [w[2], w[3]] == [w[2], w[3]];
    SortTwo(w[2], w[3], (a: Region, b: Region) => NoFarther(w[0], axis, a, b));
  }

  lemma FacesOnlyOne(q: Grid)
    requires Proper(q)
    ensures NoFarther(Windows(q)[0], Vertical, Windows(q)[2], Windows(q)[3])
  {
    hide Squared;
  }

  lemma MovesWithinTheGrid(q: Grid, groups: bool)
    requires Proper(q)
    ensures MoveGeometrically(Move(q, groups))
            == SwapAlignedFrames(Move(q, groups), Columns(q), Windows(q)[0], Windows(q)[2],
                                 Visit(Columns(q), [], Seen(q)).0, Vertical)
  {
    hide Visit, Keep, ForwardTarget, SwapAlignedFrames, SwapAlongAxis, CommonAncestor, NoFarther, IsForward;
    SeenWindows(q);
    LeavesOfGrid(q);
    HeadsForTheNext(q);
    InDifferentColumns(q);
    NoRunOfBoth(q, groups);
    var w := Windows(q);
    assert FindRegion(w, (r: Region) => r.node == Leaf(q.a)) == Some(w[0]);
  }

  lemma InDifferentColumns(q: Grid)
    requires Proper(q)
    ensures CommonAncestor([Columns(q), LeftColumn(q)], [Columns(q), RightColumn(q)]) == Some(Columns(q))
  {
    var u, v := [Columns(q), LeftColumn(q)], [Columns(q), RightColumn(q)];
    assert u[1..] == [LeftColumn(q)] && v[1..] == [RightColumn(q)];
    assert CommonAncestor(u[1..], v[1..]).None?;
  }

  lemma NoRunOfBoth(q: Grid, groups: bool)
    requires Proper(q)
    ensures SwapAlongAxis(Columns(q), Columns(q), Windows(q)[0], Windows(q)[2], Visit(Columns(q), [], Seen(q)).0, Vertical, q.gap).None?
  {
    hide Visit;
    assert Flatten(Columns(q), Vertical) == [LeftColumn(q)] + [RightColumn(q)];
    assert Leaf(q.a) !in Flatten(Columns(q), Vertical);
  }

  // ---------------------------------------------------------------- where everyone should be

  /** The first row's two, exchanged; the second row as it is. */
  function Wanted(q: Grid): seq<Region> {
    [Windows(q)[0].(frame := Frame(q.x + q.right + q.gap, q.y, q.left, q.top)), Windows(q)[1],
     Windows(q)[2].(frame := Frame(q.x, q.y, q.right, q.top)), Windows(q)[3]]
  }

  lemma {:induction false} DesiredBoth(a: seq<Region>, b: seq<Region>, ancestor: Node, first: Region, second: Region, axis: Axis)
    ensures Desired(a + b, ancestor, first, second, axis)
            == Desired(a, ancestor, first, second, axis) + Desired(b, ancestor, first, second, axis)
  {
    hide DesiredOne;
    if a == [] {
      assert a + b == b;
    } else {
      FirstAndRest(a, b);
      assert (a + b)[1..] == a[1..] + b;
      DesiredBoth(a[1..], b, ancestor, first, second, axis);
    }
  }

  lemma DesiredOfOne(r: Region, ancestor: Node, first: Region, second: Region, axis: Axis)
    ensures Desired([r], ancestor, first, second, axis) == DesiredOne(r, ancestor, first, second, axis)
  {
    assert [r][1..] == [];
    assert DesiredOne(r, ancestor, first, second, axis) + [] == DesiredOne(r, ancestor, first, second, axis);
  }

  lemma DesiredOfTwo(r: Region, s: Region, ancestor: Node, first: Region, second: Region, axis: Axis)
    ensures Desired([r, s], ancestor, first, second, axis)
            == DesiredOne(r, ancestor, first, second, axis) + DesiredOne(s, ancestor, first, second, axis)
  {
    assert [r, s] == [r] + [s];
    DesiredBoth([r], [s], ancestor, first, second, axis);
    DesiredOfOne(r, ancestor, first, second, axis);
    DesiredOfOne(s, ancestor, first, second, axis);
  }

  lemma GridWanted(q: Grid)
    requires Proper(q)
    ensures Desired(Visit(Columns(q), [], Seen(q)).0, Columns(q), Windows(q)[0], Windows(q)[2], Vertical) == Wanted(q)
  {
    hide Visit, Desired;
    SeenWindows(q);
    var root, w, f, g := Columns(q), Windows(q), Windows(q)[0], Windows(q)[2];
    var top := Visit(root, [], Seen(q)).1.value;
    var l, r :| SeenAs(q, Visit(root, [], Seen(q)).0, l, r, top);
    DesiredBoth(w[..2] + [l] + (w[2..] + [r]), [top], root, f, g, Vertical);
    DesiredBoth(w[..2] + [l], w[2..] + [r], root, f, g, Vertical);
    DesiredBoth(w[..2], [l], root, f, g, Vertical);
    DesiredBoth(w[2..], [r], root, f, g, Vertical);
    DesiredOfOne(l, root, f, g, Vertical);
    DesiredOfOne(r, root, f, g, Vertical);
    DesiredOfOne(top, root, f, g, Vertical);
    assert w[..2] == [w[0], w[1]] && w[2..] == [w[2], w[3]];
    DesiredOfTwo(w[0], w[1], root, f, g, Vertical);
    DesiredOfTwo(w[2], w[3], root, f, g, Vertical);
    EachWanted(q);
  }

  lemma EachWanted(q: Grid)
    requires Proper(q)
    ensures var root, w, f, g := Columns(q), Windows(q), Windows(q)[0], Windows(q)[2];
            && DesiredOne(w[0], root, f, g, Vertical) == [Wanted(q)[0]] && DesiredOne(w[1], root, f, g, Vertical) == [w[1]]
            && DesiredOne(w[2], root, f, g, Vertical) == [Wanted(q)[2]] && DesiredOne(w[3], root, f, g, Vertical) == [w[3]]
  {
    var w := Windows(q);
    assert Columns(q) in [Columns(q), LeftColumn(q)] && Columns(q) in [Columns(q), RightColumn(q)];
    assert w[0].node != w[1].node && w[0].node != w[2].node && w[0].node != w[3].node;
    assert w[2].node != w[1].node && w[2].node != w[3].node;
  }

  // ---------------------------------------------------------------- slicing it

  /** Two panes of one row, a gap apart, given in either order: the one that comes first is cut off. */
  lemma RowIsSliced(u: Region, v: Region, rs: seq<Region>, gap: int)
    requires rs == [u, v] || rs == [v, u]
    requires gap >= 0 && u.frame.y == v.frame.y && u.frame.height == v.frame.height > 2
    requires u.frame.width > 0 && v.frame.width > 0 && v.frame.x == u.frame.x + u.frame.width + gap
    ensures SliceFrames(rs, [Horizontal, Vertical], gap)
            == Some(Split(Vertical, RatioForLength(u.frame.width as real, u.frame.width + v.frame.width), u.node, v.node))
    ensures UnionAll(rs) == Frame(u.frame.x, u.frame.y, u.frame.width + gap + v.frame.width, u.frame.height)
  {
    hide RatioForLength, SortRegions, SliceFrames, SliceAlong, SliceFrom;
    var dims := [Horizontal, Vertical];
    UnionOfTwo(rs[0], rs[1]);
    NoCutAcross(rs, gap, dims);
    var le := (a: Region, b: Region) => Start(a.frame, Vertical) <= Start(b.frame, Vertical);
    SortTwo(rs[0], rs[1], le);
    assert OrderedAlong(rs, Vertical) == [u, v];
    RatioForLengthIsExact(u.frame.width as real, u.frame.width + v.frame.width);
    CutOfTwo(u, v, UnionAll(rs), dims, gap);
    SlicedSecond(rs, gap);
  }

  lemma UnionOfTwo(a: Region, b: Region)
    ensures UnionAll([a, b]) == Union(a.frame, b.frame)
  {
    assert [a, b][..1] == [a];
  }

  /** Nothing is cut off above or below. */
  lemma NoCutAcross(rs: seq<Region>, gap: int, dims: seq<Axis>)
    requires |rs| == 2 && rs[0].frame.y == rs[1].frame.y && rs[0].frame.height == rs[1].frame.height > 2
    ensures SliceFrom(OrderedAlong(rs, Horizontal), dims, Horizontal, UnionAll(rs), 1, gap).None?
  {
    hide SliceFrames, UnionAll, RatioForLength;
    var ordered := OrderedAlong(rs, Horizontal);
    assert ordered[0] in rs && ordered[1] in rs;
  }

  lemma CutOfTwo(u: Region, v: Region, bounds: Frame, dims: seq<Axis>, gap: int)
    requires u.frame.width > 0 && v.frame.width > 0 && v.frame.x == u.frame.x + u.frame.width + gap && gap >= 0
    requires bounds.x == u.frame.x && bounds.width == u.frame.width + gap + v.frame.width
    requires IsValidRatio(RatioForLength(u.frame.width as real, u.frame.width + v.frame.width))
    ensures SliceFrom([u, v], dims, Vertical, bounds, 1, gap)
            == Some(Split(Vertical, RatioForLength(u.frame.width as real, u.frame.width + v.frame.width), u.node, v.node))
  {
    hide RatioForLength;
    assert [u, v][..1] == [u] && [u, v][1..] == [v];
  }

  lemma SlicedSecond(rs: seq<Region>, gap: int)
    requires |rs| >= 2
    requires SliceFrom(OrderedAlong(rs, Horizontal), [Horizontal, Vertical], Horizontal, UnionAll(rs), 1, gap).None?
    ensures SliceFrames(rs, [Horizontal, Vertical], gap) ==
              var cut := SliceFrom(OrderedAlong(rs, Vertical), [Horizontal, Vertical], Vertical, UnionAll(rs), 1, gap);
              if cut.Some? then cut else None
  {
    hide SliceFrom, UnionAll, OrderedAlong;
    var dims := [Horizontal, Vertical];
    assert dims[1..] == [Vertical] && dims[1..][1..] == [];
    assert SliceAlong(rs, dims, dims, gap) == SliceAlong(rs, dims, [Vertical], gap);
  }

  lemma SlicedFirst(rs: seq<Region>, gap: int)
    requires |rs| >= 2
    requires SliceFrom(OrderedAlong(rs, Horizontal), [Horizontal, Vertical], Horizontal, UnionAll(rs), 1, gap).Some?
    ensures SliceFrames(rs, [Horizontal, Vertical], gap)
            == SliceFrom(OrderedAlong(rs, Horizontal), [Horizontal, Vertical], Horizontal, UnionAll(rs), 1, gap)
  {
    hide SliceFrom, UnionAll, OrderedAlong;
  }

  /** Upper row first, then the lower. */
  lemma RowsInOrder(q: Grid)
    requires Proper(q)
    ensures var w := Wanted(q); OrderedAlong(w, Horizontal) == [w[0], w[2], w[1], w[3]]
  {
    var w := Wanted(q);
    var le := (a: Region, b: Region) => Start(a.frame, Horizontal) <= Start(b.frame, Horizontal);
    assert w[1..] == [w[1], w[2], w[3]] && w[1..][1..] == [w[2], w[3]];
    hide SortRegions, InsertRegion;
    RowStarts(q);
    SortTwo(w[2], w[3], le);
    InsertSecond(w[1], w[2], w[3], le);
    InsertAhead(w[0], [w[2], w[1], w[3]], le);
    SortStep(w, le);
    SortStep(w[1..], le);
    assert [w[0]] + [w[2], w[1], w[3]] == [w[0], w[2], w[1], w[3]];
  }

  lemma RowStarts(q: Grid)
    requires Proper(q)
    ensures var w := Wanted(q);
            && Start(w[0].frame, Horizontal) == Start(w[2].frame, Horizontal) == q.y
            && Start(w[1].frame, Horizontal) == Start(w[3].frame, Horizontal) == Down(q) && Down(q) > q.y
  {
  }

  lemma SortStep(rs: seq<Region>, le: (Region, Region) -> bool)
    requires rs != []
    ensures SortRegions(rs, le) == InsertRegion(rs[0], SortRegions(rs[1..], le), le)
  {
  }

  lemma InsertAhead(r: Region, rs: seq<Region>, le: (Region, Region) -> bool)
    requires rs == [] || le(r, rs[0])
    ensures InsertRegion(r, rs, le) == [r] + rs
  {
  }

  lemma InsertSecond(r: Region, u: Region, v: Region, le: (Region, Region) -> bool)
    requires !le(r, u) && le(r, v)
    ensures InsertRegion(r, [u, v], le) == [u, r, v]
  {
    assert [u, v][1..] == [v];
    InsertAhead(r, [v], le);
    assert [u] + ([r] + [v]) == [u, r, v];
  }

  function Rows(q: Grid): Node {
    var upper := Split(Vertical, RatioForLength(q.right as real, q.right + q.left), Leaf(q.c), Leaf(q.a));
    var lower := Split(Vertical, RatioForLength(q.left as real, q.left + q.right), Leaf(q.b), Leaf(q.d));
    Split(Horizontal, RatioForLength(q.top as real, q.top + q.bottom), upper, lower)
  }

  function Whole(q: Grid): Frame { Frame(q.x, q.y, q.left + q.gap + q.right, q.top + q.gap + q.bottom) }

  lemma WantedIsSliced(q: Grid)
    requires Proper(q)
    ensures SliceFrames(Wanted(q), [Horizontal, Vertical], q.gap) == Some(Rows(q)) && UnionAll(Wanted(q)) == Whole(q)
  {
    hide RatioForLength, OrderedAlong, SliceFrames, SliceAlong, SliceFrom;
    var w := Wanted(q);
    UnionOfGrid(q);
    RowsInOrder(q);
    RowIsSliced(w[2], w[0], [w[0], w[2]], q.gap);
    RowIsSliced(w[1], w[3], [w[1], w[3]], q.gap);
    CutBetweenRows(q);
    SlicedFirst(w, q.gap);
  }

  lemma UnionOfGrid(q: Grid)
    requires Proper(q)
    ensures UnionAll(Wanted(q)) == Whole(q)
  {
    var w := Wanted(q);
    assert w[..3] == [w[0], w[1], w[2]] && w[..3][..2] == [w[0], w[1]];
    UnionOfTwo(w[0], w[1]);
    assert UnionAll(w[..3]) == Union(UnionAll([w[0], w[1]]), w[2].frame);
  }

  lemma CutBetweenRows(q: Grid)
    requires Proper(q)
    requires SliceFrames([Wanted(q)[0], Wanted(q)[2]], [Horizontal, Vertical], q.gap) == Some(Rows(q).first)
    requires SliceFrames([Wanted(q)[1], Wanted(q)[3]], [Horizontal, Vertical], q.gap) == Some(Rows(q).second)
    ensures var w := Wanted(q);
            SliceFrom([w[0], w[2], w[1], w[3]], [Horizontal, Vertical], Horizontal, Whole(q), 1, q.gap) == Some(Rows(q))
  {
    hide RatioForLength, SliceFrames;
    var w := Wanted(q);
    var ordered := [w[0], w[2], w[1], w[3]];
    assert ordered[..2] == [w[0], w[2]] && ordered[2..] == [w[1], w[3]];
    RatioForLengthIsExact(q.top as real, q.top + q.bottom);
    assert BorderOf(ordered, 1, Horizontal) == q.y + q.top;
    assert BorderOf(ordered, 2, Horizontal) == q.y + q.top;
  }

  // ---------------------------------------------------------------- planned again

  lemma {:induction false} NothingAsked(node: Node, axis: Axis, gap: int)
    ensures AggregateBounds(node, axis, gap, NO_BOUNDS) == FREE
  {
    if node.Split? {
      NothingAsked(node.first, axis, gap);
      NothingAsked(node.second, axis, gap);
    }
  }

  /** A split whose ratio was read off two lengths divides into these. */
  lemma DividedAsMeasured(node: Node, rect: Frame, gap: int, first: int, second: int)
    requires node.Split? && gap >= 0 && first > 0 && second > 0 && Length(rect, node.axis) == first + gap + second
    requires node.ratio == RatioForLength(first as real, first + second)
    ensures Halve(node, rect, gap, NO_BOUNDS) == Lengths(first, second, true)
  {
    hide RatioForLength, Preferred, PartitionLengths;
    NothingAsked(node.first, node.axis, gap);
    NothingAsked(node.second, node.axis, gap);
    RatioForLengthIsExact(first as real, first + second);
    PartitionIsNearestAdmissible(first + gap + second, gap, node.ratio, FREE, FREE);
    FreePartition(first + gap + second, gap, node.ratio);
  }

  /** The plan of the rows: the first row's two, exchanged. */
  function Exchanged(q: Grid): Frames {
    map[q.c := Frame(q.x, q.y, q.right, q.top), q.a := Frame(q.x + q.right + q.gap, q.y, q.left, q.top),
        q.b := Frame(q.x, Down(q), q.left, q.bottom), q.d := Frame(Across(q), Down(q), q.right, q.bottom)]
  }

  lemma RowPlans(row: Node, rect: Frame, gap: int, first: int, second: int)
    requires row.Split? && row.axis == Vertical && row.first.Leaf? && row.second.Leaf? && row.first != row.second
    requires gap >= 0 && first > 0 && second > 0 && rect.width == first + gap + second && rect.height > 0
    requires row.ratio == RatioForLength(first as real, first + second)
    ensures Solve(row, rect, gap, NO_BOUNDS)
            == Some(map[row.first.id := Frame(rect.x, rect.y, first, rect.height),
                        row.second.id := Frame(rect.x + first + gap, rect.y, second, rect.height)])
  {
    hide RatioForLength, Halve, Solve;
    DividedAsMeasured(row, rect, gap, first, second);
    LeafPlan(row.first.id, FirstRect(rect, Vertical, first), gap);
    LeafPlan(row.second.id, SecondRect(rect, Vertical, first, second, gap), gap);
    SolvedSplit(row, rect, gap, first, second);
    var a, b := map[row.first.id := Frame(rect.x, rect.y, first, rect.height)],
                map[row.second.id := Frame(rect.x + first + gap, rect.y, second, rect.height)];
    assert b + a == a[row.second.id := Frame(rect.x + first + gap, rect.y, second, rect.height)];
  }

  lemma LeafPlan(id: WindowId, rect: Frame, gap: int)
    requires Positive(rect)
    ensures Solve(Leaf(id), rect, gap, NO_BOUNDS) == Some(map[id := rect])
  {
  }

  lemma RowsPlan(q: Grid)
    requires Proper(q)
    ensures Solve(Rows(q), Whole(q), q.gap, NO_BOUNDS) == Some(Exchanged(q))
  {
    hide RatioForLength, Halve, Solve, UpperRow, LowerRow, Exchanged;
    var rows, whole := Rows(q), Whole(q);
    RowsApart(q);
    DividedAsMeasured(rows, whole, q.gap, q.top, q.bottom);
    SolvedSplit(rows, whole, q.gap, q.top, q.bottom);
    BothRows(q);
  }

  function UpperRow(q: Grid): Frames {
    map[q.c := Frame(q.x, q.y, q.right, q.top), q.a := Frame(q.x + q.right + q.gap, q.y, q.left, q.top)]
  }

  function LowerRow(q: Grid): Frames {
    map[q.b := Frame(q.x, Down(q), q.left, q.bottom), q.d := Frame(Across(q), Down(q), q.right, q.bottom)]
  }

  lemma BothRows(q: Grid)
    requires Proper(q)
    ensures LowerRow(q) + UpperRow(q) == Exchanged(q)
  {
    forall id ensures id in LowerRow(q) + UpperRow(q) <==> id in Exchanged(q) {
    }
  }

  lemma RowsApart(q: Grid)
    requires Proper(q)
    ensures Solve(Rows(q).first, FirstRect(Whole(q), Horizontal, q.top), q.gap, NO_BOUNDS) == Some(UpperRow(q))
    ensures Solve(Rows(q).second, SecondRect(Whole(q), Horizontal, q.top, q.bottom, q.gap), q.gap, NO_BOUNDS) == Some(LowerRow(q))
  {
    hide RatioForLength, Halve, Solve;
    RowPlans(Rows(q).first, FirstRect(Whole(q), Horizontal, q.top), q.gap, q.right, q.left);
    RowPlans(Rows(q).second, SecondRect(Whole(q), Horizontal, q.top, q.bottom, q.gap), q.gap, q.left, q.right);
  }

  lemma SolvedSplit(node: Node, rect: Frame, gap: int, first: int, second: int)
    requires node.Split? && Halve(node, rect, gap, NO_BOUNDS) == Lengths(first, second, true)
    requires Solve(node.first, FirstRect(rect, node.axis, first), gap, NO_BOUNDS).Some?
    requires Solve(node.second, SecondRect(rect, node.axis, first, second, gap), gap, NO_BOUNDS).Some?
    ensures Solve(node, rect, gap, NO_BOUNDS)
            == Some(Solve(node.second, SecondRect(rect, node.axis, first, second, gap), gap, NO_BOUNDS).value
                    + Solve(node.first, FirstRect(rect, node.axis, first), gap, NO_BOUNDS).value)
  {
    hide Halve;
  }

  lemma ExchangedMatches(q: Grid)
    requires Proper(q)
    ensures PlanMatches(Exchanged(q), Wanted(q))
  {
  }

  /** The move goes through: it leaves the grid in rows, and planned again the first window and the one beside it have
      changed places while the two below are where they were. */
  lemma GridMoveGoesThrough(q: Grid, groups: bool)
    requires Proper(q)
    ensures Seen(q)[q.a].x < Seen(q)[q.c].x && Seen(q)[q.a].y == Seen(q)[q.c].y
    ensures MoveGeometrically(Move(q, groups)) == Rows(q)
    ensures Solve(MoveGeometrically(Move(q, groups)), Whole(q), q.gap, NO_BOUNDS) == Some(Exchanged(q))
  {
    hide Visit, SliceFrames, Solve, Desired, MoveGeometrically, PlanMatches, RatioForLength;
    MovesWithinTheGrid(q, groups);
    GridWanted(q);
    WantedIsSliced(q);
    RowsPlan(q);
    ExchangedMatches(q);
    assert PlanLayout(LayoutInput(Rows(q), Whole(q), Some(q.gap), NO_BOUNDS), [GreedyPolicy]) == Feasible(GreedyPolicy, Exchanged(q));
  }
}
