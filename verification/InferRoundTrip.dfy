/** Inferring from planned frames and planning again. */
module InferRoundTrip {
  import opened Geometry
  import opened BspTree
  import opened Partition
  import opened Planner
  import opened Insertion
  import opened InitialLayout

  // ---------------------------------------------------------------- slicing floor plans

  /** A slicing floor plan: each wall says how long its first side is. */
  datatype Floor = Room(id: WindowId) | Wall(axis: Axis, length: int, first: Floor, second: Floor)

  function Beyond(rect: Frame, axis: Axis, length: int, gap: int): Frame {
    SecondRect(rect, axis, length, Length(rect, axis) - length - gap, gap)
  }

  ghost predicate Valid(floor: Floor, rect: Frame, gap: int) {
    match floor
    case Room(_) => Positive(rect)
    case Wall(axis, length, first, second) =>
      && length > 0 && Length(rect, axis) - length - gap > 0
      && Valid(first, FirstRect(rect, axis, length), gap)
      && Valid(second, Beyond(rect, axis, length, gap), gap)
  }

  function Rooms(floor: Floor, rect: Frame, gap: int): (r: seq<FramedWindow>)
    ensures |r| >= 1
  {
    match floor
    case Room(id) => [FramedWindow(id, rect)]
    case Wall(axis, length, first, second) =>
      Rooms(first, FirstRect(rect, axis, length), gap) + Rooms(second, Beyond(rect, axis, length, gap), gap)
  }

  lemma {:induction false} RoomsInside(floor: Floor, rect: Frame, gap: int, w: FramedWindow)
    requires gap >= 0 && Valid(floor, rect, gap) && w in Rooms(floor, rect, gap)
    ensures Positive(w.frame) && Inside(w.frame, rect)
  {
    if floor.Wall? {
      var firstRect, secondRect := FirstRect(rect, floor.axis, floor.length), Beyond(rect, floor.axis, floor.length, gap);
      if w in Rooms(floor.first, firstRect, gap) {
        RoomsInside(floor.first, firstRect, gap, w);
      } else {
        RoomsInside(floor.second, secondRect, gap, w);
      }
    }
  }

  /** Some room reaches the far side of the plan. */
  lemma {:induction false} TouchesEnd(floor: Floor, rect: Frame, gap: int, axis: Axis) returns (w: FramedWindow)
    requires Valid(floor, rect, gap)
    ensures w in Rooms(floor, rect, gap) && End(w.frame, axis) == End(rect, axis)
  {
    match floor
    case Room(id) => w := FramedWindow(id, rect);
    case Wall(divider, length, first, second) =>
      w := TouchesEnd(second, Beyond(rect, divider, length, gap), gap, axis);
  }

  lemma {:induction false} TouchesStart(floor: Floor, rect: Frame, gap: int, axis: Axis) returns (w: FramedWindow)
    requires Valid(floor, rect, gap)
    ensures w in Rooms(floor, rect, gap) && Start(w.frame, axis) == Start(rect, axis)
  {
    match floor
    case Room(id) => w := FramedWindow(id, rect);
    case Wall(divider, length, first, second) =>
      w := TouchesStart(first, FirstRect(rect, divider, length), gap, axis);
  }

  // ---------------------------------------------------------------- one side of a through-cut

  /** Both sides of a plan cut across at `c`. */
  function Clip(floor: Floor, rect: Frame, axis: Axis, c: int, gap: int): (Floor, Floor) {
    match floor
    case Room(_) => (floor, floor)
    case Wall(divider, length, first, second) =>
      var firstRect, secondRect := FirstRect(rect, divider, length), Beyond(rect, divider, length, gap);
      if divider != axis then
        var (f1, f2) := Clip(first, firstRect, axis, c, gap);
        var (s1, s2) := Clip(second, secondRect, axis, c, gap);
        (Wall(divider, length, f1, s1), Wall(divider, length, f2, s2))
      else
        var wall := Start(rect, axis) + length;
        if c == wall then (first, second)
        else if c < wall then
          var (f1, f2) := Clip(first, firstRect, axis, c, gap);
          (f1, Wall(axis, wall - c - gap, f2, second))
        else
          var (s1, s2) := Clip(second, secondRect, axis, c, gap);
          (Wall(axis, length, first, s1), s2)
  }

  /** No room crosses the strip from `c` to `c + gap`. */
  ghost predicate Through(windows: seq<FramedWindow>, axis: Axis, c: int, gap: int) {
    forall w :: w in windows ==> End(w.frame, axis) <= c || Start(w.frame, axis) >= c + gap
  }

  function Before(rect: Frame, axis: Axis, c: int): Frame { FirstRect(rect, axis, c - Start(rect, axis)) }

  function After(rect: Frame, axis: Axis, c: int, gap: int): Frame { Beyond(rect, axis, c - Start(rect, axis), gap) }

  /** What a clip delivers. */
  ghost predicate Clips(floor: Floor, rect: Frame, axis: Axis, c: int, gap: int) {
    var (left, right) := Clip(floor, rect, axis, c, gap);
    && Valid(left, Before(rect, axis, c), gap)
    && Valid(right, After(rect, axis, c, gap), gap)
    && multiset(Rooms(left, Before(rect, axis, c), gap)) + multiset(Rooms(right, After(rect, axis, c, gap), gap))
       == multiset(Rooms(floor, rect, gap))
  }

  /** Either side of a through-cut of a slicing plan is again a slicing plan, holding the rooms
      of that side. */
  lemma {:induction false} ThroughCutClips(floor: Floor, rect: Frame, axis: Axis, c: int, gap: int)
    requires gap >= 0 && Valid(floor, rect, gap)
    requires Start(rect, axis) < c && c + gap < End(rect, axis)
    requires Through(Rooms(floor, rect, gap), axis, c, gap)
    ensures Clips(floor, rect, axis, c, gap)
  {
    if floor.Room? {
      var w := TouchesEnd(floor, rect, gap, axis);
      assert false;
    } else {
      var firstRect, secondRect := FirstRect(rect, floor.axis, floor.length), Beyond(rect, floor.axis, floor.length, gap);
      ThroughParts(floor, rect, axis, c, gap);
      if floor.axis != axis {
        ThroughCutClips(floor.first, firstRect, axis, c, gap);
        ThroughCutClips(floor.second, secondRect, axis, c, gap);
        ClipAcross(floor, rect, axis, c, gap);
      } else {
        var wall := Start(rect, axis) + floor.length;
        if c < wall {
          var w := TouchesEnd(floor.first, firstRect, gap, axis);
          RoomsInside(floor.first, firstRect, gap, w);
          ThroughCutClips(floor.first, firstRect, axis, c, gap);
          ClipBefore(floor, rect, c, gap);
        } else if c > wall {
          var w := TouchesStart(floor.second, secondRect, gap, axis);
          RoomsInside(floor.second, secondRect, gap, w);
          ThroughCutClips(floor.second, secondRect, axis, c, gap);
          ClipAfter(floor, rect, c, gap);
        } else {
          ClipAt(floor, rect, c, gap);
        }
      }
    }
  }

  lemma ThroughParts(floor: Floor, rect: Frame, axis: Axis, c: int, gap: int)
    requires floor.Wall? && Through(Rooms(floor, rect, gap), axis, c, gap)
    ensures Through(Rooms(floor.first, FirstRect(rect, floor.axis, floor.length), gap), axis, c, gap)
    ensures Through(Rooms(floor.second, Beyond(rect, floor.axis, floor.length, gap), gap), axis, c, gap)
  {
    var a := Rooms(floor.first, FirstRect(rect, floor.axis, floor.length), gap);
    var b := Rooms(floor.second, Beyond(rect, floor.axis, floor.length, gap), gap);
    assert Rooms(floor, rect, gap) == a + b;
    assert forall w :: w in a || w in b ==> w in a + b;
  }

  lemma RoomsOfWall(floor: Floor, rect: Frame, gap: int)
    requires floor.Wall?
    ensures multiset(Rooms(floor, rect, gap))
            == multiset(Rooms(floor.first, FirstRect(rect, floor.axis, floor.length), gap))
             + multiset(Rooms(floor.second, Beyond(rect, floor.axis, floor.length, gap), gap))
    ensures Valid(floor, rect, gap)
            <==> floor.length > 0 && Length(rect, floor.axis) - floor.length - gap > 0
                 && Valid(floor.first, FirstRect(rect, floor.axis, floor.length), gap)
                 && Valid(floor.second, Beyond(rect, floor.axis, floor.length, gap), gap)
  {
  }

  lemma ClipAlong(floor: Floor, rect: Frame, c: int, gap: int)
    requires floor.Wall?
    ensures var axis, wall := floor.axis, Start(rect, floor.axis) + floor.length;
            var (f1, f2) := Clip(floor.first, FirstRect(rect, axis, floor.length), axis, c, gap);
            var (s1, s2) := Clip(floor.second, Beyond(rect, axis, floor.length, gap), axis, c, gap);
            Clip(floor, rect, axis, c, gap)
            == if c == wall then (floor.first, floor.second)
               else if c < wall then (f1, Wall(axis, wall - c - gap, f2, floor.second))
               else (Wall(axis, floor.length, floor.first, s1), s2)
  {
  }

  lemma ClipAt(floor: Floor, rect: Frame, c: int, gap: int)
    requires floor.Wall? && Valid(floor, rect, gap) && c == Start(rect, floor.axis) + floor.length
    ensures Clips(floor, rect, floor.axis, c, gap)
  {
    hide Rooms, Valid, Clip;
    ClipAlong(floor, rect, c, gap);
    RoomsOfWall(floor, rect, gap);
  }

  lemma QuartersMatch(rect: Frame, divider: Axis, length: int, axis: Axis, c: int, gap: int)
    requires divider != axis
    ensures FirstRect(Before(rect, axis, c), divider, length) == Before(FirstRect(rect, divider, length), axis, c)
    ensures Beyond(Before(rect, axis, c), divider, length, gap) == Before(Beyond(rect, divider, length, gap), axis, c)
    ensures FirstRect(After(rect, axis, c, gap), divider, length) == After(FirstRect(rect, divider, length), axis, c, gap)
    ensures Beyond(After(rect, axis, c, gap), divider, length, gap) == After(Beyond(rect, divider, length, gap), axis, c, gap)
    ensures Length(Before(rect, axis, c), divider) == Length(rect, divider)
    ensures Length(After(rect, axis, c, gap), divider) == Length(rect, divider)
  {
  }

  lemma ClipAcross(floor: Floor, rect: Frame, axis: Axis, c: int, gap: int)
    requires floor.Wall? && floor.axis != axis && Valid(floor, rect, gap)
    requires Clips(floor.first, FirstRect(rect, floor.axis, floor.length), axis, c, gap)
    requires Clips(floor.second, Beyond(rect, floor.axis, floor.length, gap), axis, c, gap)
    ensures Clips(floor, rect, axis, c, gap)
  {
    hide Rooms, Valid, Clip, FirstRect, Beyond, Before, After, Length;
    var firstRect, secondRect := FirstRect(rect, floor.axis, floor.length), Beyond(rect, floor.axis, floor.length, gap);
    ClipStep(floor, rect, axis, c, gap);
    var (left, right) := Clip(floor, rect, axis, c, gap);
    RoomsOfWall(floor, rect, gap);
    RoomsOfWall(left, Before(rect, axis, c), gap);
    RoomsOfWall(right, After(rect, axis, c, gap), gap);
    QuartersMatch(rect, floor.axis, floor.length, axis, c, gap);
    Interchange(multiset(Rooms(left.first, Before(firstRect, axis, c), gap)),
                multiset(Rooms(left.second, Before(secondRect, axis, c), gap)),
                multiset(Rooms(right.first, After(firstRect, axis, c, gap), gap)),
                multiset(Rooms(right.second, After(secondRect, axis, c, gap), gap)));
  }

  lemma ClipStep(floor: Floor, rect: Frame, axis: Axis, c: int, gap: int)
    requires floor.Wall? && floor.axis != axis
    ensures var (f1, f2) := Clip(floor.first, FirstRect(rect, floor.axis, floor.length), axis, c, gap);
            var (s1, s2) := Clip(floor.second, Beyond(rect, floor.axis, floor.length, gap), axis, c, gap);
            Clip(floor, rect, axis, c, gap)
            == (Wall(floor.axis, floor.length, f1, s1), Wall(floor.axis, floor.length, f2, s2))
  {
  }

  lemma Interchange(a: multiset<FramedWindow>, b: multiset<FramedWindow>, c: multiset<FramedWindow>,
                    d: multiset<FramedWindow>)
    ensures (a + b) + (c + d) == (a + c) + (b + d)
  {
  }

  lemma Reassociate(a: multiset<FramedWindow>, b: multiset<FramedWindow>, c: multiset<FramedWindow>)
    ensures (a + b) + c == a + (b + c)
  {
  }

  lemma CutBeforeWall(rect: Frame, axis: Axis, length: int, c: int, gap: int)
    requires var wall := Start(rect, axis) + length; c + gap < wall
    ensures var rest := Start(rect, axis) + length - c - gap;
            && rest > 0
            && Before(rect, axis, c) == Before(FirstRect(rect, axis, length), axis, c)
            && FirstRect(After(rect, axis, c, gap), axis, rest) == After(FirstRect(rect, axis, length), axis, c, gap)
            && Beyond(After(rect, axis, c, gap), axis, rest, gap) == Beyond(rect, axis, length, gap)
            && Length(After(rect, axis, c, gap), axis) - rest - gap == Length(rect, axis) - length - gap
  {
  }

  lemma ClipBefore(floor: Floor, rect: Frame, c: int, gap: int)
    requires floor.Wall? && gap >= 0 && Valid(floor, rect, gap)
    requires Start(rect, floor.axis) < c && c + gap < Start(rect, floor.axis) + floor.length
    requires Clips(floor.first, FirstRect(rect, floor.axis, floor.length), floor.axis, c, gap)
    ensures Clips(floor, rect, floor.axis, c, gap)
  {
    hide Rooms, Valid, Clip, FirstRect, Beyond, Before, After, Length;
    var axis := floor.axis;
    var rest := Start(rect, axis) + floor.length - c - gap;
    var firstRect := FirstRect(rect, axis, floor.length);
    var (f1, f2) := Clip(floor.first, firstRect, axis, c, gap);
    var right := Wall(axis, rest, f2, floor.second);
    ClipAlong(floor, rect, c, gap);
    RoomsOfWall(floor, rect, gap);
    RoomsOfWall(right, After(rect, axis, c, gap), gap);
    CutBeforeWall(rect, axis, floor.length, c, gap);
    Reassociate(multiset(Rooms(f1, Before(firstRect, axis, c), gap)),
                multiset(Rooms(f2, After(firstRect, axis, c, gap), gap)),
                multiset(Rooms(floor.second, Beyond(rect, axis, floor.length, gap), gap)));
  }

  lemma CutAfterWall(rect: Frame, axis: Axis, length: int, c: int, gap: int)
    requires Start(rect, axis) + length + gap < c
    ensures FirstRect(Before(rect, axis, c), axis, length) == FirstRect(rect, axis, length)
    ensures Beyond(Before(rect, axis, c), axis, length, gap) == Before(Beyond(rect, axis, length, gap), axis, c)
    ensures After(rect, axis, c, gap) == After(Beyond(rect, axis, length, gap), axis, c, gap)
    ensures Length(Before(rect, axis, c), axis) - length - gap > 0
  {
  }

  lemma ClipAfter(floor: Floor, rect: Frame, c: int, gap: int)
    requires floor.Wall? && gap >= 0 && Valid(floor, rect, gap)
    requires Start(rect, floor.axis) + floor.length + gap < c && c + gap < End(rect, floor.axis)
    requires Clips(floor.second, Beyond(rect, floor.axis, floor.length, gap), floor.axis, c, gap)
    ensures Clips(floor, rect, floor.axis, c, gap)
  {
    hide Rooms, Valid, Clip, FirstRect, Beyond, Before, After, Length;
    var axis := floor.axis;
    var firstRect := FirstRect(rect, axis, floor.length);
    var secondRect := Beyond(rect, axis, floor.length, gap);
    var (s1, s2) := Clip(floor.second, secondRect, axis, c, gap);
    var left := Wall(axis, floor.length, floor.first, s1);
    ClipAlong(floor, rect, c, gap);
    RoomsOfWall(floor, rect, gap);
    RoomsOfWall(left, Before(rect, axis, c), gap);
    CutAfterWall(rect, axis, floor.length, c, gap);
    Reassociate(multiset(Rooms(floor.first, firstRect, gap)),
                multiset(Rooms(s1, Before(secondRect, axis, c), gap)),
                multiset(Rooms(s2, After(secondRect, axis, c, gap), gap)));
  }

  // ---------------------------------------------------------------- the rooms of a planned tree

  function FloorOf(tree: Node, rect: Frame, gap: int, resolve: Resolver): Floor {
    match tree
    case Leaf(id) => Room(id)
    case Split(axis, _, first, second) =>
      var r := Halve(tree, rect, gap, resolve);
      Wall(axis, r.first, FloorOf(first, FirstRect(rect, axis, r.first), gap, resolve),
           FloorOf(second, SecondRect(rect, axis, r.first, r.second, gap), gap, resolve))
  }

  /** The windows of a plan, in leaf order. */
  function Shown(tree: Node, plan: Frames): (r: seq<FramedWindow>)
    requires forall id :: Has(tree, id) ==> id in plan
  {
    match tree
    case Leaf(id) => assert Has(tree, id); [FramedWindow(id, plan[id])]
    case Split(_, _, first, second) =>
      HasInParts(tree);
      Shown(first, plan) + Shown(second, plan)
  }

  lemma {:induction false} ShownAgrees(tree: Node, a: Frames, b: Frames)
    requires forall id :: Has(tree, id) ==> id in a && id in b && a[id] == b[id]
    ensures Shown(tree, a) == Shown(tree, b)
  {
    if tree.Split? {
      HasInParts(tree);
      ShownAgrees(tree.first, a, b);
      ShownAgrees(tree.second, a, b);
    } else {
      assert Has(tree, tree.id);
    }
  }

  /** A planned tree is a floor plan whose rooms are the planned frames. */
  lemma {:induction false} PlannedTreeIsFloor(tree: Node, rect: Frame, gap: int, resolve: Resolver)
    requires Distinct(tree) && Solve(tree, rect, gap, resolve).Some?
    ensures Valid(FloorOf(tree, rect, gap, resolve), rect, gap)
    ensures Rooms(FloorOf(tree, rect, gap, resolve), rect, gap) == Shown(tree, Solve(tree, rect, gap, resolve).value)
  {
    if tree.Split? {
      var r := Halve(tree, rect, gap, resolve);
      var firstRect, secondRect := FirstRect(rect, tree.axis, r.first), SecondRect(rect, tree.axis, r.first, r.second, gap);
      SplitLengths(tree, rect, gap, resolve);
      SolveOfSplit(tree, rect, gap, resolve);
      DistinctParts(tree);
      HasInParts(tree);
      hide Halve, Solve, Distinct;
      PlannedTreeIsFloor(tree.first, firstRect, gap, resolve);
      PlannedTreeIsFloor(tree.second, secondRect, gap, resolve);
      var plan := Solve(tree, rect, gap, resolve).value;
      var a, b := Solve(tree.first, firstRect, gap, resolve).value, Solve(tree.second, secondRect, gap, resolve).value;
      ShownAgrees(tree.first, plan, a);
      ShownAgrees(tree.second, plan, b);
      assert Beyond(rect, tree.axis, r.first, gap) == secondRect;
    }
  }
}
