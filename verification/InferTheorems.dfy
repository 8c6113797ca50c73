/** Inference undoes planning, exactly when every accepted cut is a gap wide. */
module InferTheorems {
  import opened Geometry
  import opened BspTree
  import opened Partition
  import opened Planner
  import opened Insertion
  import opened InitialLayout
  import opened InferRoundTrip

  // ---------------------------------------------------------------- what an accepted cut looks like

  function MostEnd(windows: seq<FramedWindow>, axis: Axis): int
    requires windows != []
  {
    FurthestEnd(windows, |windows|, axis)
  }

  function LeastStart(windows: seq<FramedWindow>, axis: Axis): int
    requires windows != []
  {
    if |windows| == 1 then Start(windows[0].frame, axis)
    else Min(Start(windows[0].frame, axis), LeastStart(windows[1..], axis))
  }

  lemma {:induction false} FurthestEndIsMost(ordered: seq<FramedWindow>, i: nat, axis: Axis) returns (k: nat)
    requires 1 <= i <= |ordered|
    ensures forall j :: 0 <= j < i ==> End(ordered[j].frame, axis) <= FurthestEnd(ordered, i, axis)
    ensures k < i && End(ordered[k].frame, axis) == FurthestEnd(ordered, i, axis)
  {
    if i == 1 {
      k := 0;
    } else {
      k := FurthestEndIsMost(ordered, i - 1, axis);
      if End(ordered[i - 1].frame, axis) > FurthestEnd(ordered, i - 1, axis) {
        k := i - 1;
      }
    }
  }

  lemma {:induction false} LeastStartIsLeast(windows: seq<FramedWindow>, axis: Axis) returns (k: nat)
    requires windows != []
    ensures forall j :: 0 <= j < |windows| ==> LeastStart(windows, axis) <= Start(windows[j].frame, axis)
    ensures k < |windows| && Start(windows[k].frame, axis) == LeastStart(windows, axis)
  {
    if |windows| == 1 {
      k := 0;
    } else {
      k := LeastStartIsLeast(windows[1..], axis);
      assert forall j :: 1 <= j < |windows| ==> windows[j] == windows[1..][j - 1];
      k := k + 1;
      if Start(windows[0].frame, axis) < LeastStart(windows[1..], axis) {
        k := 0;
      }
    }
  }

  ghost predicate SortedByStart(windows: seq<FramedWindow>, axis: Axis) {
    forall i, j :: 0 <= i < j < |windows| ==> Start(windows[i].frame, axis) <= Start(windows[j].frame, axis)
  }

  lemma {:induction false} InsertKeepsSorted(w: FramedWindow, sorted: seq<FramedWindow>, axis: Axis,
                                             le: (FramedWindow, FramedWindow) -> bool)
    requires le == ((a: FramedWindow, b: FramedWindow) => ByStart(axis, a, b))
    requires SortedByStart(sorted, axis)
    ensures SortedByStart(InsertWindow(w, sorted, le), axis)
  {
    if sorted == [] || le(w, sorted[0]) {
      SortedFirst(w, sorted, axis);
    } else {
      InsertKeepsSorted(w, sorted[1..], axis, le);
      var rest := InsertWindow(w, sorted[1..], le);
      hide InsertWindow;
      forall j | 0 <= j < |rest| ensures Start(sorted[0].frame, axis) <= Start(rest[j].frame, axis) {
        assert rest[j] in multiset(rest);
        if rest[j] != w {
          assert rest[j] in multiset(sorted[1..]);
        }
      }
      SortedFirst(sorted[0], rest, axis);
    }
  }

  lemma SortedFirst(w: FramedWindow, rest: seq<FramedWindow>, axis: Axis)
    requires SortedByStart(rest, axis)
    requires forall j :: 0 <= j < |rest| ==> Start(w.frame, axis) <= Start(rest[j].frame, axis)
    ensures SortedByStart([w] + rest, axis)
  {
  }

  lemma {:induction false} SortSorts(windows: seq<FramedWindow>, axis: Axis, le: (FramedWindow, FramedWindow) -> bool)
    requires le == ((a: FramedWindow, b: FramedWindow) => ByStart(axis, a, b))
    ensures SortedByStart(SortWindows(windows, le), axis)
  {
    hide InsertWindow;
    if windows != [] {
      SortSorts(windows[1..], axis, le);
      InsertKeepsSorted(windows[0], SortWindows(windows[1..], le), axis, le);
    }
  }

  lemma OrderedIsSorted(windows: seq<FramedWindow>, axis: Axis)
    ensures SortedByStart(OrderedBy(windows, axis), axis)
  {
    hide SortWindows;
    SortSorts(windows, axis, (a: FramedWindow, b: FramedWindow) => ByStart(axis, a, b));
  }

  /** The two sides of an accepted cut and where it goes. */
  lemma AcceptedCut(windows: seq<FramedWindow>, d: Division)
    requires windows != [] && SeparatingPartition(windows) == Some(d)
    ensures d.first != [] && d.second != []
    ensures var e, s := MostEnd(d.first, d.axis), LeastStart(d.second, d.axis);
            && e <= s && d.border == Some(Midway(e, s))
            && (forall w :: w in d.first ==> End(w.frame, d.axis) <= e)
            && (forall w :: w in d.second ==> s <= Start(w.frame, d.axis))
            && (exists w :: w in d.first && End(w.frame, d.axis) == e)
            && (exists w :: w in d.second && Start(w.frame, d.axis) == s)
  {
    hide SortWindows, SeparatingPartition, LeastStart, FurthestEnd;
    var k := SeparatingPartitionSplits(windows, d);
    var ordered := OrderedBy(windows, d.axis);
    OrderedIsSorted(windows, d.axis);
    FurthestEndPrefix(ordered, k, k, d.axis);
    var i := FurthestEndIsMost(d.first, k, d.axis);
    var j := LeastStartIsLeast(d.second, d.axis);
    assert d.second[0] == ordered[k] && d.second[j] == ordered[k + j];
    assert d.first[i] in d.first && d.second[j] in d.second;
  }

  lemma {:induction false} FurthestEndPrefix(ordered: seq<FramedWindow>, i: nat, n: nat, axis: Axis)
    requires 1 <= i <= n <= |ordered|
    ensures FurthestEnd(ordered[..n], i, axis) == FurthestEnd(ordered, i, axis)
  {
    if i > 1 {
      FurthestEndPrefix(ordered, i - 1, n, axis);
    }
  }

  // ---------------------------------------------------------------- there is a cut to accept

  lemma {:induction false} CutIsFound(ordered: seq<FramedWindow>, i: nat, axis: Axis, p: int, gap: int)
    requires 1 <= i < |ordered| && SortedByStart(ordered, axis) && gap >= 0
    requires forall j :: 0 <= j < |ordered| ==> End(ordered[j].frame, axis) <= p || Start(ordered[j].frame, axis) >= p + gap
    requires forall j :: 0 <= j < i ==> End(ordered[j].frame, axis) <= p
    requires exists j :: 0 <= j < |ordered| && Start(ordered[j].frame, axis) >= p + gap && End(ordered[j].frame, axis) > p
    ensures CutsFrom(ordered, i, axis) != []
    decreases |ordered| - i
  {
    if End(ordered[i].frame, axis) <= p {
      var j :| 0 <= j < |ordered| && Start(ordered[j].frame, axis) >= p + gap && End(ordered[j].frame, axis) > p;
      assert j > i;
      CutIsFound(ordered, i + 1, axis, p, gap);
    } else {
      var k := FurthestEndIsMost(ordered, i, axis);
    }
  }

  /** Two or more rooms: the root wall itself is a cut no room crosses. */
  lemma PlannedWindowsSeparate(windows: seq<FramedWindow>, floor: Floor, rect: Frame, gap: int)
    requires gap >= 0 && Valid(floor, rect, gap) && floor.Wall?
    requires multiset(windows) == multiset(Rooms(floor, rect, gap))
    ensures |windows| >= 2 && SeparatingPartition(windows).Some?
  {
    hide SortWindows, CutsFrom;
    var axis := floor.axis;
    var p := Start(rect, axis) + floor.length;
    var ordered := OrderedBy(windows, axis);
    OrderedIsSorted(windows, axis);
    RootWallSeparates(floor, rect, gap, ordered);
    assert windows != [];
    WallOrdering(ordered, axis, p, gap);
    CutIsFound(ordered, 1, axis, p, gap);
  }

  lemma WallOrdering(ordered: seq<FramedWindow>, axis: Axis, p: int, gap: int)
    requires SortedByStart(ordered, axis) && gap >= 0
    requires forall j :: 0 <= j < |ordered| ==>
               Length(ordered[j].frame, axis) > 0
               && (End(ordered[j].frame, axis) <= p || Start(ordered[j].frame, axis) >= p + gap)
    requires exists j :: 0 <= j < |ordered| && End(ordered[j].frame, axis) <= p
    requires exists j :: 0 <= j < |ordered| && Start(ordered[j].frame, axis) >= p + gap
    ensures |ordered| >= 2 && End(ordered[0].frame, axis) <= p
    ensures exists j :: 0 <= j < |ordered| && Start(ordered[j].frame, axis) >= p + gap && End(ordered[j].frame, axis) > p
  {
    var a :| 0 <= a < |ordered| && End(ordered[a].frame, axis) <= p;
    var b :| 0 <= b < |ordered| && Start(ordered[b].frame, axis) >= p + gap;
    if a > 0 {
      assert Start(ordered[0].frame, axis) <= Start(ordered[a].frame, axis);
    }
    assert End(ordered[b].frame, axis) > p;
  }

  lemma RootWallSeparates(floor: Floor, rect: Frame, gap: int, ordered: seq<FramedWindow>)
    requires gap >= 0 && Valid(floor, rect, gap) && floor.Wall?
    requires multiset(ordered) == multiset(Rooms(floor, rect, gap))
    ensures var axis, p := floor.axis, Start(rect, floor.axis) + floor.length;
            && (forall j :: 0 <= j < |ordered| ==>
                  Length(ordered[j].frame, axis) > 0
                  && (End(ordered[j].frame, axis) <= p || Start(ordered[j].frame, axis) >= p + gap))
            && (exists j :: 0 <= j < |ordered| && End(ordered[j].frame, axis) <= p)
            && (exists j :: 0 <= j < |ordered| && Start(ordered[j].frame, axis) >= p + gap)
  {
    var axis, p := floor.axis, Start(rect, floor.axis) + floor.length;
    var firstRect, secondRect := FirstRect(rect, axis, floor.length), Beyond(rect, axis, floor.length, gap);
    var a, b := Rooms(floor.first, firstRect, gap), Rooms(floor.second, secondRect, gap);
    assert Rooms(floor, rect, gap) == a + b;
    hide Rooms;
    forall j | 0 <= j < |ordered|
      ensures Length(ordered[j].frame, axis) > 0
              && (End(ordered[j].frame, axis) <= p || Start(ordered[j].frame, axis) >= p + gap)
    {
      assert ordered[j] in multiset(ordered);
      if ordered[j] in a {
        RoomsInside(floor.first, firstRect, gap, ordered[j]);
      } else {
        assert ordered[j] in b;
        RoomsInside(floor.second, secondRect, gap, ordered[j]);
      }
    }
    var w := TouchesEnd(floor.first, firstRect, gap, axis);
    assert w in multiset(a + b) && w in ordered;
    var v := TouchesStart(floor.second, secondRect, gap, axis);
    assert v in multiset(a + b) && v in ordered;
  }

  // ---------------------------------------------------------------- cuts that are a gap wide

  function CutWidth(d: Division): int
    requires d.first != [] && d.second != []
  {
    LeastStart(d.second, d.axis) - MostEnd(d.first, d.axis)
  }

  /** Every cut the inference accepts, at every depth, is exactly a gap wide. */
  ghost predicate ExactCuts(windows: seq<FramedWindow>, gap: int)
    requires windows != []
    decreases |windows|
  {
    |windows| == 1 ||
    (DivideSplits(windows);
     var d := Divide(windows);
     && CutWidth(d) == gap
     && ExactCuts(d.first, gap)
     && ExactCuts(d.second, gap))
  }

  lemma SidesOfCut(a1: multiset<FramedWindow>, a2: multiset<FramedWindow>, b1: multiset<FramedWindow>,
                   b2: multiset<FramedWindow>, axis: Axis, c: int)
    requires a1 + a2 == b1 + b2
    requires forall w :: w in a1 || w in b1 ==> End(w.frame, axis) <= c
    requires forall w :: w in a2 || w in b2 ==> End(w.frame, axis) > c
    ensures a1 == b1 && a2 == b2
  {
    forall w ensures a1[w] == b1[w] && a2[w] == b2[w] {
      assert (a1 + a2)[w] == (b1 + b2)[w];
      if End(w.frame, axis) <= c {
        assert w !in a2 && w !in b2;
      } else {
        assert w !in a1 && w !in b1;
      }
    }
  }

  lemma CutRange(windows: seq<FramedWindow>, floor: Floor, rect: Frame, gap: int, d: Division, c: int)
    requires gap >= 0 && Valid(floor, rect, gap) && multiset(windows) == multiset(Rooms(floor, rect, gap))
    requires windows != [] && SeparatingPartition(windows) == Some(d)
    requires d.first != [] && d.second != []
    requires MostEnd(d.first, d.axis) <= c && c + gap <= LeastStart(d.second, d.axis)
    ensures Start(rect, d.axis) < c && c + gap < End(rect, d.axis)
    ensures Through(Rooms(floor, rect, gap), d.axis, c, gap)
    ensures multiset(d.first) + multiset(d.second) == multiset(Rooms(floor, rect, gap))
    ensures forall w :: w in multiset(d.first) ==> End(w.frame, d.axis) <= c
    ensures forall w :: w in multiset(d.second) ==> End(w.frame, d.axis) > c && Start(w.frame, d.axis) >= c + gap
  {
    hide SeparatingPartition, MostEnd, LeastStart, Valid, Rooms;
    AcceptedCut(windows, d);
    var k := SeparatingPartitionSplits(windows, d);
    forall w | w in multiset(d.first) || w in multiset(d.second)
      ensures w in Rooms(floor, rect, gap) && Positive(w.frame) && Inside(w.frame, rect)
    {
      assert w in multiset(Rooms(floor, rect, gap));
      RoomsInside(floor, rect, gap, w);
    }
    assert d.first[0] in multiset(d.first) && d.second[0] in multiset(d.second);
    forall w | w in Rooms(floor, rect, gap)
      ensures End(w.frame, d.axis) <= c || Start(w.frame, d.axis) >= c + gap
    {
      assert w in multiset(d.first) + multiset(d.second);
    }
  }

  /** The sides of an exact cut are the rooms of the two clipped plans. */
  lemma SidesAreFloors(windows: seq<FramedWindow>, floor: Floor, rect: Frame, gap: int, d: Division)
    requires gap >= 0 && Valid(floor, rect, gap) && multiset(windows) == multiset(Rooms(floor, rect, gap))
    requires windows != [] && SeparatingPartition(windows) == Some(d) && d.first != [] && d.second != []
    requires CutWidth(d) == gap
    ensures var c := MostEnd(d.first, d.axis);
            var (left, right) := Clip(floor, rect, d.axis, c, gap);
            && Start(rect, d.axis) < c && c + gap < End(rect, d.axis)
            && Valid(left, Before(rect, d.axis, c), gap)
            && Valid(right, After(rect, d.axis, c, gap), gap)
            && multiset(d.first) == multiset(Rooms(left, Before(rect, d.axis, c), gap))
            && multiset(d.second) == multiset(Rooms(right, After(rect, d.axis, c, gap), gap))
  {
    hide SeparatingPartition, MostEnd, LeastStart, Valid, Rooms, Clip;
    var axis := d.axis;
    var c := MostEnd(d.first, axis);
    CutRange(windows, floor, rect, gap, d, c);
    ThroughCutClips(floor, rect, axis, c, gap);
    var (left, right) := Clip(floor, rect, axis, c, gap);
    var l, r := Rooms(left, Before(rect, axis, c), gap), Rooms(right, After(rect, axis, c, gap), gap);
    forall w: FramedWindow | w in multiset(l) ensures End(w.frame, axis) <= c {
      RoomsInside(left, Before(rect, axis, c), gap, w);
    }
    forall w: FramedWindow | w in multiset(r) ensures End(w.frame, axis) > c {
      RoomsInside(right, After(rect, axis, c, gap), gap, w);
    }
    SidesOfCut(multiset(d.first), multiset(d.second), multiset(l), multiset(r), axis, c);
  }

  /** Without gaps every accepted cut is exact: the rooms leave no slack. */
  lemma {:induction false} GaplessCutsAreExact(windows: seq<FramedWindow>, floor: Floor, rect: Frame)
    requires windows != [] && Valid(floor, rect, 0) && multiset(windows) == multiset(Rooms(floor, rect, 0))
    ensures ExactCuts(windows, 0)
    decreases |windows|
  {
    if |windows| > 1 {
      hide SeparatingPartition, MostEnd, LeastStart, Valid, Rooms, Clip;
      SeveralRooms(windows, floor, rect, 0);
      PlannedWindowsSeparate(windows, floor, rect, 0);
      DivideSplits(windows);
      var d := Divide(windows);
      var axis := d.axis;
      AcceptedCut(windows, d);
      var s := LeastStart(d.second, axis);
      CutRange(windows, floor, rect, 0, d, s);
      ThroughCutClips(floor, rect, axis, s, 0);
      var (left, right) := Clip(floor, rect, axis, s, 0);
      var w := TouchesEnd(left, Before(rect, axis, s), 0, axis);
      assert w in multiset(Rooms(left, Before(rect, axis, s), 0));
      assert w in multiset(d.first) + multiset(d.second);
      assert w in d.first;
      SidesAreFloors(windows, floor, rect, 0, d);
      var c := MostEnd(d.first, axis);
      var (l, r) := Clip(floor, rect, axis, c, 0);
      GaplessCutsAreExact(d.first, l, Before(rect, axis, c));
      GaplessCutsAreExact(d.second, r, After(rect, axis, c, 0));
    }
  }

  lemma SeveralRooms(windows: seq<FramedWindow>, floor: Floor, rect: Frame, gap: int)
    requires multiset(windows) == multiset(Rooms(floor, rect, gap))
    ensures |windows| >= 1 && (|windows| >= 2 <==> floor.Wall?)
    ensures floor.Room? ==> windows[0] == FramedWindow(floor.id, rect)
  {
    assert |multiset(windows)| == |windows|;
    assert |multiset(Rooms(floor, rect, gap))| == |Rooms(floor, rect, gap)|;
    if floor.Room? {
      assert windows[0] in multiset(windows);
    }
  }

  // ---------------------------------------------------------------- the ratio an exact cut yields

  lemma {:induction false} BoundsCoverFirst(windows: seq<FramedWindow>, axis: Axis)
    requires windows != []
    ensures Start(BoundsOf(windows), axis) <= Start(windows[0].frame, axis)
    ensures End(BoundsOf(windows), axis) >= End(windows[0].frame, axis)
  {
  }

  lemma ExactRatio(usable: nat, first: int)
    requires 0 < first < usable
    ensures var ratio := if usable > 2 then RatioForLength(first as real, usable) else 0.5;
            Realized(usable, ratio) == first && Preferred(usable, ratio) == first
  {
    if usable > 2 {
      hide RatioForLength;
      RatioForLengthIsExact(first as real, usable);
    } else {
      assert usable == 2 && first == 1;
    }
  }

  /** An exact cut inside the content is realized to the pixel. */
  lemma ExactCutIsRealized(windows: seq<FramedWindow>, rect: Frame, gap: int, d: Division, c: int)
    requires |windows| >= 2 && Divide(windows) == d && gap >= 0
    requires d.border == Some(Midway(c, c + gap))
    requires Start(rect, d.axis) < c && c + gap < End(rect, d.axis)
    requires Start(BoundsOf(windows), d.axis) < End(rect, d.axis) && End(BoundsOf(windows), d.axis) > Start(rect, d.axis)
    ensures RealizedFirst(windows, rect, gap) == c - Start(rect, d.axis)
    ensures Preferred(Length(rect, d.axis) - gap, InferredRatio(d, BoundsOf(windows), rect, gap)) == c - Start(rect, d.axis)
  {
    hide Divide, BoundsOf, RatioForLength, Preferred, Realized;
    var first := c - Start(rect, d.axis);
    var usable := Usable(rect, d.axis, gap);
    ExactFirstSize(rect, d.axis, usable, gap, c);
    ExactRatio(usable, first);
    assert FirstSize(d.border, BoundsOf(windows), rect, d.axis, usable, gap) == first as real;
  }

  lemma ExactFirstSize(rect: Frame, axis: Axis, usable: nat, gap: int, c: int)
    requires Start(rect, axis) < c && c + gap < End(rect, axis) && usable == Length(rect, axis) - gap
    ensures MaxReal(1.0, MinReal(usable as real - 1.0,
                                 Midway(c, c + gap) - Start(rect, axis) as real - gap as real / 2.0))
            == (c - Start(rect, axis)) as real
  {
  }

  // ---------------------------------------------------------------- forward: exact cuts restore

  /** The plan has each window where it was seen. */
  ghost predicate Restores(plan: Option<Frames>, windows: seq<FramedWindow>) {
    plan.Some? && forall w :: w in windows ==> w.id in plan.value && plan.value[w.id] == w.frame
  }

  ghost predicate DistinctIds(windows: seq<FramedWindow>) {
    forall id :: Ids(windows)[id] <= 1
  }

  ghost predicate AllFit(windows: seq<FramedWindow>, resolve: Resolver) {
    forall w :: w in windows ==> FitsPane(w.frame, resolve(w.id))
  }

  lemma {:induction false} IdsHold(windows: seq<FramedWindow>, w: FramedWindow)
    requires w in windows
    ensures Ids(windows)[w.id] >= 1
  {
    if w != windows[0] {
      IdsHold(windows[1..], w);
    }
  }

  /** What the two sides inherit. */
  lemma Inherited(windows: seq<FramedWindow>, d: Division, resolve: Resolver)
    requires multiset(d.first) + multiset(d.second) == multiset(windows)
    requires DistinctIds(windows) && AllFit(windows, resolve)
    ensures DistinctIds(d.first) && DistinctIds(d.second) && AllFit(d.first, resolve) && AllFit(d.second, resolve)
    ensures forall id :: Ids(d.first)[id] + Ids(d.second)[id] <= 1
    ensures forall w :: w in windows <==> w in d.first || w in d.second
  {
    hide Ids;
    assert multiset(d.first + d.second) == multiset(windows);
    IdsOfPermutation(windows, d.first + d.second);
    IdsOfConcat(d.first, d.second);
    forall id ensures Ids(d.first)[id] + Ids(d.second)[id] <= 1 {
      assert Ids(windows)[id] == Ids(d.first)[id] + Ids(d.second)[id];
    }
    forall w ensures w in windows <==> w in d.first || w in d.second {
      assert w in multiset(windows) <==> w in multiset(d.first) || w in multiset(d.second);
    }
  }

  lemma ExactParts(windows: seq<FramedWindow>, gap: int)
    requires |windows| >= 2 && ExactCuts(windows, gap) && SeparatingPartition(windows).Some?
    ensures var d := Divide(windows);
            && SeparatingPartition(windows) == Some(d)
            && |d.first| < |windows| && |d.second| < |windows| && d.first != [] && d.second != []
            && multiset(d.first) + multiset(d.second) == multiset(windows)
            && CutWidth(d) == gap && ExactCuts(d.first, gap) && ExactCuts(d.second, gap)
            && d.border == Some(Midway(MostEnd(d.first, d.axis), MostEnd(d.first, d.axis) + gap))
  {
    hide SeparatingPartition, MostEnd, LeastStart;
    DivideSplits(windows);
    AcceptedCut(windows, Divide(windows));
  }

  lemma LoneRoomRestores(windows: seq<FramedWindow>, floor: Floor, rect: Frame, gap: int, resolve: Resolver)
    requires |windows| == 1 && Valid(floor, rect, gap) && multiset(windows) == multiset(Rooms(floor, rect, gap))
    requires AllFit(windows, resolve)
    ensures Restores(Solve(InferTree(windows, Some(rect), gap), rect, gap, resolve), windows)
  {
    SeveralRooms(windows, floor, rect, gap);
  }

  lemma {:induction false} ExactCutsRestore(windows: seq<FramedWindow>, floor: Floor, rect: Frame, gap: int,
                                            resolve: Resolver)
    requires windows != [] && gap >= 0 && Valid(floor, rect, gap)
    requires multiset(windows) == multiset(Rooms(floor, rect, gap))
    requires DistinctIds(windows) && AllFit(windows, resolve) && ExactCuts(windows, gap)
    ensures Restores(Solve(InferTree(windows, Some(rect), gap), rect, gap, resolve), windows)
    decreases |windows|
  {
    hide *;
    SeveralRooms(windows, floor, rect, gap);
    if |windows| == 1 {
      LoneRoomRestores(windows, floor, rect, gap, resolve);
    } else {
      PlannedWindowsSeparate(windows, floor, rect, gap);
      ExactParts(windows, gap);
      var d := Divide(windows);
      SidesAreFloors(windows, floor, rect, gap, d);
      Inherited(windows, d, resolve);
      var c := MostEnd(d.first, d.axis);
      var (left, right) := Clip(floor, rect, d.axis, c, gap);
      ExactCutsRestore(d.first, left, Before(rect, d.axis, c), gap, resolve);
      ExactCutsRestore(d.second, right, After(rect, d.axis, c, gap), gap, resolve);
      CutIsPlaced(windows, floor, rect, gap, d, c);
      RestoredHalves(windows, rect, gap, resolve, d, c);
    }
  }

  lemma CutIsPlaced(windows: seq<FramedWindow>, floor: Floor, rect: Frame, gap: int, d: Division, c: int)
    requires |windows| >= 2 && gap >= 0 && Valid(floor, rect, gap)
    requires multiset(windows) == multiset(Rooms(floor, rect, gap))
    requires Divide(windows) == d && d.border == Some(Midway(c, c + gap))
    requires Start(rect, d.axis) < c && c + gap < End(rect, d.axis)
    ensures RealizedFirst(windows, rect, gap) == c - Start(rect, d.axis)
    ensures Preferred(Length(rect, d.axis) - gap, InferredRatio(d, BoundsOf(windows), rect, gap)) == c - Start(rect, d.axis)
    ensures FirstContent(rect, d.axis, RealizedFirst(windows, rect, gap)) == Before(rect, d.axis, c)
    ensures SecondContent(rect, d.axis, RealizedFirst(windows, rect, gap), gap) == After(rect, d.axis, c, gap)
  {
    hide Divide, BoundsOf, Preferred, InferredRatio, RealizedFirst, Valid, Rooms;
    BoundsCoverFirst(windows, d.axis);
    assert windows[0] in multiset(windows);
    RoomsInside(floor, rect, gap, windows[0]);
    ExactCutIsRealized(windows, rect, gap, d, c);
  }

  lemma RestoredHalves(windows: seq<FramedWindow>, rect: Frame, gap: int, resolve: Resolver, d: Division, c: int)
    requires |windows| >= 2 && Divide(windows) == d && d.first != [] && d.second != []
    requires Start(rect, d.axis) < c && c + gap < End(rect, d.axis)
    requires FirstContent(rect, d.axis, RealizedFirst(windows, rect, gap)) == Before(rect, d.axis, c)
    requires SecondContent(rect, d.axis, RealizedFirst(windows, rect, gap), gap) == After(rect, d.axis, c, gap)
    requires Preferred(Length(rect, d.axis) - gap, InferredRatio(d, BoundsOf(windows), rect, gap)) == c - Start(rect, d.axis)
    requires Restores(Solve(InferTree(d.first, Some(Before(rect, d.axis, c)), gap), Before(rect, d.axis, c), gap, resolve), d.first)
    requires Restores(Solve(InferTree(d.second, Some(After(rect, d.axis, c, gap)), gap), After(rect, d.axis, c, gap), gap, resolve), d.second)
    requires forall id :: Ids(d.first)[id] + Ids(d.second)[id] <= 1
    requires forall w :: w in windows <==> w in d.first || w in d.second
    ensures Restores(Solve(InferTree(windows, Some(rect), gap), rect, gap, resolve), windows)
  {
    hide Divide, BoundsOf, Preferred, InferredRatio, RealizedFirst, InferTree, Solve, Halve, Ids, FirstContent,
      SecondContent;
    InferredSplit(windows, Some(rect), gap);
    var node := InferTree(windows, Some(rect), gap);
    var firstRect, secondRect := Before(rect, d.axis, c), After(rect, d.axis, c, gap);
    var first, second := c - Start(rect, d.axis), End(rect, d.axis) - c - gap;
    assert first + gap + second - gap == Length(rect, d.axis) - gap;
    DividerStays(node, rect, gap, resolve, first, second);
    SolvedByHalves(node, rect, gap, resolve, first, second);
    var a := Solve(node.first, firstRect, gap, resolve).value;
    InferenceKeepsWindows(d.first, Some(firstRect), gap);
    forall w | w in d.second ensures w.id !in a {
      IdsHold(d.second, w);
      assert Ids(d.first)[w.id] == 0;
    }
  }

  lemma SolvedByHalves(node: Node, rect: Frame, gap: int, resolve: Resolver, first: int, second: int)
    requires node.Split? && Halve(node, rect, gap, resolve) == Lengths(first, second, true)
    requires Solve(node.first, FirstRect(rect, node.axis, first), gap, resolve).Some?
    requires Solve(node.second, SecondRect(rect, node.axis, first, second, gap), gap, resolve).Some?
    ensures Solve(node, rect, gap, resolve)
            == Some(Solve(node.second, SecondRect(rect, node.axis, first, second, gap), gap, resolve).value
                  + Solve(node.first, FirstRect(rect, node.axis, first), gap, resolve).value)
  {
    hide Halve;
  }

  // ---------------------------------------------------------------- backward: restoring needs exact cuts

  /** A solved tree whose plan shows given windows reaches both sides of its rectangle through them. */
  lemma SolvedReaches(tree: Node, windows: seq<FramedWindow>, rect: Frame, gap: int, resolve: Resolver, axis: Axis)
    requires gap >= 0 && windows != [] && Bag(tree) == Ids(windows) && DistinctIds(windows)
    requires Restores(Solve(tree, rect, gap, resolve), windows)
    ensures MostEnd(windows, axis) == End(rect, axis)
    ensures LeastStart(windows, axis) == Start(rect, axis)
  {
    hide MostEnd, LeastStart, Solve, Ids, Valid, Rooms, FloorOf, Halve;
    var plan := Solve(tree, rect, gap, resolve).value;
    BagIsDistinct(tree, windows);
    PlannedTreeIsFloor(tree, rect, gap, resolve);
    var floor := FloorOf(tree, rect, gap, resolve);
    var far := TouchesEnd(floor, rect, gap, axis);
    var near := TouchesStart(floor, rect, gap, axis);
    ShownIsPlanned(tree, plan, far);
    ShownIsPlanned(tree, plan, near);
    var f := WindowOf(windows, far.id);
    var n := WindowOf(windows, near.id);
    forall w | w in windows ensures Inside(w.frame, rect) {
      IdsHold(windows, w);
      SolvedFrameFits(tree, rect, gap, resolve, w.id);
    }
    FurthestIs(windows, axis, f);
    LeastIs(windows, axis, n);
  }

  lemma FurthestIs(windows: seq<FramedWindow>, axis: Axis, w: FramedWindow)
    requires w in windows && forall v :: v in windows ==> End(v.frame, axis) <= End(w.frame, axis)
    ensures MostEnd(windows, axis) == End(w.frame, axis)
  {
    var k := FurthestEndIsMost(windows, |windows|, axis);
    assert windows[k] in windows;
  }

  lemma LeastIs(windows: seq<FramedWindow>, axis: Axis, w: FramedWindow)
    requires w in windows && forall v :: v in windows ==> Start(w.frame, axis) <= Start(v.frame, axis)
    ensures LeastStart(windows, axis) == Start(w.frame, axis)
  {
    var k := LeastStartIsLeast(windows, axis);
    assert windows[k] in windows;
  }

  lemma BagIsDistinct(tree: Node, windows: seq<FramedWindow>)
    requires Bag(tree) == Ids(windows) && DistinctIds(windows)
    ensures Distinct(tree)
  {
    hide Bag, Ids;
  }

  lemma {:induction false} ShownIsPlanned(tree: Node, plan: Frames, w: FramedWindow)
    requires forall id :: Has(tree, id) ==> id in plan
    requires w in Shown(tree, plan)
    ensures Has(tree, w.id) && plan[w.id] == w.frame
  {
    if tree.Split? {
      HasInParts(tree);
      if w in Shown(tree.first, plan) { ShownIsPlanned(tree.first, plan, w); } else { ShownIsPlanned(tree.second, plan, w); }
    }
  }

  lemma {:induction false} WindowOf(windows: seq<FramedWindow>, id: WindowId) returns (w: FramedWindow)
    requires Ids(windows)[id] > 0
    ensures w in windows && w.id == id
  {
    if windows[0].id == id { w := windows[0]; } else { w := WindowOf(windows[1..], id); }
  }

  /** If planning the inferred tree restores the windows, the cut at the root is a gap wide and the
      halves are restored too. */
  lemma RestoringSplits(windows: seq<FramedWindow>, rect: Frame, gap: int, resolve: Resolver)
    requires |windows| >= 2 && gap >= 0 && DistinctIds(windows)
    requires Restores(Solve(InferTree(windows, Some(rect), gap), rect, gap, resolve), windows)
    ensures var d := Divide(windows);
            && d.first != [] && d.second != [] && CutWidth(d) == gap
            && var c := MostEnd(d.first, d.axis);
               var realized := RealizedFirst(windows, rect, gap);
               && Restores(Solve(InferTree(d.first, Some(FirstContent(rect, d.axis, realized)), gap), Before(rect, d.axis, c), gap, resolve), d.first)
               && Restores(Solve(InferTree(d.second, Some(SecondContent(rect, d.axis, realized, gap)), gap), After(rect, d.axis, c, gap), gap, resolve), d.second)
  {
    hide Divide, BoundsOf, InferredRatio, RealizedFirst, InferTree, Solve, Halve, Ids, FirstContent, SecondContent,
      MostEnd, LeastStart;
    InferredSplit(windows, Some(rect), gap);
    DivideSplits(windows);
    var d := Divide(windows);
    var tree := InferTree(windows, Some(rect), gap);
    var r := Halve(tree, rect, gap, resolve);
    SolveOfSplit(tree, rect, gap, resolve);
    SplitLengths(tree, rect, gap, resolve);
    EveryoneFits(windows);
    Inherited(windows, d, NO_BOUNDS);
    var realized := RealizedFirst(windows, rect, gap);
    InferenceKeepsWindows(d.first, Some(FirstContent(rect, d.axis, realized)), gap);
    InferenceKeepsWindows(d.second, Some(SecondContent(rect, d.axis, realized, gap)), gap);
    var firstRect, secondRect := FirstRect(rect, d.axis, r.first), SecondRect(rect, d.axis, r.first, r.second, gap);
    HalvesRestore(tree, windows, d, rect, firstRect, secondRect, gap, resolve);
    SolvedReaches(tree.first, d.first, firstRect, gap, resolve, d.axis);
    SolvedReaches(tree.second, d.second, secondRect, gap, resolve, d.axis);
  }

  lemma HalvesRestore(tree: Node, windows: seq<FramedWindow>, d: Division, rect: Frame, firstRect: Frame,
                      secondRect: Frame, gap: int, resolve: Resolver)
    requires tree.Split? && Bag(tree.first) == Ids(d.first) && Bag(tree.second) == Ids(d.second)
    requires forall id :: Ids(d.first)[id] + Ids(d.second)[id] <= 1
    requires forall w :: w in windows <==> w in d.first || w in d.second
    requires Restores(Solve(tree, rect, gap, resolve), windows)
    requires var a := Solve(tree.first, firstRect, gap, resolve);
             var b := Solve(tree.second, secondRect, gap, resolve);
             a.Some? && b.Some? && Solve(tree, rect, gap, resolve) == Some(b.value + a.value)
    ensures Restores(Solve(tree.first, firstRect, gap, resolve), d.first)
    ensures Restores(Solve(tree.second, secondRect, gap, resolve), d.second)
  {
    hide Solve, Ids, Bag;
    var a := Solve(tree.first, firstRect, gap, resolve).value;
    forall w | w in d.first ensures w.id in a {
      IdsHold(d.first, w);
      assert Has(tree.first, w.id);
    }
    forall w | w in d.second ensures w.id !in a {
      IdsHold(d.second, w);
      assert Ids(d.first)[w.id] == 0;
      assert !Has(tree.first, w.id);
    }
  }

  lemma {:induction false} RestoringNeedsExactCuts(windows: seq<FramedWindow>, floor: Floor, rect: Frame, gap: int,
                                                   resolve: Resolver)
    requires windows != [] && gap >= 0 && Valid(floor, rect, gap)
    requires multiset(windows) == multiset(Rooms(floor, rect, gap)) && DistinctIds(windows)
    requires Restores(Solve(InferTree(windows, Some(rect), gap), rect, gap, resolve), windows)
    ensures ExactCuts(windows, gap)
    decreases |windows|
  {
    hide *;
    SeveralRooms(windows, floor, rect, gap);
    if |windows| > 1 {
      PlannedWindowsSeparate(windows, floor, rect, gap);
      RestoringSplits(windows, rect, gap, resolve);
      var d := Divide(windows);
      DividedBySeparation(windows);
      SidesAreFloors(windows, floor, rect, gap, d);
      EveryoneFits(windows);
      Inherited(windows, d, NO_BOUNDS);
      var c := MostEnd(d.first, d.axis);
      var (left, right) := Clip(floor, rect, d.axis, c, gap);
      CutIsPlaced(windows, floor, rect, gap, d, c);
      RestoringNeedsExactCuts(d.first, left, Before(rect, d.axis, c), gap, resolve);
      RestoringNeedsExactCuts(d.second, right, After(rect, d.axis, c, gap), gap, resolve);
      ExactFromParts(windows, gap);
    } else {
      LoneIsExact(windows, gap);
    }
  }

  lemma EveryoneFits(windows: seq<FramedWindow>)
    ensures AllFit(windows, NO_BOUNDS)
  {
  }

  lemma LoneIsExact(windows: seq<FramedWindow>, gap: int)
    requires |windows| == 1
    ensures ExactCuts(windows, gap)
  {
  }

  lemma ExactFromParts(windows: seq<FramedWindow>, gap: int)
    requires |windows| >= 2
    requires var d := Divide(windows);
             && |d.first| < |windows| && |d.second| < |windows| && d.first != [] && d.second != []
             && CutWidth(d) == gap && ExactCuts(d.first, gap) && ExactCuts(d.second, gap)
    ensures ExactCuts(windows, gap)
  {
    hide Divide, CutWidth;
  }

  lemma DividedBySeparation(windows: seq<FramedWindow>)
    requires |windows| >= 2 && SeparatingPartition(windows).Some?
    ensures var d := Divide(windows);
            && SeparatingPartition(windows) == Some(d)
            && |d.first| < |windows| && |d.second| < |windows| && d.first != [] && d.second != []
            && multiset(d.first) + multiset(d.second) == multiset(windows)
            && d.border == Some(Midway(MostEnd(d.first, d.axis), MostEnd(d.first, d.axis) + CutWidth(d)))
  {
    hide SeparatingPartition, MostEnd, LeastStart;
    DivideSplits(windows);
    AcceptedCut(windows, Divide(windows));
  }

  // ---------------------------------------------------------------- the theorem

  lemma {:induction false} ShownIds(tree: Node, plan: Frames)
    requires forall id :: Has(tree, id) ==> id in plan
    ensures Ids(Shown(tree, plan)) == Bag(tree)
  {
    if tree.Split? {
      HasInParts(tree);
      ShownIds(tree.first, plan);
      ShownIds(tree.second, plan);
      IdsOfConcat(Shown(tree.first, plan), Shown(tree.second, plan));
    } else {
      assert Has(tree, tree.id);
      var w := FramedWindow(tree.id, plan[tree.id]);
      assert [w][1..] == [];
      assert Ids([w]) == multiset{w.id} + Ids([]);
    }
  }

  /** The windows of a plan, in any order, and the plan itself. */
  lemma RestoringIsEquality(tree: Node, windows: seq<FramedWindow>, rect: Frame, gap: int, resolve: Resolver)
    requires Distinct(tree) && Solve(tree, rect, gap, resolve).Some?
    requires multiset(windows) == multiset(Shown(tree, Solve(tree, rect, gap, resolve).value)) && windows != []
    ensures DistinctIds(windows) && Ids(windows) == Bag(tree)
    ensures Restores(Solve(InferTree(windows, Some(rect), gap), rect, gap, resolve), windows)
            <==> Solve(InferTree(windows, Some(rect), gap), rect, gap, resolve) == Solve(tree, rect, gap, resolve)
  {
    hide Solve, InferTree, Ids, Shown, Bag;
    var plan := Solve(tree, rect, gap, resolve).value;
    IdsOfPermutation(windows, Shown(tree, plan));
    ShownIds(tree, plan);
    InferenceKeepsWindows(windows, Some(rect), gap);
    forall w | w in windows ensures Has(tree, w.id) && plan[w.id] == w.frame {
      assert w in multiset(windows);
      assert w in multiset(Shown(tree, plan));
      ShownIsPlanned(tree, plan, w);
    }
    var again := Solve(InferTree(windows, Some(rect), gap), rect, gap, resolve);
    if Restores(again, windows) {
      forall id | Has(tree, id) ensures id in again.value && again.value[id] == plan[id] {
        var w := WindowOf(windows, id);
      }
      assert again.value == plan;
    }
  }

  lemma ShownAllFit(tree: Node, windows: seq<FramedWindow>, rect: Frame, gap: int, resolve: Resolver)
    requires gap >= 0 && Distinct(tree) && Solve(tree, rect, gap, resolve).Some?
    requires multiset(windows) == multiset(Shown(tree, Solve(tree, rect, gap, resolve).value))
    ensures AllFit(windows, resolve)
  {
    hide Solve, Shown;
    var plan := Solve(tree, rect, gap, resolve).value;
    forall w | w in windows ensures FitsPane(w.frame, resolve(w.id)) {
      assert w in multiset(Shown(tree, plan));
      ShownIsPlanned(tree, plan, w);
      SolvedFrameFits(tree, rect, gap, resolve, w.id);
    }
  }

  /** Inference undoes planning: from the frames of a plan, in any order, it finds a tree that plans back
      to the very same frames exactly when every cut it accepts is a gap wide. */
  lemma InferUndoesPlanIff(tree: Node, content: Frame, gap: int, resolve: Resolver, windows: seq<FramedWindow>)
    requires gap >= 0 && Distinct(tree) && Solve(tree, content, gap, resolve).Some?
    requires multiset(windows) == multiset(Shown(tree, Solve(tree, content, gap, resolve).value))
    ensures windows != []
    ensures Solve(InferTree(windows, Some(content), gap), content, gap, resolve) == Solve(tree, content, gap, resolve)
            <==> ExactCuts(windows, gap)
  {
    hide Solve, InferTree, Ids, Shown, Distinct, Valid, Rooms, FloorOf, ExactCuts, DistinctIds, AllFit, Restores;
    var floor := FloorOf(tree, content, gap, resolve);
    PlannedTreeIsFloor(tree, content, gap, resolve);
    SeveralRooms(windows, floor, content, gap);
    RestoringIsEquality(tree, windows, content, gap, resolve);
    ShownAllFit(tree, windows, content, gap, resolve);
    if ExactCuts(windows, gap) {
      ExactCutsRestore(windows, floor, content, gap, resolve);
    }
    if Restores(Solve(InferTree(windows, Some(content), gap), content, gap, resolve), windows) {
      RestoringNeedsExactCuts(windows, floor, content, gap, resolve);
    }
  }

  /** Without gaps inference undoes every plan. */
  lemma GaplessInferUndoesPlan(tree: Node, content: Frame, resolve: Resolver, windows: seq<FramedWindow>)
    requires Distinct(tree) && Solve(tree, content, 0, resolve).Some?
    requires multiset(windows) == multiset(Shown(tree, Solve(tree, content, 0, resolve).value))
    ensures windows != []
    ensures Solve(InferTree(windows, Some(content), 0), content, 0, resolve) == Solve(tree, content, 0, resolve)
  {
    hide Solve, InferTree, Shown, Distinct, Valid, Rooms, FloorOf, ExactCuts;
    InferUndoesPlanIff(tree, content, 0, resolve, windows);
    var floor := FloorOf(tree, content, 0, resolve);
    PlannedTreeIsFloor(tree, content, 0, resolve);
    GaplessCutsAreExact(windows, floor, content);
  }
}
