/** With gaps the round trip can fail: a strip narrower than the gap may look like the better cut. */
module InferGapCase {
  import opened Geometry
  import opened BspTree
  import opened Partition
  import opened Planner
  import opened Subtrees
  import opened InitialLayout
  import opened InferRoundTrip
  import opened InferTheorems

  const CONTENT := Frame(0, 0, 100, 28)
  const GAP := 8

  /** Two rows whose dividers are two points apart. */
  const ROWS: Node := Split(Horizontal, 0.5,
                            Split(Vertical, RatioForLength(10.0, 92), Leaf("a"), Leaf("b")),
                            Split(Vertical, RatioForLength(12.0, 92), Leaf("c"), Leaf("d")))

  const A := FramedWindow("a", Frame(0, 0, 10, 10))
  const B := FramedWindow("b", Frame(18, 0, 82, 10))
  const C := FramedWindow("c", Frame(0, 18, 12, 10))
  const D := FramedWindow("d", Frame(20, 18, 80, 10))

  const SEEN: seq<FramedWindow> := [A, C, B, D]

  lemma {:induction false} NoBoundsAggregate(node: Node, axis: Axis, gap: int)
    ensures AggregateBounds(node, axis, gap, NO_BOUNDS) == FREE
  {
    if node.Split? {
      NoBoundsAggregate(node.first, axis, gap);
      NoBoundsAggregate(node.second, axis, gap);
    }
  }

  lemma FreeHalve(node: Node, rect: Frame, first: int)
    requires node.Split? && 0 < first < Length(rect, node.axis) - GAP
    requires Preferred(Length(rect, node.axis) - GAP, node.ratio) == first
    ensures Halve(node, rect, GAP, NO_BOUNDS) == Lengths(first, Length(rect, node.axis) - GAP - first, true)
  {
    hide Preferred;
    NoBoundsAggregate(node.first, node.axis, GAP);
    NoBoundsAggregate(node.second, node.axis, GAP);
    AdmissiblePreferenceIsKept(Length(rect, node.axis), GAP, node.ratio, FREE, FREE, first,
                               Length(rect, node.axis) - GAP - first);
  }

  lemma RowPlan(row: Node, rect: Frame, first: int, l: WindowId, r: WindowId)
    requires row.Split? && row.axis == Vertical && row.first == Leaf(l) && row.second == Leaf(r)
    requires 0 < first < rect.width - GAP && rect.height > 0
    requires row.ratio == RatioForLength(first as real, rect.width - GAP)
    ensures Solve(row, rect, GAP, NO_BOUNDS)
            == Some(map[r := Frame(rect.x + first + GAP, rect.y, rect.width - GAP - first, rect.height)]
                  + map[l := Frame(rect.x, rect.y, first, rect.height)])
  {
    hide RatioForLength, Preferred, Halve;
    RatioForLengthIsExact(first as real, rect.width - GAP);
    FreeHalve(row, rect, first);
  }

  lemma RowsPlan()
    ensures Solve(ROWS, CONTENT, GAP, NO_BOUNDS)
            == Some(map["a" := A.frame, "b" := B.frame, "c" := C.frame, "d" := D.frame])
  {
    hide RatioForLength, Halve;
    assert Preferred(20, 0.5) == 10;
    FreeHalve(ROWS, CONTENT, 10);
    RowPlan(ROWS.first, Frame(0, 0, 100, 10), 10, "a", "b");
    RowPlan(ROWS.second, Frame(0, 18, 100, 10), 12, "c", "d");
    RowsJoin();
  }

  lemma RowsJoin()
    ensures (map["d" := D.frame] + map["c" := C.frame]) + (map["b" := B.frame] + map["a" := A.frame])
            == map["a" := A.frame, "b" := B.frame, "c" := C.frame, "d" := D.frame]
  {
    assert "a" != "b" && "a" != "c" && "a" != "d" && "b" != "c" && "b" != "d" && "c" != "d";
  }

  lemma RowsAreDistinct()
    ensures Distinct(ROWS)
  {
    assert "a" != "b" && "a" != "c" && "a" != "d" && "b" != "c" && "b" != "d" && "c" != "d";
    assert Bag(ROWS) == (multiset{"a"} + multiset{"b"}) + (multiset{"c"} + multiset{"d"});
  }

  lemma RowsShown(plan: Frames)
    requires plan == map["a" := A.frame, "b" := B.frame, "c" := C.frame, "d" := D.frame]
    requires forall id :: Has(ROWS, id) ==> id in plan
    ensures multiset(SEEN) == multiset(Shown(ROWS, plan))
  {
    HasInParts(ROWS);
    assert plan["a"] == A.frame && plan["b"] == B.frame && plan["c"] == C.frame && plan["d"] == D.frame;
    hide RatioForLength, Bag;
    ShownOfPair(ROWS.first, plan, A, B);
    ShownOfPair(ROWS.second, plan, C, D);
    assert Shown(ROWS, plan) == [A, B] + [C, D];
    FourInOrder(A, B, C, D);
  }

  lemma ShownOfPair(node: Node, plan: Frames, l: FramedWindow, r: FramedWindow)
    requires node.Split? && node.first == Leaf(l.id) && node.second == Leaf(r.id)
    requires forall id :: Has(node, id) ==> id in plan
    requires l.id in plan && plan[l.id] == l.frame && r.id in plan && plan[r.id] == r.frame
    ensures Shown(node, plan) == [l, r]
  {
  }

  lemma FourInOrder(a: FramedWindow, b: FramedWindow, c: FramedWindow, d: FramedWindow)
    ensures multiset([a, b] + [c, d]) == multiset([a, c, b, d])
  {
  }

  lemma {:induction false} SortedStays(windows: seq<FramedWindow>, le: (FramedWindow, FramedWindow) -> bool)
    requires forall i :: 0 <= i < |windows| - 1 ==> le(windows[i], windows[i + 1])
    ensures SortWindows(windows, le) == windows
  {
    if windows != [] {
      var rest := windows[1..];
      forall i | 0 <= i < |rest| - 1 ensures le(rest[i], rest[i + 1]) {
        assert rest[i] == windows[i + 1] && rest[i + 1] == windows[i + 2];
      }
      SortedStays(rest, le);
      if rest != [] {
        assert le(windows[0], windows[1]);
      }
    }
  }

  lemma SeenIsOrdered()
    ensures OrderedBy(SEEN, Vertical) == SEEN
  {
    hide SortWindows;
    assert StringLess("a", "c") && !StringLess("c", "a");
    SortedStays(SEEN, (a: FramedWindow, b: FramedWindow) => ByStart(Vertical, a, b));
  }

  /** Four windows in order, the first two overlapping along the axis: the first cut is in the middle. */
  lemma MiddleCut(s: seq<FramedWindow>, axis: Axis)
    requires |s| == 4
    requires End(s[0].frame, axis) > Start(s[1].frame, axis)
    requires Max(End(s[0].frame, axis), End(s[1].frame, axis)) <= Start(s[2].frame, axis)
    ensures CutsFrom(s, 1, axis) != [] && CutsFrom(s, 1, axis)[0] == CutAt(s, 2, axis)
  {
    FirstTwoEnds(s, axis);
    hide FurthestEnd;
    CutsStep(s, 2, axis);
    CutsStep(s, 1, axis);
  }

  lemma FirstTwoEnds(s: seq<FramedWindow>, axis: Axis)
    requires |s| >= 2
    ensures FurthestEnd(s, 1, axis) == End(s[0].frame, axis)
    ensures FurthestEnd(s, 2, axis) == Max(End(s[0].frame, axis), End(s[1].frame, axis))
  {
  }

  lemma CutsStep(s: seq<FramedWindow>, i: nat, axis: Axis)
    requires 1 <= i < |s|
    ensures CutsFrom(s, i, axis)
            == if FurthestEnd(s, i, axis) <= Start(s[i].frame, axis)
               then [CutAt(s, i, axis)] + CutsFrom(s, i + 1, axis) else CutsFrom(s, i + 1, axis)
  {
    hide FurthestEnd;
  }

  lemma FirstOfBalanced(cuts: seq<Division>)
    requires cuts != [] && Imbalance(cuts[0]) == 0
    ensures MostBalanced(cuts) == Some(cuts[0])
  {
  }

  lemma SeenFacts()
    ensures |SEEN| == 4 && SEEN[0] == A && SEEN[1] == C && SEEN[2] == B && SEEN[3] == D
  {
  }

  /** The narrow strip is the first most balanced cut. */
  lemma NarrowStripWins()
    ensures SeparatingPartition(SEEN) == Some(CutAt(SEEN, 2, Vertical))
  {
    SeenFacts();
    hide SortWindows, CutsFrom, SEEN, MostBalanced;
    SeenIsOrdered();
    MiddleCut(SEEN, Vertical);
    FirstOfBalanced(Cuts(SEEN));
  }

  /** A plan with gaps that inference does not restore. */
  lemma NarrowStripMisplacesWindows()
    ensures Distinct(ROWS) && Solve(ROWS, CONTENT, GAP, NO_BOUNDS).Some?
    ensures multiset(SEEN) == multiset(Shown(ROWS, Solve(ROWS, CONTENT, GAP, NO_BOUNDS).value))
    ensures Solve(InferTree(SEEN, Some(CONTENT), GAP), CONTENT, GAP, NO_BOUNDS)
            != Solve(ROWS, CONTENT, GAP, NO_BOUNDS)
  {
    hide Solve, InferTree, SeparatingPartition, Distinct, Bag, Shown, ROWS;
    RowsAreDistinct();
    RowsPlan();
    RowsShown(Solve(ROWS, CONTENT, GAP, NO_BOUNDS).value);
    InferUndoesPlanIff(ROWS, CONTENT, GAP, NO_BOUNDS, SEEN);
    NarrowStripWins();
    NarrowCut();
    NotExact(SEEN, GAP, CutAt(SEEN, 2, Vertical));
  }

  lemma CutOfFour(s: seq<FramedWindow>, axis: Axis)
    requires |s| == 4
    ensures var d := CutAt(s, 2, axis);
            && d.first != [] && d.second != [] && d.axis == axis
            && CutWidth(d) == Min(Start(s[2].frame, axis), Start(s[3].frame, axis))
                              - Max(End(s[0].frame, axis), End(s[1].frame, axis))
  {
    var d := CutAt(s, 2, axis);
    FirstTwoEnds(d.first, axis);
    hide FurthestEnd;
    assert d.second[1..] == [s[3]];
    LoneStart(s[3], axis);
  }

  lemma LoneStart(w: FramedWindow, axis: Axis)
    ensures LeastStart([w], axis) == Start(w.frame, axis)
  {
  }

  lemma NarrowCut()
    ensures var d := CutAt(SEEN, 2, Vertical); d.first != [] && d.second != [] && CutWidth(d) == 6
  {
    SeenFacts();
    hide SEEN, CutAt, CutWidth;
    CutOfFour(SEEN, Vertical);
  }

  lemma NotExact(windows: seq<FramedWindow>, gap: int, d: Division)
    requires |windows| >= 2 && SeparatingPartition(windows) == Some(d)
    requires d.first != [] && d.second != [] && CutWidth(d) != gap
    ensures !ExactCuts(windows, gap)
  {
    hide SeparatingPartition, CutWidth;
  }
}
