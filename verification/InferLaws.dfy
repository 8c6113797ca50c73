/** Where an inferred tree divides the windows it is given: along a line between them when there is one, through their
    centers when there is none. */
module InferLaws {
  import opened Geometry
  import opened BspTree
  import opened Partition
  import opened InitialLayout
  import InferTheorems

  // ---------------------------------------------------------------- sorting sorts

  ghost predicate TotalOrder(le: (FramedWindow, FramedWindow) -> bool) {
    && (forall a, b :: le(a, b) || le(b, a))
    && (forall a, b, c :: le(a, b) && le(b, c) ==> le(a, c))
  }

  ghost predicate InOrder(windows: seq<FramedWindow>, le: (FramedWindow, FramedWindow) -> bool) {
    forall i, j :: 0 <= i < j < |windows| ==> le(windows[i], windows[j])
  }

  lemma {:induction false} InsertedInOrder(w: FramedWindow, sorted: seq<FramedWindow>, le: (FramedWindow, FramedWindow) -> bool)
    requires TotalOrder(le) && InOrder(sorted, le)
    ensures InOrder(InsertWindow(w, sorted, le), le)
  {
    if sorted != [] && !le(w, sorted[0]) {
      var rest := InsertWindow(w, sorted[1..], le);
      InsertedInOrder(w, sorted[1..], le);
      assert InsertWindow(w, sorted, le) == [sorted[0]] + rest;
      hide InsertWindow;
      forall j | 0 <= j < |rest| ensures le(sorted[0], rest[j]) {
        assert rest[j] in multiset(rest);
        assert rest[j] == w || rest[j] in sorted[1..];
      }
    }
  }

  lemma {:induction false} SortedInOrder(windows: seq<FramedWindow>, le: (FramedWindow, FramedWindow) -> bool)
    requires TotalOrder(le)
    ensures InOrder(SortWindows(windows, le), le)
  {
    hide TotalOrder;
    if windows != [] {
      SortedInOrder(windows[1..], le);
      InsertedInOrder(windows[0], SortWindows(windows[1..], le), le);
    }
  }

  /** The usual order of strings: the shorter of two where one continues the other, else by the first difference. */
  lemma {:induction false} StringLessIff(a: string, b: string)
    ensures StringLess(a, b) <==>
            exists k :: 0 <= k < |b| && k <= |a| && a[..k] == b[..k] && (k == |a| || a[k] < b[k])
  {
    if b == [] {
    } else if a == [] {
      assert a[..0] == b[..0];
    } else if a[0] != b[0] {
      assert a[..0] == b[..0];
      forall k | 0 < k < |b| && k <= |a| ensures a[..k] != b[..k] {
        assert a[..k][0] != b[..k][0];
      }
    } else {
      StringLessIff(a[1..], b[1..]);
      if StringLess(a[1..], b[1..]) {
        var k :| 0 <= k < |b[1..]| && k <= |a[1..]| && a[1..][..k] == b[1..][..k] && (k == |a[1..]| || a[1..][k] < b[1..][k]);
        assert a[..k + 1] == [a[0]] + a[1..][..k] && b[..k + 1] == [b[0]] + b[1..][..k];
      }
      forall k | 0 <= k < |b| && k <= |a| && a[..k] == b[..k] && (k == |a| || a[k] < b[k]) ensures StringLess(a, b) {
        assert k > 0;
        assert a[1..][..k - 1] == a[..k][1..] && b[1..][..k - 1] == b[..k][1..];
      }
    }
  }

  lemma {:induction false} StringsTotal(a: string, b: string)
    ensures StringLess(a, b) || StringLess(b, a) || a == b
    ensures !(StringLess(a, b) && StringLess(b, a))
  {
    if a != [] && b != [] && a[0] == b[0] {
      StringsTotal(a[1..], b[1..]);
      assert a == [a[0]] + a[1..] && b == [b[0]] + b[1..];
    }
  }

  lemma {:induction false} StringsTransitive(a: string, b: string, c: string)
    requires !StringLess(b, a) && !StringLess(c, b)
    ensures !StringLess(c, a)
  {
    if a != [] && b != [] && c != [] && a[0] == b[0] == c[0] {
      StringsTransitive(a[1..], b[1..], c[1..]);
    }
  }

  lemma CenterOrderIsTotal(axis: Axis, le: (FramedWindow, FramedWindow) -> bool)
    requires forall a, b :: le(a, b) <==> ByCenter(axis, a, b)
    ensures TotalOrder(le)
  {
    hide StringLess;
    forall a: FramedWindow, b: FramedWindow ensures le(a, b) || le(b, a) {
      StringsTotal(a.id, b.id);
      assert le(a, b) <==> ByCenter(axis, a, b);
    }
    forall a, b, c | le(a, b) && le(b, c) ensures le(a, c) {
      assert ByCenter(axis, a, b) && ByCenter(axis, b, c);
      if !StringLess(b.id, a.id) && !StringLess(c.id, b.id) {
        StringsTransitive(a.id, b.id, c.id);
      }
      assert ByCenter(axis, a, c);
    }
  }

  lemma CentersInOrder(windows: seq<FramedWindow>, axis: Axis)
    ensures var r := OrderedByCenter(windows, axis);
            forall i, j :: 0 <= i < j < |r| ==> ByCenter(axis, r[i], r[j])
  {
    hide SortWindows, ByCenter;
    var le := (a: FramedWindow, b: FramedWindow) => ByCenter(axis, a, b);
    CenterOrderIsTotal(axis, le);
    SortedInOrder(windows, le);
  }

  // ---------------------------------------------------------------- no line between the windows

  /** A line across the axis, which no window crosses, has these on its near side and those on its far side. */
  ghost predicate Apart(windows: seq<FramedWindow>, axis: Axis, first: seq<FramedWindow>, second: seq<FramedWindow>) {
    && first != [] && second != [] && multiset(first) + multiset(second) == multiset(windows)
    && forall a, b :: a in first && b in second ==> End(a.frame, axis) <= Start(b.frame, axis)
  }

  /** How far, doubled, the center of `b` lies beyond that of `a`. */
  function Beyond(a: FramedWindow, b: FramedWindow, axis: Axis): int {
    Start(b.frame, axis) + End(b.frame, axis) - Start(a.frame, axis) - End(a.frame, axis)
  }

  /** No center beyond the other's: not along the axis, nor, level there, across it, nor, the same, by name. */
  predicate CenteredFirst(a: FramedWindow, b: FramedWindow, axis: Axis) {
    && Beyond(a, b, axis) >= 0
    && (Beyond(a, b, axis) == 0 ==> Beyond(a, b, Other(axis)) >= 0)
    && (Beyond(a, b, axis) == 0 && Beyond(a, b, Other(axis)) == 0 ==> !StringLess(b.id, a.id))
  }

  /** No two centers are further apart along `narrow` than some two are along `wide`. */
  ghost predicate SpreadsAtLeast(windows: seq<FramedWindow>, wide: Axis, narrow: Axis) {
    exists a, b :: a in windows && b in windows && Furthest(windows, a, b, wide, narrow)
  }

  ghost predicate Furthest(windows: seq<FramedWindow>, a: FramedWindow, b: FramedWindow, wide: Axis, narrow: Axis) {
    forall c, d :: c in windows && d in windows ==> Beyond(c, d, narrow) <= Beyond(a, b, wide)
  }

  lemma CutSetsApart(windows: seq<FramedWindow>, d: Division)
    requires windows != [] && SeparatingPartition(windows) == Some(d)
    ensures Apart(windows, d.axis, d.first, d.second)
  {
    hide SeparatingPartition, InferTheorems.MostEnd, InferTheorems.LeastStart;
    InferTheorems.AcceptedCut(windows, d);
    var k := SeparatingPartitionSplits(windows, d);
  }

  lemma InSides(windows: seq<FramedWindow>, first: seq<FramedWindow>, second: seq<FramedWindow>)
    requires multiset(first) + multiset(second) == multiset(windows)
    ensures forall w :: w in windows <==> w in first || w in second
  {
    forall w ensures w in windows <==> w in first || w in second {
      assert w in windows <==> w in multiset(windows);
      assert w in first <==> w in multiset(first);
      assert w in second <==> w in multiset(second);
    }
  }

  /** The first and last by center are as far apart as any two. */
  lemma EndsAreFurthest(windows: seq<FramedWindow>, axis: Axis)
    requires windows != []
    ensures var r := OrderedByCenter(windows, axis);
            && r[0] in windows && r[|r| - 1] in windows
            && forall c, d :: c in windows && d in windows ==> Beyond(c, d, axis) <= Beyond(r[0], r[|r| - 1], axis)
  {
    hide OrderedByCenter;
    var r := OrderedByCenter(windows, axis);
    CentersInOrder(windows, axis);
    InSides(windows, r, []);
    forall c, d | c in windows && d in windows ensures Beyond(c, d, axis) <= Beyond(r[0], r[|r| - 1], axis) {
      assert c in r && d in r;
      var i :| 0 <= i < |r| && r[i] == c;
      var j :| 0 <= j < |r| && r[j] == d;
      assert i == 0 || ByCenter(axis, r[0], r[i]);
      assert j == |r| - 1 || ByCenter(axis, r[j], r[|r| - 1]);
    }
  }

  lemma OverlappingAxis(windows: seq<FramedWindow>)
    requires |windows| >= 2
    ensures (OverlappingPartition(windows).axis == Vertical) <==> SpreadsAtLeast(windows, Vertical, Horizontal)
  {
    hide OrderedByCenter;
    var byX, byY := OrderedByCenter(windows, Vertical), OrderedByCenter(windows, Horizontal);
    EndsAreFurthest(windows, Vertical);
    EndsAreFurthest(windows, Horizontal);
    if OverlappingPartition(windows).axis == Vertical {
      assert Furthest(windows, byX[0], byX[|byX| - 1], Vertical, Horizontal);
    } else {
      forall a, b | a in windows && b in windows ensures !Furthest(windows, a, b, Vertical, Horizontal) {
        assert Beyond(a, b, Vertical) <= Beyond(byX[0], byX[|byX| - 1], Vertical);
      }
    }
  }

  lemma OverlappingHalves(windows: seq<FramedWindow>)
    requires |windows| >= 2
    ensures var d := OverlappingPartition(windows);
            && |d.second| <= |d.first| <= |d.second| + 1
            && forall a, b :: a in d.first && b in d.second ==> CenteredFirst(a, b, d.axis)
  {
    hide OrderedByCenter, ByCenter, StringLess;
    var d := OverlappingPartition(windows);
    var sorted := OrderedByCenter(windows, d.axis);
    CentersInOrder(windows, d.axis);
    assert d.first == sorted[..|d.first|] && d.second == sorted[|d.first|..];
    forall a, b | a in d.first && b in d.second ensures CenteredFirst(a, b, d.axis) {
      var i :| 0 <= i < |d.first| && d.first[i] == a;
      var j :| 0 <= j < |d.second| && d.second[j] == b;
      assert sorted[i] == a && sorted[|d.first| + j] == b;
      CenteredFirstIs(a, b, d.axis);
    }
  }

  lemma CenteredFirstIs(a: FramedWindow, b: FramedWindow, axis: Axis)
    requires ByCenter(axis, a, b)
    ensures CenteredFirst(a, b, axis)
  {
  }

  /** The smallest rectangle around the windows. */
  ghost predicate TightAround(windows: seq<FramedWindow>, rect: Frame) {
    forall axis :: TightAlong(windows, rect, axis)
  }

  ghost predicate TightAlong(windows: seq<FramedWindow>, rect: Frame, axis: Axis) {
    && (forall w :: w in windows ==> Start(rect, axis) <= Start(w.frame, axis) && End(w.frame, axis) <= End(rect, axis))
    && (exists w :: w in windows && Start(w.frame, axis) == Start(rect, axis))
    && (exists w :: w in windows && End(w.frame, axis) == End(rect, axis))
  }

  lemma {:induction false} BoundsAreTight(windows: seq<FramedWindow>)
    requires windows != []
    ensures TightAround(windows, BoundsOf(windows))
  {
    if |windows| > 1 {
      BoundsAreTight(windows[1..]);
      var rest := BoundsOf(windows[1..]);
      forall axis ensures TightAlong(windows, BoundsOf(windows), axis) {
        assert TightAlong(windows[1..], rest, axis);
        assert windows == [windows[0]] + windows[1..];
        UnionAlong(windows[0].frame, rest, axis);
      }
    } else {
      forall axis ensures TightAlong(windows, BoundsOf(windows), axis) {
        assert windows[0] in windows;
      }
    }
  }

  lemma UnionAlong(a: Frame, b: Frame, axis: Axis)
    ensures Start(Union(a, b), axis) == Min(Start(a, axis), Start(b, axis))
    ensures End(Union(a, b), axis) == Max(End(a, axis), End(b, axis))
  {
  }

  /** The tree divides the target after `length`, leaves a gap, and each side is inferred in its part. */
  ghost predicate DividedAt(t: Node, first: seq<FramedWindow>, second: seq<FramedWindow>, target: Frame, gap: int, length: int) {
    && t.Split?
    && Preferred(Max(0, Length(target, t.axis) - gap), t.ratio) == length
    && InferInitialTree(first, Some(FrameAlong(target, t.axis, Start(target, t.axis), length)), gap) == Some(t.first)
    && InferInitialTree(second, Some(FrameAlong(target, t.axis, Start(target, t.axis) + length + gap,
                                                Max(0, Length(target, t.axis) - length - gap))), gap) == Some(t.second)
  }

  function FrameAlong(f: Frame, axis: Axis, start: int, length: int): Frame {
    if axis == Vertical then Frame(start, f.y, length, f.height) else Frame(f.x, start, f.width, length)
  }

  /** What the inference fills: the content, or the rectangle around the windows. */
  ghost predicate Fills(windows: seq<FramedWindow>, content: Option<Frame>, target: Frame) {
    if content.Some? then target == content.value else TightAround(windows, target)
  }

  lemma OnlyOneFilled(windows: seq<FramedWindow>, a: Frame, b: Frame)
    requires TightAround(windows, a) && TightAround(windows, b)
    ensures a == b
  {
    assert TightAlong(windows, a, Vertical) && TightAlong(windows, b, Vertical);
    assert TightAlong(windows, a, Horizontal) && TightAlong(windows, b, Horizontal);
  }

  /** The tree a division gives. */
  lemma DividedTree(windows: seq<FramedWindow>, content: Option<Frame>, target: Frame, gap: int)
    requires |windows| >= 2 && Fills(windows, content, target)
    ensures var d, t := Divide(windows), InferInitialTree(windows, content, gap);
            && t.Some? && t.value.Split? && t.value.axis == d.axis
            && var ratio := InferredRatio(d, BoundsOf(windows), target, gap);
               && t.value.ratio == ratio
               && DividedAt(t.value, d.first, d.second, target, gap, Realized(Usable(target, d.axis, gap), ratio))
  {
    hide Divide, InferredRatio, BoundsOf, InferTree, TightAround;
    BoundsAreTight(windows);
    if content.None? {
      OnlyOneFilled(windows, target, BoundsOf(windows));
    }
    InferredSplit(windows, content, gap);
    var d := Divide(windows);
    RatioInRange(d, BoundsOf(windows), target, gap);
  }

  lemma RatioInRange(d: Division, source: Frame, target: Frame, gap: int)
    ensures IsValidRatio(InferredRatio(d, source, target, gap))
  {
    hide RatioForLength;
    var usable := Usable(target, d.axis, gap);
    if usable > 2 {
      RatioForLengthIsExact(FirstSize(d.border, source, target, d.axis, usable, gap), usable);
    }
  }

  /** No line runs between the windows: they are divided along the axis their centers spread furthest on, side by side on
      a tie, into halves of which neither reaches past the other and the first has at most one window more; and the
      target is halved. */
  ghost predicate DividedByCenters(windows: seq<FramedWindow>, t: Node, target: Frame, gap: int) {
    && t.Split? && t.ratio == 0.5
    && (t.axis == Vertical <==> SpreadsAtLeast(windows, Vertical, Horizontal))
    && exists first, second :: ByCenters(windows, t, first, second, target, gap)
  }

  ghost predicate ByCenters(windows: seq<FramedWindow>, t: Node, first: seq<FramedWindow>, second: seq<FramedWindow>,
                            target: Frame, gap: int)
    requires t.Split?
  {
    && multiset(first) + multiset(second) == multiset(windows)
    && |second| <= |first| <= |second| + 1
    && (forall a, b :: a in first && b in second ==> CenteredFirst(a, b, t.axis))
    && DividedAt(t, first, second, target, gap, Max(0, Length(target, t.axis) - gap) / 2)
  }

  lemma UnseparatedWindowsDivideByCenters(windows: seq<FramedWindow>, content: Option<Frame>, target: Frame, gap: int)
    requires |windows| >= 2 && Fills(windows, content, target)
    requires forall axis, first, second :: !Apart(windows, axis, first, second)
    ensures var t := InferInitialTree(windows, content, gap);
            t.Some? && DividedByCenters(windows, t.value, target, gap)
  {
    hide OverlappingPartition, BoundsOf, SpreadsAtLeast, Apart, SeparatingPartition, Fills, DividedAt, CenteredFirst;
    if SeparatingPartition(windows).Some? {
      CutSetsApart(windows, SeparatingPartition(windows).value);
    }
    var d := Divide(windows);
    assert d == OverlappingPartition(windows);
    DividedTree(windows, content, target, gap);
    Halved(d, BoundsOf(windows), target, gap);
    OverlappingAxis(windows);
    OverlappingHalves(windows);
    assert ByCenters(windows, InferInitialTree(windows, content, gap).value, d.first, d.second, target, gap);
  }

  /** Without a border the usable length is halved. */
  lemma Halved(d: Division, source: Frame, target: Frame, gap: int)
    requires d.border.None?
    ensures InferredRatio(d, source, target, gap) == 0.5
    ensures Realized(Usable(target, d.axis, gap), 0.5) == Max(0, Length(target, d.axis) - gap) / 2
  {
    var usable := Usable(target, d.axis, gap);
    HalfFloors(usable);
  }

  lemma HalfFloors(n: nat)
    ensures (n as real * 0.5).Floor == n / 2
    ensures n > 0 ==> n as real / 2.0 / n as real == 0.5
  {
    assert n == 2 * (n / 2) + n % 2;
    if n > 0 {
      HalfOfItself(n as real);
    }
  }

  lemma HalfOfItself(x: real)
    requires x > 0.0
    ensures x / 2.0 / x == 0.5
  {
    DivideThenMultiply(x / 2.0, x);
    var q := x / 2.0 / x;
    assert x * (q - 0.5) == 0.0;
  }

  // ---------------------------------------------------------------- a line between the windows

  function Uneven(a: nat, b: nat): nat { Abs(a - b) }

  predicate IsCut(ordered: seq<FramedWindow>, k: nat, axis: Axis) {
    1 <= k < |ordered| && FurthestEnd(ordered, k, axis) <= Start(ordered[k].frame, axis)
  }

  /** The first of the most balanced cuts from position `i` on. */
  ghost predicate BestFrom(ordered: seq<FramedWindow>, i: nat, axis: Axis, best: Option<Division>) {
    if best.None? then forall j :: i <= j < |ordered| ==> !IsCut(ordered, j, axis)
    else
      var k := |best.value.first|;
      && i <= k && IsCut(ordered, k, axis) && best.value == CutAt(ordered, k, axis)
      && forall j :: i <= j < |ordered| && IsCut(ordered, j, axis) ==> ComesFirst(k, j, |ordered|)
  }

  predicate ComesFirst(k: nat, j: nat, n: nat)
    requires k <= n && j <= n
  {
    Uneven(k, n - k) < Uneven(j, n - j) || (Uneven(k, n - k) == Uneven(j, n - j) && k <= j)
  }

  function Better(x: Option<Division>, y: Option<Division>): Option<Division> {
    if y.Some? && (x.None? || Imbalance(y.value) < Imbalance(x.value)) then y else x
  }

  lemma MostBalancedStep(c: Division, rest: seq<Division>)
    ensures MostBalanced([c] + rest) == Better(Some(c), MostBalanced(rest))
  {
    assert ([c] + rest)[1..] == rest;
  }

  lemma BestStep(ordered: seq<FramedWindow>, i: nat, axis: Axis, best: Option<Division>)
    requires 1 <= i < |ordered| && BestFrom(ordered, i + 1, axis, best)
    ensures !IsCut(ordered, i, axis) ==> BestFrom(ordered, i, axis, best)
    ensures IsCut(ordered, i, axis) ==>
              BestFrom(ordered, i, axis, Better(Some(CutAt(ordered, i, axis)), best))
  {
    hide FurthestEnd;
  }

  lemma CutsStep(ordered: seq<FramedWindow>, i: nat, axis: Axis)
    requires 1 <= i < |ordered|
    ensures CutsFrom(ordered, i, axis)
            == if IsCut(ordered, i, axis) then [CutAt(ordered, i, axis)] + CutsFrom(ordered, i + 1, axis)
               else CutsFrom(ordered, i + 1, axis)
  {
    hide FurthestEnd;
    assert [] + CutsFrom(ordered, i + 1, axis) == CutsFrom(ordered, i + 1, axis);
  }

  lemma {:induction false} MostBalancedIsBest(ordered: seq<FramedWindow>, i: nat, axis: Axis)
    requires 1 <= i <= |ordered|
    ensures BestFrom(ordered, i, axis, MostBalanced(CutsFrom(ordered, i, axis)))
    decreases |ordered| - i
  {
    if i < |ordered| {
      MostBalancedIsBest(ordered, i + 1, axis);
      BestOfOneMore(ordered, i, axis);
    }
  }

  lemma BestOfOneMore(ordered: seq<FramedWindow>, i: nat, axis: Axis)
    requires 1 <= i < |ordered| && BestFrom(ordered, i + 1, axis, MostBalanced(CutsFrom(ordered, i + 1, axis)))
    ensures BestFrom(ordered, i, axis, MostBalanced(CutsFrom(ordered, i, axis)))
  {
    hide BestFrom, CutsFrom, CutAt, IsCut, MostBalanced, Better;
    var rest := CutsFrom(ordered, i + 1, axis);
    BestStep(ordered, i, axis, MostBalanced(rest));
    CutsStep(ordered, i, axis);
    if IsCut(ordered, i, axis) {
      MostBalancedStep(CutAt(ordered, i, axis), rest);
    }
  }

  lemma BetterOfThree(x: Option<Division>, y: Option<Division>, z: Option<Division>)
    ensures Better(x, Better(y, z)) == Better(Better(x, y), z)
  {
  }

  lemma {:induction false} MostBalancedOfBoth(a: seq<Division>, b: seq<Division>)
    ensures MostBalanced(a + b) == Better(MostBalanced(a), MostBalanced(b))
  {
    if a == [] {
      assert a + b == b;
    } else {
      hide MostBalanced, Better;
      FirstAndRest(a, b);
      MostBalancedOfBoth(a[1..], b);
      JoinStep(a[0], a[1..], b);
    }
  }

  lemma FirstAndRest<T>(a: seq<T>, b: seq<T>)
    requires a != []
    ensures a + b == [a[0]] + (a[1..] + b) && a == [a[0]] + a[1..]
  {
  }

  lemma JoinStep(c: Division, rest: seq<Division>, b: seq<Division>)
    requires MostBalanced(rest + b) == Better(MostBalanced(rest), MostBalanced(b))
    ensures MostBalanced([c] + (rest + b)) == Better(MostBalanced([c] + rest), MostBalanced(b))
  {
    hide MostBalanced, Better;
    MostBalancedStep(c, rest + b);
    MostBalancedStep(c, rest);
    BetterOfThree(Some(c), MostBalanced(rest), MostBalanced(b));
  }

  predicate AllPositive(windows: seq<FramedWindow>) { forall w :: w in windows ==> Positive(w.frame) }

  /** Windows a line sets apart are a cut: in the order of their starts, those on the near side come first. */
  lemma ApartIsCut(windows: seq<FramedWindow>, axis: Axis, first: seq<FramedWindow>, second: seq<FramedWindow>)
    requires AllPositive(windows) && Apart(windows, axis, first, second)
    ensures windows != [] && IsCut(OrderedBy(windows, axis), |first|, axis)
  {
    hide OrderedBy, Apart, AllPositive, IsCut, InferTheorems.SortedByStart;
    var c := FirstBeyond(windows, axis, first, second);
    var ordered := OrderedBy(windows, axis);
    InferTheorems.OrderedIsSorted(windows, axis);
    var k := CountBelow(ordered, axis, c);
    assert ordered == ordered[..k] + ordered[k..];
    SidesByStart(multiset(ordered[..k]), multiset(ordered[k..]), multiset(first), multiset(second), axis, c);
    assert |ordered[..k]| == |multiset(ordered[..k])| == |multiset(first)|;
    assert |ordered[k..]| == |multiset(ordered[k..])| == |multiset(second)|;
    EndsBelow(ordered, k, axis, c, first);
  }

  /** Where the first window on the far side starts. */
  lemma FirstBeyond(windows: seq<FramedWindow>, axis: Axis, first: seq<FramedWindow>, second: seq<FramedWindow>) returns (c: int)
    requires AllPositive(windows) && Apart(windows, axis, first, second)
    ensures windows != [] && first != [] && second != [] && multiset(first) + multiset(second) == multiset(windows)
    ensures forall w :: w in multiset(first) ==> Start(w.frame, axis) < c && End(w.frame, axis) <= c
    ensures forall w :: w in multiset(second) ==> Start(w.frame, axis) >= c
  {
    hide InferTheorems.LeastStart;
    InSides(windows, first, second);
    assert first[0] in windows;
    var j := InferTheorems.LeastStartIsLeast(second, axis);
    assert second[j] in second;
    c := Start(second[j].frame, axis);
    forall w | w in multiset(first) ensures Start(w.frame, axis) < c && End(w.frame, axis) <= c {
      assert w in first && w in windows;
      assert Positive(w.frame);
    }
  }

  lemma EndsBelow(ordered: seq<FramedWindow>, k: nat, axis: Axis, c: int, first: seq<FramedWindow>)
    requires 1 <= k < |ordered| && multiset(ordered[..k]) == multiset(first)
    requires forall w :: w in multiset(first) ==> End(w.frame, axis) <= c
    requires forall w :: w in multiset(ordered[k..]) ==> Start(w.frame, axis) >= c
    ensures IsCut(ordered, k, axis)
  {
    hide FurthestEnd;
    var m := InferTheorems.FurthestEndIsMost(ordered, k, axis);
    assert ordered[m] in multiset(ordered[..k]);
    assert ordered[k] in multiset(ordered[k..]);
  }

  /** How many windows of a list in the order of their starts begin before `c`. */
  lemma {:induction false} CountBelow(ordered: seq<FramedWindow>, axis: Axis, c: int) returns (k: nat)
    requires InferTheorems.SortedByStart(ordered, axis)
    ensures k <= |ordered|
    ensures forall w :: w in multiset(ordered[..k]) ==> Start(w.frame, axis) < c
    ensures forall w :: w in multiset(ordered[k..]) ==> Start(w.frame, axis) >= c
  {
    k := 0;
    while k < |ordered| && Start(ordered[k].frame, axis) < c
      invariant k <= |ordered|
      invariant forall j :: 0 <= j < k ==> Start(ordered[j].frame, axis) < c
    {
      k := k + 1;
    }
    forall w | w in multiset(ordered[k..]) ensures Start(w.frame, axis) >= c {
      var j :| k <= j < |ordered| && ordered[j] == w;
      assert Start(ordered[k].frame, axis) <= Start(ordered[j].frame, axis);
    }
  }

  lemma SidesByStart(a1: multiset<FramedWindow>, a2: multiset<FramedWindow>, b1: multiset<FramedWindow>,
                     b2: multiset<FramedWindow>, axis: Axis, c: int)
    requires a1 + a2 == b1 + b2
    requires forall w :: w in a1 || w in b1 ==> Start(w.frame, axis) < c
    requires forall w :: w in a2 || w in b2 ==> Start(w.frame, axis) >= c
    ensures a1 == b1 && a2 == b2
  {
    forall w ensures a1[w] == b1[w] && a2[w] == b2[w] {
      assert (a1 + a2)[w] == (b1 + b2)[w];
      if Start(w.frame, axis) < c {
        assert w !in a2 && w !in b2;
      } else {
        assert w !in a1 && w !in b1;
      }
    }
  }

  /** No other line divides the windows more evenly; of those that do as well, it is the first, one for a divider that
      stands upright before one that lies level. */
  ghost predicate MostEven(windows: seq<FramedWindow>, axis: Axis, first: seq<FramedWindow>, second: seq<FramedWindow>) {
    forall other, a, b :: Apart(windows, other, a, b) ==> NoLess(axis, first, second, other, a, b)
  }

  predicate NoLess(axis: Axis, first: seq<FramedWindow>, second: seq<FramedWindow>,
                   other: Axis, a: seq<FramedWindow>, b: seq<FramedWindow>) {
    || Uneven(|first|, |second|) < Uneven(|a|, |b|)
    || (Uneven(|first|, |second|) == Uneven(|a|, |b|) && (if axis == other then |first| <= |a| else axis == Vertical))
  }

  lemma CutIsMostEven(windows: seq<FramedWindow>)
    requires windows != [] && AllPositive(windows)
    requires exists axis, a, b :: Apart(windows, axis, a, b)
    ensures SeparatingPartition(windows).Some?
    ensures var d := SeparatingPartition(windows).value; MostEven(windows, d.axis, d.first, d.second)
  {
    hide BestFrom, Better, CutsFrom, OrderedBy, Apart, AllPositive, MostBalanced, NoLess;
    var byX, byY := OrderedBy(windows, Vertical), OrderedBy(windows, Horizontal);
    var x, y := MostBalanced(CutsFrom(byX, 1, Vertical)), MostBalanced(CutsFrom(byY, 1, Horizontal));
    MostBalancedIsBest(byX, 1, Vertical);
    MostBalancedIsBest(byY, 1, Horizontal);
    MostBalancedOfBoth(CutsFrom(byX, 1, Vertical), CutsFrom(byY, 1, Horizontal));
    forall axis, a, b | Apart(windows, axis, a, b)
      ensures Better(x, y).Some? && NoLess(Better(x, y).value.axis, Better(x, y).value.first, Better(x, y).value.second, axis, a, b)
    {
      ApartIsCut(windows, axis, a, b);
      ApartCounts(windows, axis, a, b);
      NoCutBeats(byX, byY, x, y, axis, a, b);
    }
  }

  lemma NoCutBeats(byX: seq<FramedWindow>, byY: seq<FramedWindow>, x: Option<Division>, y: Option<Division>,
                   axis: Axis, a: seq<FramedWindow>, b: seq<FramedWindow>)
    requires BestFrom(byX, 1, Vertical, x) && BestFrom(byY, 1, Horizontal, y) && |byX| == |byY| == |a| + |b|
    requires IsCut(if axis == Vertical then byX else byY, |a|, axis)
    ensures Better(x, y).Some? && var d := Better(x, y).value; NoLess(d.axis, d.first, d.second, axis, a, b)
  {
    hide FurthestEnd;
  }

  lemma ApartCounts(windows: seq<FramedWindow>, axis: Axis, a: seq<FramedWindow>, b: seq<FramedWindow>)
    requires Apart(windows, axis, a, b)
    ensures |a| + |b| == |windows|
  {
    assert |multiset(a)| + |multiset(b)| == |multiset(windows)|;
  }

  // ---------------------------------------------------------------- where the divider goes

  /** The near side ends at `e`, the far side starts at `f`. */
  ghost predicate SidesMeet(first: seq<FramedWindow>, second: seq<FramedWindow>, axis: Axis, e: int, f: int) {
    && (forall w :: w in first ==> End(w.frame, axis) <= e) && (exists w :: w in first && End(w.frame, axis) == e)
    && (forall w :: w in second ==> f <= Start(w.frame, axis)) && (exists w :: w in second && Start(w.frame, axis) == f)
  }

  /** The divider's center goes midway between the sides; for windows wholly outside the target, where that lies in
      proportion. */
  ghost predicate CenterGoesTo(border: real, e: int, f: int, source: Frame, target: Frame, axis: Axis) {
    if Start(source, axis) < End(target, axis) && Start(target, axis) < End(source, axis) then 2.0 * border == (e + f) as real
    else 2.0 * (border - Start(target, axis) as real) * Length(source, axis) as real
         == ((e + f) as real - 2.0 * Start(source, axis) as real) * Length(target, axis) as real
  }

  /** The near side's length: up to half a gap before the divider's center, though each side gets a point; of two points
      or fewer, half. */
  ghost predicate NearLength(length: int, e: int, f: int, source: Frame, target: Frame, axis: Axis, gap: int) {
    var usable := Max(0, Length(target, axis) - gap);
    if usable <= 2 then length == usable / 2
    else exists border: real ::
           && CenterGoesTo(border, e, f, source, target, axis)
           && length == Max(1, Min(usable - 1, (border - Start(target, axis) as real - gap as real / 2.0).Floor))
  }

  lemma BorderIsPlaced(d: Division, source: Frame, target: Frame, gap: int, e: int, f: int)
    requires d.border == Some(Midway(e, f)) && Length(source, d.axis) > 0
    ensures NearLength(Realized(Usable(target, d.axis, gap), InferredRatio(d, source, target, gap)), e, f, source, target, d.axis, gap)
  {
    hide RatioForLength, CenterGoesTo;
    var axis, usable := d.axis, Usable(target, d.axis, gap);
    if usable > 2 {
      var border := PlacedBorder(d, source, target, gap, e, f);
      var size := FirstSize(d.border, source, target, axis, usable, gap);
      RatioForLengthIsExact(size, usable);
      ClampFloors(border - Start(target, axis) as real - gap as real / 2.0, usable);
    } else {
      HalfFloors(usable);
    }
  }

  lemma PlacedBorder(d: Division, source: Frame, target: Frame, gap: int, e: int, f: int) returns (border: real)
    requires d.border == Some(Midway(e, f)) && Length(source, d.axis) > 0
    ensures CenterGoesTo(border, e, f, source, target, d.axis)
    ensures var usable := Usable(target, d.axis, gap);
            FirstSize(d.border, source, target, d.axis, usable, gap)
            == MaxReal(1.0, MinReal(usable as real - 1.0, border - Start(target, d.axis) as real - gap as real / 2.0))
  {
    var axis := d.axis;
    if Start(source, axis) < End(target, axis) && Start(target, axis) < End(source, axis) {
      border := d.border.value;
    } else {
      var across := d.border.value - Start(source, axis) as real;
      border := Start(target, axis) as real + across / Length(source, axis) as real * Length(target, axis) as real;
      InProportion(across, Length(source, axis) as real, Length(target, axis) as real);
    }
  }

  lemma InProportion(x: real, n: real, m: real)
    requires n != 0.0
    ensures 2.0 * (x / n * m) * n == 2.0 * x * m
  {
    DivideThenMultiply(x, n);
    var q := x / n;
    assert 2.0 * (q * m) * n == 2.0 * (n * q) * m;
  }

  lemma ClampFloors(x: real, usable: nat)
    requires usable > 2
    ensures MaxReal(1.0, MinReal(usable as real - 1.0, x)).Floor == Max(1, Min(usable - 1, x.Floor))
  {
  }

  // ---------------------------------------------------------------- the law

  /** A line runs between the windows: they are divided along the one that divides them most evenly, and the divider
      keeps its center. */
  ghost predicate DividedByLine(windows: seq<FramedWindow>, t: Node, target: Frame, gap: int) {
    t.Split? && exists first, second :: ByLine(windows, t, first, second, target, gap)
  }

  ghost predicate ByLine(windows: seq<FramedWindow>, t: Node, first: seq<FramedWindow>, second: seq<FramedWindow>,
                         target: Frame, gap: int)
    requires t.Split?
  {
    && Apart(windows, t.axis, first, second) && MostEven(windows, t.axis, first, second)
    && forall source, e, f :: TightAround(windows, source) && SidesMeet(first, second, t.axis, e, f) ==>
         exists length :: NearLength(length, e, f, source, target, t.axis, gap) && DividedAt(t, first, second, target, gap, length)
  }

  lemma SeparatedWindowsDivideByLine(windows: seq<FramedWindow>, content: Option<Frame>, target: Frame, gap: int)
    requires |windows| >= 2 && AllPositive(windows) && Fills(windows, content, target)
    requires exists axis, first, second :: Apart(windows, axis, first, second)
    ensures var t := InferInitialTree(windows, content, gap);
            t.Some? && DividedByLine(windows, t.value, target, gap)
  {
    hide SeparatingPartition, BoundsOf, Apart, MostEven, AllPositive, TightAround, SidesMeet, NearLength, Fills, DividedAt, InferInitialTree;
    CutIsMostEven(windows);
    var d := SeparatingPartition(windows).value;
    CutSetsApart(windows, d);
    DividedTree(windows, content, target, gap);
    var t := InferInitialTree(windows, content, gap).value;
    forall source, e, f | TightAround(windows, source) && SidesMeet(d.first, d.second, t.axis, e, f)
      ensures exists length :: NearLength(length, e, f, source, target, t.axis, gap)
                               && DividedAt(t, d.first, d.second, target, gap, length)
    {
      BoundsAreTight(windows);
      OnlyOneFilled(windows, source, BoundsOf(windows));
      CutMeets(windows, d, e, f);
      SomeLength(windows, source, d.axis);
      BorderIsPlaced(d, source, target, gap, e, f);
    }
    assert ByLine(windows, t, d.first, d.second, target, gap);
  }

  lemma CutMeets(windows: seq<FramedWindow>, d: Division, e: int, f: int)
    requires windows != [] && SeparatingPartition(windows) == Some(d) && SidesMeet(d.first, d.second, d.axis, e, f)
    ensures d.border == Some(Midway(e, f))
  {
    hide SeparatingPartition, InferTheorems.MostEnd, InferTheorems.LeastStart;
    InferTheorems.AcceptedCut(windows, d);
  }

  lemma SomeLength(windows: seq<FramedWindow>, rect: Frame, axis: Axis)
    requires windows != [] && AllPositive(windows) && TightAround(windows, rect)
    ensures Length(rect, axis) > 0
  {
    assert TightAlong(windows, rect, axis);
    assert windows[0] in windows && Positive(windows[0].frame);
  }
}
