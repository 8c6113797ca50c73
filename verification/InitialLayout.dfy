/** Inferring a split tree from the rectangles windows already occupy. */
module InitialLayout {
  import opened Geometry
  import opened BspTree
  import opened Partition

  datatype FramedWindow = FramedWindow(id: WindowId, frame: Frame)

  predicate StringLess(a: string, b: string) {
    if b == [] then false
    else if a == [] then true
    else if a[0] != b[0] then a[0] < b[0]
    else StringLess(a[1..], b[1..])
  }

  /** Twice the coordinate of a window's center. */
  function Center(w: FramedWindow, axis: Axis): int {
    2 * Start(w.frame, axis) + Length(w.frame, axis)
  }

  predicate ByStart(axis: Axis, a: FramedWindow, b: FramedWindow) {
    if Start(a.frame, axis) != Start(b.frame, axis) then Start(a.frame, axis) < Start(b.frame, axis)
    else !StringLess(b.id, a.id)
  }

  predicate ByCenter(axis: Axis, a: FramedWindow, b: FramedWindow) {
    if Center(a, axis) != Center(b, axis) then Center(a, axis) < Center(b, axis)
    else if Center(a, Other(axis)) != Center(b, Other(axis)) then Center(a, Other(axis)) < Center(b, Other(axis))
    else !StringLess(b.id, a.id)
  }

  function SortWindows(windows: seq<FramedWindow>, le: (FramedWindow, FramedWindow) -> bool): (r: seq<FramedWindow>)
    ensures |r| == |windows|
    ensures multiset(r) == multiset(windows)
  {
    if windows == [] then [] else
      var r := InsertWindow(windows[0], SortWindows(windows[1..], le), le);
      assert windows == [windows[0]] + windows[1..];
      r
  }

  function InsertWindow(w: FramedWindow, sorted: seq<FramedWindow>, le: (FramedWindow, FramedWindow) -> bool)
    : (r: seq<FramedWindow>)
    ensures |r| == |sorted| + 1
    ensures multiset(r) == multiset{w} + multiset(sorted)
  {
    if sorted == [] || le(w, sorted[0]) then [w] + sorted
    else
      assert sorted == [sorted[0]] + sorted[1..];
      [sorted[0]] + InsertWindow(w, sorted[1..], le)
  }

  /** Furthest end of the first `i` windows. */
  function FurthestEnd(ordered: seq<FramedWindow>, i: nat, axis: Axis): int
    requires 1 <= i <= |ordered|
  {
    if i == 1 then End(ordered[0].frame, axis)
    else Max(FurthestEnd(ordered, i - 1, axis), End(ordered[i - 1].frame, axis))
  }

  datatype Division = Division(axis: Axis, first: seq<FramedWindow>, second: seq<FramedWindow>, border: Option<real>)

  function Midway(a: int, b: int): real { (a + b) as real / 2.0 }

  function CutAt(ordered: seq<FramedWindow>, i: nat, axis: Axis): Division
    requires 1 <= i < |ordered|
  {
    Division(axis, ordered[..i], ordered[i..], Some(Midway(FurthestEnd(ordered, i, axis), Start(ordered[i].frame, axis))))
  }

  /** The cuts from position `i` on that no window crosses. */
  function CutsFrom(ordered: seq<FramedWindow>, i: nat, axis: Axis): (r: seq<Division>)
    requires 1 <= i <= |ordered|
    decreases |ordered| - i
  {
    if i == |ordered| then [] else
      (if FurthestEnd(ordered, i, axis) <= Start(ordered[i].frame, axis) then [CutAt(ordered, i, axis)] else [])
      + CutsFrom(ordered, i + 1, axis)
  }

  function OrderedBy(windows: seq<FramedWindow>, axis: Axis): (r: seq<FramedWindow>)
    ensures |r| == |windows| && multiset(r) == multiset(windows)
  {
    SortWindows(windows, (a: FramedWindow, b: FramedWindow) => ByStart(axis, a, b))
  }

  function Cuts(windows: seq<FramedWindow>): seq<Division>
    requires windows != []
  {
    CutsFrom(OrderedBy(windows, Vertical), 1, Vertical) + CutsFrom(OrderedBy(windows, Horizontal), 1, Horizontal)
  }

  function Imbalance(d: Division): nat { Abs(|d.first| - |d.second|) }

  /** First of the most balanced cuts. */
  function MostBalanced(cuts: seq<Division>): (r: Option<Division>)
    ensures r.None? <==> cuts == []
    ensures r.Some? ==> r.value in cuts && forall c :: c in cuts ==> Imbalance(r.value) <= Imbalance(c)
  {
    if cuts == [] then None else
      var rest := MostBalanced(cuts[1..]);
      if rest.Some? && Imbalance(rest.value) < Imbalance(cuts[0]) then rest else Some(cuts[0])
  }

  function SeparatingPartition(windows: seq<FramedWindow>): Option<Division>
    requires windows != []
  {
    MostBalanced(Cuts(windows))
  }

  function OrderedByCenter(windows: seq<FramedWindow>, axis: Axis): (r: seq<FramedWindow>)
    ensures |r| == |windows| && multiset(r) == multiset(windows)
  {
    SortWindows(windows, (a: FramedWindow, b: FramedWindow) => ByCenter(axis, a, b))
  }

  function OverlappingPartition(windows: seq<FramedWindow>): (d: Division)
    requires |windows| >= 2
    ensures d.first != [] && d.second != [] && d.border.None?
    ensures |d.first| + |d.second| == |windows|
    ensures multiset(d.first) + multiset(d.second) == multiset(windows)
  {
    var byX := OrderedByCenter(windows, Vertical);
    var byY := OrderedByCenter(windows, Horizontal);
    var xSpread := Center(byX[|byX| - 1], Vertical) - Center(byX[0], Vertical);
    var ySpread := Center(byY[|byY| - 1], Horizontal) - Center(byY[0], Horizontal);
    var axis := if xSpread >= ySpread then Vertical else Horizontal;
    var sorted := if axis == Vertical then byX else byY;
    var splitAt := (|sorted| + 1) / 2;
    assert sorted == sorted[..splitAt] + sorted[splitAt..];
    Division(axis, sorted[..splitAt], sorted[splitAt..], None)
  }

  lemma {:induction false} CutsAreCuts(ordered: seq<FramedWindow>, i: nat, axis: Axis, d: Division) returns (k: nat)
    requires 1 <= i <= |ordered| && d in CutsFrom(ordered, i, axis)
    ensures i <= k < |ordered| && d == CutAt(ordered, k, axis)
    ensures FurthestEnd(ordered, k, axis) <= Start(ordered[k].frame, axis)
    decreases |ordered| - i
  {
    if d in CutsFrom(ordered, i + 1, axis) {
      k := CutsAreCuts(ordered, i + 1, axis, d);
    } else {
      k := i;
    }
  }

  lemma SeparatingPartitionSplits(windows: seq<FramedWindow>, d: Division) returns (k: nat)
    requires windows != [] && SeparatingPartition(windows) == Some(d)
    ensures var ordered := OrderedBy(windows, d.axis);
            && 1 <= k < |ordered| && d == CutAt(ordered, k, d.axis)
            && FurthestEnd(ordered, k, d.axis) <= Start(ordered[k].frame, d.axis)
    ensures |d.first| + |d.second| == |windows| && d.first != [] && d.second != []
    ensures multiset(d.first) + multiset(d.second) == multiset(windows)
  {
    hide CutsFrom, SortWindows;
    var axis := if d in CutsFrom(OrderedBy(windows, Vertical), 1, Vertical) then Vertical else Horizontal;
    k := CutsAreCuts(OrderedBy(windows, axis), 1, axis, d);
    var ordered := OrderedBy(windows, axis);
    assert ordered == ordered[..k] + ordered[k..];
  }

  function Divide(windows: seq<FramedWindow>): Division
    requires |windows| >= 2
  {
    var cut := SeparatingPartition(windows);
    if cut.Some? then cut.value else OverlappingPartition(windows)
  }

  lemma DivideSplits(windows: seq<FramedWindow>)
    requires |windows| >= 2
    ensures var d := Divide(windows);
            && |d.first| + |d.second| == |windows| && d.first != [] && d.second != []
            && multiset(d.first) + multiset(d.second) == multiset(windows)
  {
    hide SeparatingPartition;
    if SeparatingPartition(windows).Some? {
      var k := SeparatingPartitionSplits(windows, SeparatingPartition(windows).value);
    }
  }

  function BoundsOf(windows: seq<FramedWindow>): Frame
    requires windows != []
  {
    if |windows| == 1 then windows[0].frame else Union(windows[0].frame, BoundsOf(windows[1..]))
  }

  /** Length the first half should get out of the usable length. A cut taken from windows lying
      wholly outside the content is carried over in proportion. */
  function FirstSize(border: Option<real>, source: Frame, target: Frame, axis: Axis, usable: nat, gap: int): real {
    if border.None? then usable as real / 2.0 else
      var outside := Start(source, axis) >= End(target, axis) || End(source, axis) <= Start(target, axis);
      var placed :=
        if outside && Length(source, axis) != 0 then
          Start(target, axis) as real
          + (border.value - Start(source, axis) as real) / Length(source, axis) as real * Length(target, axis) as real
        else border.value;
      MaxReal(1.0, MinReal(usable as real - 1.0, placed - Start(target, axis) as real - gap as real / 2.0))
  }

  function Usable(target: Frame, axis: Axis, gap: int): nat { Max(0, Length(target, axis) - gap) }

  function InferredRatio(d: Division, source: Frame, target: Frame, gap: int): real {
    var usable := Usable(target, d.axis, gap);
    if usable > 2 then RatioForLength(FirstSize(d.border, source, target, d.axis, usable, gap), usable) else 0.5
  }

  function Realized(usable: nat, ratio: real): int { (usable as real * ratio).Floor }

  function FirstContent(target: Frame, axis: Axis, realized: int): Frame { Shrink(target, axis, realized) }

  function SecondContent(target: Frame, axis: Axis, realized: int, gap: int): Frame {
    Offset(Shrink(target, axis, Max(0, Length(target, axis) - realized - gap)), axis, realized + gap)
  }

  function InferTree(windows: seq<FramedWindow>, content: Option<Frame>, gap: int): Node
    requires windows != []
    decreases |windows|
  {
    if |windows| == 1 then Leaf(windows[0].id) else
      DivideSplits(windows);
      var d := Divide(windows);
      var source := BoundsOf(windows);
      var target := if content.Some? then content.value else source;
      var ratio := InferredRatio(d, source, target, gap);
      var realized := Realized(Usable(target, d.axis, gap), ratio);
      Split(d.axis, ratio,
            InferTree(d.first, Some(FirstContent(target, d.axis, realized)), gap),
            InferTree(d.second, Some(SecondContent(target, d.axis, realized, gap)), gap))
  }

  function InferInitialTree(windows: seq<FramedWindow>, content: Option<Frame>, gap: int): Option<Node> {
    if windows == [] then None else Some(InferTree(windows, content, gap))
  }

  function Ids(windows: seq<FramedWindow>): multiset<WindowId> {
    if windows == [] then multiset{} else multiset{windows[0].id} + Ids(windows[1..])
  }

  lemma IdsStep(windows: seq<FramedWindow>)
    ensures Ids(windows) == if windows == [] then multiset{} else multiset{windows[0].id} + Ids(windows[1..])
  {
  }

  lemma {:induction false} IdsOfConcat(a: seq<FramedWindow>, b: seq<FramedWindow>)
    ensures Ids(a + b) == Ids(a) + Ids(b)
  {
    hide Ids;
    IdsStep(a);
    if a == [] {
      assert a + b == b;
    } else {
      IdsStep(a + b);
      IdsOfConcat(a[1..], b);
      assert (a + b)[1..] == a[1..] + b;
      BagsAssociate(multiset{a[0].id}, Ids(a[1..]), Ids(b));
    }
  }

  lemma BagsAssociate(a: multiset<WindowId>, b: multiset<WindowId>, c: multiset<WindowId>)
    ensures (a + b) + c == a + (b + c)
  {
  }

  lemma {:induction false} IdsOfPermutation(a: seq<FramedWindow>, b: seq<FramedWindow>)
    requires multiset(a) == multiset(b)
    ensures Ids(a) == Ids(b)
  {
    if a == [] {
      assert |multiset(b)| == |b|;
    } else {
      assert a[0] in multiset(a);
      var i :| 0 <= i < |b| && b[i] == a[0];
      var rest := b[..i] + b[i + 1..];
      assert b == b[..i] + ([b[i]] + b[i + 1..]);
      assert a == [a[0]] + a[1..];
      WithoutFirst(a, b, i);
      IdsOfPermutation(a[1..], rest);
      IdsOfConcat(b[..i], [b[i]] + b[i + 1..]);
      IdsOfConcat(b[..i], b[i + 1..]);
      assert ([b[i]] + b[i + 1..])[1..] == b[i + 1..];
      Rearranged(Ids(b[..i]), multiset{b[i].id}, Ids(b[i + 1..]));
    }
  }

  lemma WithoutFirst(a: seq<FramedWindow>, b: seq<FramedWindow>, i: nat)
    requires a != [] && i < |b| && b[i] == a[0] && multiset(a) == multiset(b)
    ensures multiset(a[1..]) == multiset(b[..i] + b[i + 1..])
  {
    assert a == [a[0]] + a[1..];
    assert b == b[..i] + [b[i]] + b[i + 1..];
    assert multiset(a) == multiset{a[0]} + multiset(a[1..]);
    assert multiset(b) == multiset(b[..i]) + multiset{a[0]} + multiset(b[i + 1..]);
    forall w ensures multiset(a[1..])[w] == multiset(b[..i] + b[i + 1..])[w] {
      assert multiset(a)[w] == multiset(b)[w];
    }
  }

  lemma Rearranged(a: multiset<WindowId>, b: multiset<WindowId>, c: multiset<WindowId>)
    ensures a + (b + c) == b + (a + c)
  {
  }

  /** The first half's length in an inferred tree's own rectangle. */
  function RealizedFirst(windows: seq<FramedWindow>, target: Frame, gap: int): int
    requires |windows| >= 2
  {
    var d := Divide(windows);
    Realized(Usable(target, d.axis, gap), InferredRatio(d, BoundsOf(windows), target, gap))
  }

  lemma InferredSplit(windows: seq<FramedWindow>, content: Option<Frame>, gap: int)
    requires |windows| >= 2
    ensures var d := Divide(windows);
            && d.first != [] && d.second != [] && |d.first| < |windows| && |d.second| < |windows|
            && var target := if content.Some? then content.value else BoundsOf(windows);
               var realized := RealizedFirst(windows, target, gap);
               InferTree(windows, content, gap)
               == Split(d.axis, InferredRatio(d, BoundsOf(windows), target, gap),
                        InferTree(d.first, Some(FirstContent(target, d.axis, realized)), gap),
                        InferTree(d.second, Some(SecondContent(target, d.axis, realized, gap)), gap))
  {
    hide Divide, InferredRatio, BoundsOf, Realized;
    DivideSplits(windows);
  }

  /** Whatever the rectangles, every window is in the inferred tree exactly as often as it was given. */
  lemma {:induction false} InferenceKeepsWindows(windows: seq<FramedWindow>, content: Option<Frame>, gap: int)
    requires windows != []
    ensures Bag(InferTree(windows, content, gap)) == Ids(windows)
    decreases |windows|
  {
    if |windows| == 1 {
      IdsStep(windows);
      IdsStep(windows[1..]);
    } else {
      hide InferTree, Ids, Divide, InferredRatio, BoundsOf, RealizedFirst;
      InferredSplit(windows, content, gap);
      DivideSplits(windows);
      var d := Divide(windows);
      var target := if content.Some? then content.value else BoundsOf(windows);
      var realized := RealizedFirst(windows, target, gap);
      InferenceKeepsWindows(d.first, Some(FirstContent(target, d.axis, realized)), gap);
      InferenceKeepsWindows(d.second, Some(SecondContent(target, d.axis, realized, gap)), gap);
      IdsOfConcat(d.first, d.second);
      assert multiset(d.first + d.second) == multiset(windows);
      IdsOfPermutation(windows, d.first + d.second);
    }
  }

  // ---------------------------------------------------------------- the scanning loop

  /** One axis of the cut search, pushing the furthest end along. */
  method ScanCuts(ordered: seq<FramedWindow>, axis: Axis, candidates: seq<Division>) returns (r: seq<Division>)
    requires ordered != []
    ensures r == candidates + CutsFrom(ordered, 1, axis)
  {
    r := candidates;
    var end := End(ordered[0].frame, axis);
    for i := 1 to |ordered|
      invariant end == FurthestEnd(ordered, i, axis)
      invariant r + CutsFrom(ordered, i, axis) == candidates + CutsFrom(ordered, 1, axis)
    {
      ghost var before := r;
      var next := ordered[i].frame;
      if end <= Start(next, axis) {
        r := r + [Division(axis, ordered[..i], ordered[i..], Some(Midway(end, Start(next, axis))))];
        assert r + CutsFrom(ordered, i + 1, axis) == before + ([CutAt(ordered, i, axis)] + CutsFrom(ordered, i + 1, axis));
      }
      end := Max(end, End(next, axis));
    }
    assert r + [] == r;
  }

  method FindSeparatingPartition(windows: seq<FramedWindow>) returns (r: Option<Division>)
    requires windows != []
    ensures r == SeparatingPartition(windows)
  {
    var candidates := ScanCuts(OrderedBy(windows, Vertical), Vertical, []);
    assert candidates == CutsFrom(OrderedBy(windows, Vertical), 1, Vertical);
    candidates := ScanCuts(OrderedBy(windows, Horizontal), Horizontal, candidates);
    r := MostBalanced(candidates);
  }
}
