/** What a run demands of the layout around it does not turn on the order of its panes, as far as it matters. */
module RunBounds {
  import opened Geometry
  import opened BspTree
  import opened Partition
  import opened Planner
  import opened Subtrees
  import opened Insertion
  import opened GeometricMove
  import opened SwapTheorems

  // ---------------------------------------------------------------- bounds that come to the same

  /** The minimum does not bind at this length. */
  predicate Slack(bounds: AxisBounds, length: int) {
    bounds.min.None? || bounds.min.value < length
  }

  /** The same maximum, and the same minimum unless neither binds at this length. */
  predicate AsGood(a: AxisBounds, b: AxisBounds, length: int) {
    a.max == b.max && (a.min == b.min || (Slack(a, length) && Slack(b, length)))
  }

  /** Either tree makes the same demands on a rectangle of this size. */
  predicate Interchangeable(a: Node, b: Node, rect: Frame, gap: int, resolve: Resolver) {
    && AsGood(AggregateBounds(a, Vertical, gap, resolve), AggregateBounds(b, Vertical, gap, resolve), rect.width)
    && AsGood(AggregateBounds(a, Horizontal, gap, resolve), AggregateBounds(b, Horizontal, gap, resolve), rect.height)
  }

  lemma InterchangeableAlong(a: Node, b: Node, rect: Frame, gap: int, resolve: Resolver, axis: Axis)
    requires Interchangeable(a, b, rect, gap, resolve)
    ensures AsGood(AggregateBounds(a, axis, gap, resolve), AggregateBounds(b, axis, gap, resolve), Length(rect, axis))
  {
  }

  /** The divider stays where it is when demands on either side change only where they do not bind. */
  lemma SlackPartition(available: int, gap: int, ratio: real, a: AxisBounds, b: AxisBounds, c: AxisBounds, d: AxisBounds)
    requires var r := PartitionLengths(available, gap, ratio, a, b);
             r.feasible && AsGood(a, c, r.first) && AsGood(b, d, r.second)
    ensures PartitionLengths(available, gap, ratio, c, d) == PartitionLengths(available, gap, ratio, a, b)
  {
    hide Preferred, Balance;
    var space := available - gap;
    var r := PartitionLengths(available, gap, ratio, a, b);
    PartitionIsNearestAdmissible(available, gap, ratio, a, b);
    PartitionIsNearestAdmissible(available, gap, ratio, c, d);
    assert Within(r.first, Meet(space, c, d));
    hide PartitionLengths;
    SameClamp(Preferred(space, ratio), space, r.first, a, b, c, d);
  }

  lemma SameClamp(preferred: int, space: int, first: int, a: AxisBounds, b: AxisBounds, c: AxisBounds, d: AxisBounds)
    requires Within(first, a) && Within(space - first, b) && first == Clamp(preferred, Meet(space, a, b))
    requires AsGood(a, c, first) && AsGood(b, d, space - first)
    ensures Ordered(Meet(space, c, d)) && Clamp(preferred, Meet(space, c, d)) == first
  {
    MeetOrdered(space, c, d, first);
  }

  lemma HalvesComeToTheSame(a: Node, b: Node, axis: Axis, first: int, second: int, length: int, gap: int, resolve: Resolver)
    requires gap >= 0 && a.Split? && b.Split? && a.axis == b.axis && first > 0 && second > 0
    requires if a.axis == axis then first + gap + second == length else first == length == second
    requires Within(first, AggregateBounds(a.first, axis, gap, resolve))
    requires Within(second, AggregateBounds(a.second, axis, gap, resolve))
    requires AsGood(AggregateBounds(a.first, axis, gap, resolve), AggregateBounds(b.first, axis, gap, resolve), first)
    requires AsGood(AggregateBounds(a.second, axis, gap, resolve), AggregateBounds(b.second, axis, gap, resolve), second)
    ensures AsGood(AggregateBounds(a, axis, gap, resolve), AggregateBounds(b, axis, gap, resolve), length)
  {
    var p, q := AggregateBounds(a.first, axis, gap, resolve), AggregateBounds(a.second, axis, gap, resolve);
    var u, v := AggregateBounds(b.first, axis, gap, resolve), AggregateBounds(b.second, axis, gap, resolve);
    BoundsOfSplit(a, axis, gap, resolve);
    BoundsOfSplit(b, axis, gap, resolve);
    hide AggregateBounds;
    assert Within(first, u) && Within(second, v);
  }

  /** What a divider makes of the demands of its two sides. */
  function Combined(a: AxisBounds, b: AxisBounds, along: bool, gap: int): AxisBounds {
    var bothMax := a.max.Some? && b.max.Some?;
    if along then
      AxisBounds(if a.min.None? && b.min.None? then None else Some(Least(a) + gap + Least(b)),
                 if bothMax then Some(a.max.value + gap + b.max.value) else None)
    else
      AxisBounds(if a.min.None? then b.min else if b.min.None? then a.min else Some(Max(a.min.value, b.min.value)),
                 if bothMax then Some(Min(a.max.value, b.max.value)) else None)
  }

  function Least(b: AxisBounds): int { if b.min.Some? then b.min.value else 0 }

  function Most(b: AxisBounds): int { if b.max.Some? then b.max.value else 0 }

  lemma BoundsOfSplit(node: Node, axis: Axis, gap: int, resolve: Resolver)
    requires node.Split?
    ensures AggregateBounds(node, axis, gap, resolve)
            == Combined(AggregateBounds(node.first, axis, gap, resolve), AggregateBounds(node.second, axis, gap, resolve),
                        node.axis == axis, gap)
  {
  }

  // ---------------------------------------------------------------- the demands of a run's panes

  function Demands(panes: seq<Node>, axis: Axis, gap: int, resolve: Resolver): (r: seq<AxisBounds>)
    ensures |r| == |panes| && forall i :: 0 <= i < |panes| ==> r[i] == AggregateBounds(panes[i], axis, gap, resolve)
  {
    if panes == [] then [] else [AggregateBounds(panes[0], axis, gap, resolve)] + Demands(panes[1..], axis, gap, resolve)
  }

  lemma DemandsOfConcat(a: seq<Node>, b: seq<Node>, axis: Axis, gap: int, resolve: Resolver)
    ensures Demands(a + b, axis, gap, resolve) == Demands(a, axis, gap, resolve) + Demands(b, axis, gap, resolve)
  {
    hide AggregateBounds;
  }

  /** Across the run: the largest minimum there is, and the smallest maximum if every pane has one. */
  ghost predicate IsAcross(s: seq<AxisBounds>, r: AxisBounds) {
    && (r.min.Some? ==> exists i :: 0 <= i < |s| && s[i].min == r.min)
    && (forall i :: 0 <= i < |s| && s[i].min.Some? ==> r.min.Some? && s[i].min.value <= r.min.value)
    && (r.max.Some? ==> exists i :: 0 <= i < |s| && s[i].max == r.max)
    && (r.max.Some? ==> forall i :: 0 <= i < |s| ==> s[i].max.Some? && r.max.value <= s[i].max.value)
    && (r.max.None? ==> exists i :: 0 <= i < |s| && s[i].max.None?)
  }

  lemma AcrossJoins(s: seq<AxisBounds>, t: seq<AxisBounds>, a: AxisBounds, b: AxisBounds)
    requires IsAcross(s, a) && IsAcross(t, b)
    ensures IsAcross(s + t, Combined(a, b, false, 0))
  {
    var all, r := s + t, Combined(a, b, false, 0);
    assert forall i :: 0 <= i < |s| ==> all[i] == s[i];
    assert forall i :: 0 <= i < |t| ==> all[|s| + i] == t[i];
    if r.min.Some? {
      if r.min == a.min {
        var i :| 0 <= i < |s| && s[i].min == a.min;
        assert all[i].min == r.min;
      } else {
        var i :| 0 <= i < |t| && t[i].min == b.min;
        assert all[|s| + i].min == r.min;
      }
    }
    if r.max.Some? {
      if r.max == a.max {
        var i :| 0 <= i < |s| && s[i].max == a.max;
        assert all[i].max == r.max;
      } else {
        var i :| 0 <= i < |t| && t[i].max == b.max;
        assert all[|s| + i].max == r.max;
      }
    } else if a.max.None? {
      var i :| 0 <= i < |s| && s[i].max.None?;
      assert all[i].max.None?;
    } else {
      var i :| 0 <= i < |t| && t[i].max.None?;
      assert all[|s| + i].max.None?;
    }
  }

  lemma {:induction false} RunAcross(run: Node, axis: Axis, gap: int, resolve: Resolver)
    ensures IsAcross(Demands(Flatten(run, axis), Other(axis), gap, resolve), AggregateBounds(run, Other(axis), gap, resolve))
  {
    hide IsAcross, AggregateBounds, Combined;
    if run.Split? && run.axis == axis {
      RunAcross(run.first, axis, gap, resolve);
      RunAcross(run.second, axis, gap, resolve);
      BoundsOfSplit(run, Other(axis), gap, resolve);
      DemandsOfConcat(Flatten(run.first, axis), Flatten(run.second, axis), Other(axis), gap, resolve);
      AcrossJoins(Demands(Flatten(run.first, axis), Other(axis), gap, resolve),
                  Demands(Flatten(run.second, axis), Other(axis), gap, resolve),
                  AggregateBounds(run.first, Other(axis), gap, resolve),
                  AggregateBounds(run.second, Other(axis), gap, resolve));
      GapIsAlong(AggregateBounds(run.first, Other(axis), gap, resolve),
                 AggregateBounds(run.second, Other(axis), gap, resolve), gap);
    } else {
      OneAcross(AggregateBounds(run, Other(axis), gap, resolve));
      assert Demands([run], Other(axis), gap, resolve) == [AggregateBounds(run, Other(axis), gap, resolve)];
    }
  }

  lemma GapIsAlong(a: AxisBounds, b: AxisBounds, gap: int)
    ensures Combined(a, b, false, gap) == Combined(a, b, false, 0)
  {
  }

  lemma OneAcross(b: AxisBounds)
    ensures IsAcross([b], b)
  {
    assert [b][0] == b;
  }

  /** The same demands, in whatever order, come to the same across the run. */
  lemma AcrossBySet(s: seq<AxisBounds>, t: seq<AxisBounds>, a: AxisBounds, b: AxisBounds)
    requires IsAcross(s, a) && IsAcross(t, b)
    requires forall x :: x in s <==> x in t
    ensures a == b
  {
    assert forall i :: 0 <= i < |s| ==> s[i] in t;
    assert forall i :: 0 <= i < |t| ==> t[i] in s;
  }

  /** The demands as sizes: minimums, or maximums, that are not there count nothing. */
  function Sizes(panes: seq<Node>, s: seq<AxisBounds>, least: bool): (r: seq<SizedPane>)
    requires |panes| == |s|
    ensures |r| == |s|
    ensures forall i :: 0 <= i < |s| ==> r[i] == SizedPane(panes[i], if least then Least(s[i]) else Most(s[i]))
  {
    seq(|s|, i requires 0 <= i < |s| => SizedPane(panes[i], if least then Least(s[i]) else Most(s[i])))
  }

  ghost predicate HasMin(s: seq<AxisBounds>) {
    forall i :: 0 <= i < |s| ==> s[i].min.Some?
  }

  ghost predicate HasMax(s: seq<AxisBounds>) {
    forall i :: 0 <= i < |s| ==> s[i].max.Some?
  }

  /** Along the run: the total of minimums if every pane has one, and at most that total otherwise; the total of
      maximums if every pane has one, and none otherwise. */
  ghost predicate IsAlong(panes: seq<Node>, s: seq<AxisBounds>, gap: int, r: AxisBounds) {
    && |panes| == |s| && s != []
    && Least(r) <= Total(Sizes(panes, s, true), gap)
    && (HasMin(s) ==> r.min == Some(Total(Sizes(panes, s, true), gap)))
    && r.max == (if HasMax(s) then Some(Total(Sizes(panes, s, false), gap)) else None)
  }

  lemma TotalsJoin(p: seq<Node>, s: seq<AxisBounds>, q: seq<Node>, t: seq<AxisBounds>, least: bool, gap: int)
    requires |p| == |s| && |q| == |t| && s != [] && t != []
    ensures Total(Sizes(p + q, s + t, least), gap) == Total(Sizes(p, s, least), gap) + gap + Total(Sizes(q, t, least), gap)
  {
    assert Sizes(p + q, s + t, least) == Sizes(p, s, least) + Sizes(q, t, least);
    TotalOfConcat(Sizes(p, s, least), Sizes(q, t, least), gap);
  }

  lemma EveryOfBoth(s: seq<AxisBounds>, t: seq<AxisBounds>)
    ensures HasMin(s + t) <==> HasMin(s) && HasMin(t)
    ensures HasMax(s + t) <==> HasMax(s) && HasMax(t)
  {
    var all := s + t;
    assert forall i :: 0 <= i < |s| ==> all[i] == s[i];
    assert forall i :: 0 <= i < |t| ==> all[|s| + i] == t[i];
  }

  lemma AlongJoins(p: seq<Node>, s: seq<AxisBounds>, q: seq<Node>, t: seq<AxisBounds>, a: AxisBounds, b: AxisBounds, gap: int)
    requires gap >= 0 && IsAlong(p, s, gap, a) && IsAlong(q, t, gap, b)
    ensures IsAlong(p + q, s + t, gap, Combined(a, b, true, gap))
  {
    hide HasMin, HasMax, Total;
    TotalsJoin(p, s, q, t, true, gap);
    TotalsJoin(p, s, q, t, false, gap);
    EveryOfBoth(s, t);
  }

  lemma OneAlong(pane: Node, b: AxisBounds, gap: int)
    ensures IsAlong([pane], [b], gap, b)
  {
    assert [b][0] == b;
  }

  lemma {:induction false} RunAlong(run: Node, axis: Axis, gap: int, resolve: Resolver)
    requires gap >= 0
    ensures IsAlong(Flatten(run, axis), Demands(Flatten(run, axis), axis, gap, resolve), gap,
                    AggregateBounds(run, axis, gap, resolve))
  {
    hide IsAlong, AggregateBounds, Combined;
    if run.Split? && run.axis == axis {
      RunAlong(run.first, axis, gap, resolve);
      RunAlong(run.second, axis, gap, resolve);
      BoundsOfSplit(run, axis, gap, resolve);
      var p, q := Flatten(run.first, axis), Flatten(run.second, axis);
      DemandsOfConcat(p, q, axis, gap, resolve);
      AlongJoins(p, Demands(p, axis, gap, resolve), q, Demands(q, axis, gap, resolve),
                 AggregateBounds(run.first, axis, gap, resolve), AggregateBounds(run.second, axis, gap, resolve), gap);
    } else {
      OneAlong(run, AggregateBounds(run, axis, gap, resolve), gap);
      assert Demands([run], axis, gap, resolve) == [AggregateBounds(run, axis, gap, resolve)];
    }
  }

  // ---------------------------------------------------------------- a planned run and its demands

  lemma {:induction false} LargerTotal(a: seq<SizedPane>, b: seq<SizedPane>, gap: int, k: nat)
    requires |a| == |b| && k < |a| && a[k].size < b[k].size
    requires forall i :: 0 <= i < |a| ==> a[i].size <= b[i].size
    ensures Total(a, gap) < Total(b, gap)
  {
    if |a| > 1 {
      if k > 0 {
        LargerTotal(a[1..], b[1..], gap, k - 1);
      } else {
        NoSmallerTotal(a[1..], b[1..], gap);
      }
    }
  }

  lemma {:induction false} NoSmallerTotal(a: seq<SizedPane>, b: seq<SizedPane>, gap: int)
    requires |a| == |b| && a != [] && forall i :: 0 <= i < |a| ==> a[i].size <= b[i].size
    ensures Total(a, gap) <= Total(b, gap)
  {
    if |a| > 1 {
      NoSmallerTotal(a[1..], b[1..], gap);
    }
  }

  /** When a planned run has a pane without a minimum, its own minimum does not bind. */
  lemma MixedIsSlack(run: Node, rect: Frame, axis: Axis, gap: int, resolve: Resolver)
    requires gap >= 0 && Distinct(run) && Positive(rect) && Solve(run, rect, gap, resolve).Some?
    requires !HasMin(Demands(Flatten(run, axis), axis, gap, resolve))
    ensures Slack(AggregateBounds(run, axis, gap, resolve), Length(rect, axis))
  {
    hide Solve, Flatten, AggregateBounds, RunPlan, Total, Distinct, Hull;
    var frames := Solve(run, rect, gap, resolve).value;
    var panes := Flatten(run, axis);
    var s := Demands(panes, axis, gap, resolve);
    SolvedTreeIsRun(run, rect, axis, gap, resolve, frames);
    var measured := Measure(panes, frames, axis);
    RunSolvable(measured, rect, axis, gap, resolve);
    RunAlong(run, axis, gap, resolve);
    var least := Sizes(panes, s, true);
    forall i | 0 <= i < |panes| ensures Within(measured[i].size, s[i]) && measured[i].size > 0 {
      BoundsPropagate(panes[i], Shrink(rect, axis, measured[i].size), gap, resolve, axis);
    }
    var k :| 0 <= k < |s| && s[k].min.None?;
    LargerTotal(least, measured, gap, k);
  }

  /** The demands of two trees with the same panes, `i` and `j` exchanged, in one rectangle both can be planned in. */
  lemma ExchangedRunIsInterchangeable(a: Node, b: Node, rect: Frame, axis: Axis, gap: int, resolve: Resolver, i: nat, j: nat)
    requires gap >= 0 && Distinct(a) && Distinct(b) && Positive(rect)
    requires Solve(a, rect, gap, resolve).Some? && Solve(b, rect, gap, resolve).Some?
    requires i < |Flatten(a, axis)| && j < |Flatten(a, axis)|
    requires Flatten(b, axis) == Flatten(a, axis)[i := Flatten(a, axis)[j]][j := Flatten(a, axis)[i]]
    ensures Interchangeable(a, b, rect, gap, resolve)
  {
    hide Solve, Flatten, AggregateBounds, Distinct, IsAcross, AsGood;
    SameAcross(a, b, axis, gap, resolve, i, j);
    SameAlong(a, b, rect, axis, gap, resolve, i, j);
    EqualIsAsGood(AggregateBounds(a, Other(axis), gap, resolve), Length(rect, Other(axis)));
  }

  lemma EqualIsAsGood(a: AxisBounds, length: int)
    ensures AsGood(a, a, length)
  {
  }

  lemma DemandsExchange(panes: seq<Node>, axis: Axis, gap: int, resolve: Resolver, i: nat, j: nat)
    requires i < |panes| && j < |panes|
    ensures var s := Demands(panes, axis, gap, resolve);
            Demands(panes[i := panes[j]][j := panes[i]], axis, gap, resolve) == s[i := s[j]][j := s[i]]
  {
    hide AggregateBounds;
  }

  lemma SameAcross(a: Node, b: Node, axis: Axis, gap: int, resolve: Resolver, i: nat, j: nat)
    requires i < |Flatten(a, axis)| && j < |Flatten(a, axis)|
    requires Flatten(b, axis) == Flatten(a, axis)[i := Flatten(a, axis)[j]][j := Flatten(a, axis)[i]]
    ensures AggregateBounds(a, Other(axis), gap, resolve) == AggregateBounds(b, Other(axis), gap, resolve)
  {
    hide Flatten, AggregateBounds, IsAcross, Demands;
    var s := Demands(Flatten(a, axis), Other(axis), gap, resolve);
    var t := Demands(Flatten(b, axis), Other(axis), gap, resolve);
    RunAcross(a, axis, gap, resolve);
    RunAcross(b, axis, gap, resolve);
    DemandsExchange(Flatten(a, axis), Other(axis), gap, resolve, i, j);
    ExchangeKeepsSet(s, i, j);
    AcrossBySet(s, t, AggregateBounds(a, Other(axis), gap, resolve), AggregateBounds(b, Other(axis), gap, resolve));
  }

  lemma ExchangeKeepsSet<T>(s: seq<T>, i: nat, j: nat)
    requires i < |s| && j < |s|
    ensures forall x :: x in s <==> x in s[i := s[j]][j := s[i]]
  {
    var t := s[i := s[j]][j := s[i]];
    forall k | 0 <= k < |s| ensures s[k] in t {
      assert t[if k == i then j else if k == j then i else k] == s[k];
    }
  }

  lemma SameAlong(a: Node, b: Node, rect: Frame, axis: Axis, gap: int, resolve: Resolver, i: nat, j: nat)
    requires gap >= 0 && Distinct(a) && Distinct(b) && Positive(rect)
    requires Solve(a, rect, gap, resolve).Some? && Solve(b, rect, gap, resolve).Some?
    requires i < |Flatten(a, axis)| && j < |Flatten(a, axis)|
    requires Flatten(b, axis) == Flatten(a, axis)[i := Flatten(a, axis)[j]][j := Flatten(a, axis)[i]]
    ensures AsGood(AggregateBounds(a, axis, gap, resolve), AggregateBounds(b, axis, gap, resolve), Length(rect, axis))
  {
    hide Solve, Flatten, AggregateBounds, Distinct, Total, HasMin, HasMax, Slack;
    var p, q := Flatten(a, axis), Flatten(b, axis);
    var s, t := Demands(p, axis, gap, resolve), Demands(q, axis, gap, resolve);
    RunAlong(a, axis, gap, resolve);
    RunAlong(b, axis, gap, resolve);
    DemandsExchange(p, axis, gap, resolve, i, j);
    EveryAfterExchange(s, i, j);
    SizesExchange(p, s, true, i, j);
    SizesExchange(p, s, false, i, j);
    SwapKeepsTotal(Sizes(p, s, true), i, j, gap);
    SwapKeepsTotal(Sizes(p, s, false), i, j, gap);
    if !HasMin(s) {
      MixedIsSlack(a, rect, axis, gap, resolve);
      MixedIsSlack(b, rect, axis, gap, resolve);
    }
  }

  lemma EveryAfterExchange(s: seq<AxisBounds>, i: nat, j: nat)
    requires i < |s| && j < |s|
    ensures var t := s[i := s[j]][j := s[i]];
            (HasMin(s) <==> HasMin(t)) && (HasMax(s) <==> HasMax(t))
  {
    var t := s[i := s[j]][j := s[i]];
    assert forall k :: 0 <= k < |s| ==> s[k] == t[if k == i then j else if k == j then i else k];
  }

  lemma SizesExchange(panes: seq<Node>, s: seq<AxisBounds>, least: bool, i: nat, j: nat)
    requires |panes| == |s| && i < |s| && j < |s|
    ensures Sizes(panes[i := panes[j]][j := panes[i]], s[i := s[j]][j := s[i]], least) == SwapPanes(Sizes(panes, s, least), i, j)
  {
  }
}
