/** Length bounds along one axis and the two-pane length solve. */
module Partition {
  import opened Geometry

  datatype AxisBounds = AxisBounds(min: Option<int>, max: Option<int>)

  const FREE := AxisBounds(None, None)

  predicate Within(value: int, bounds: AxisBounds) {
    && (bounds.min.None? || value >= bounds.min.value)
    && (bounds.max.None? || value <= bounds.max.value)
  }

  /** Some length satisfies both bounds. */
  predicate Ordered(bounds: AxisBounds) {
    bounds.min.None? || bounds.max.None? || bounds.min.value <= bounds.max.value
  }

  /** The maximum wins over a contradictory minimum. */
  function Clamp(value: int, bounds: AxisBounds): (v: int)
    ensures Within(value, bounds) ==> v == value
    ensures Ordered(bounds) ==> Within(v, bounds)
  {
    var raised := if bounds.min.Some? && value < bounds.min.value then bounds.min.value else value;
    if bounds.max.Some? && raised > bounds.max.value then bounds.max.value else raised
  }

  predicate IsValidRatio(ratio: real) {
    0.0 < ratio < 1.0
  }

  /** Where the divider would go if no pane had bounds; an invalid ratio counts as one half. */
  function Preferred(space: int, ratio: real): int {
    (space as real * (if IsValidRatio(ratio) then ratio else 0.5)).Floor
  }

  datatype Lengths = Lengths(first: int, second: int, feasible: bool)

  /** What the clamping loop leaves in `first` after at most `rounds` rounds. */
  function Settle(first: int, space: int, a: AxisBounds, b: AxisBounds, rounds: nat): int
    decreases rounds, space
  {
    if rounds == 0 then first else
      var f := Clamp(first, a);
      var clampedSecond := Clamp(space - f, b);
      if clampedSecond == space - f then f else Settle(space - clampedSecond, space, a, b, rounds - 1)
  }

  const ROUNDS: nat := 4

  /** The first pane's length once the loop is done. */
  function Balance(preferred: int, space: int, a: AxisBounds, b: AxisBounds): int {
    Clamp(Settle(preferred, space, a, b, ROUNDS), a)
  }

  function PartitionLengths(available: int, gap: int, ratio: real, a: AxisBounds, b: AxisBounds): Lengths {
    var space := available - gap;
    if space <= 0 then Lengths(0, 0, false) else
      var first := Balance(Preferred(space, ratio), space, a, b);
      var second := space - first;
      Lengths(first, second, first > 0 && second > 0 && Within(first, a) && Within(second, b))
  }

  /** The clamping loop: deficits and surplus flow to the peer until nothing moves. */
  method BalanceLoop(preferred: int, space: int, a: AxisBounds, b: AxisBounds)
    returns (first: int)
    ensures first == Balance(preferred, space, a, b)
  {
    first := preferred;
    for i := 0 to ROUNDS
      invariant Settle(first, space, a, b, ROUNDS - i) == Settle(preferred, space, a, b, ROUNDS)
    {
      first := Clamp(first, a);
      var second := space - first;
      var clampedSecond := Clamp(second, b);
      if clampedSecond == second {
        return Clamp(first, a);
      }
      first := space - clampedSecond;
    }
    first := Clamp(first, a);
  }

  method SolvePartition(available: int, gap: int, ratio: real, a: AxisBounds, b: AxisBounds)
    returns (r: Lengths)
    ensures r == PartitionLengths(available, gap, ratio, a, b)
  {
    var space := available - gap;
    if space <= 0 {
      return Lengths(0, 0, false);
    }
    var first := BalanceLoop(Preferred(space, ratio), space, a, b);
    var second := space - first;
    r := Lengths(first, second, first > 0 && second > 0 && Within(first, a) && Within(second, b));
  }

  /** The first-pane lengths that put both panes within their bounds. */
  function Meet(space: int, a: AxisBounds, b: AxisBounds): (m: AxisBounds)
    ensures forall f :: Within(f, m) <==> Within(f, a) && Within(space - f, b)
  {
    var fromB := AxisBounds(if b.max.Some? then Some(space - b.max.value) else None,
                            if b.min.Some? then Some(space - b.min.value) else None);
    AxisBounds(
      if a.min.None? then fromB.min else if fromB.min.None? then a.min
      else Some(Max(a.min.value, fromB.min.value)),
      if a.max.None? then fromB.max else if fromB.max.None? then a.max
      else Some(Min(a.max.value, fromB.max.value)))
  }

  lemma MeetOrdered(space: int, a: AxisBounds, b: AxisBounds, f: int)
    requires Within(f, a) && Within(space - f, b)
    ensures Ordered(Meet(space, a, b)) && Ordered(a) && Ordered(b)
  {
    assert Within(f, Meet(space, a, b));
  }

  /** From any starting point one round reaches the fixed point: later rounds change nothing,
      and it is the starting point pulled into the range both panes accept. */
  lemma SettlesInOneRound(first: int, space: int, a: AxisBounds, b: AxisBounds, rounds: nat)
    requires Ordered(Meet(space, a, b)) && rounds >= 1
    ensures Clamp(Settle(first, space, a, b, rounds), a) == Clamp(first, Meet(space, a, b))
    ensures Clamp(Settle(first, space, a, b, 1), a) == Clamp(first, Meet(space, a, b))
  {
    var m := Meet(space, a, b);
    var target := Clamp(first, m);
    assert Within(target, m);
    MeetOrdered(space, a, b, target);
    var f := Clamp(first, a);
    if Within(space - f, b) {
      assert f == target;
    } else {
      var next := space - Clamp(space - f, b);
      assert next == target;
      if rounds > 1 {
        assert Settle(next, space, a, b, rounds - 1) == next;
      }
    }
  }

  /** Two-pane solve, exactly. The panes fill the space. Both get lengths within bounds
      iff some split does, the divider then moving no further from its preferred place than any
      admissible split would; the result is feasible iff moreover neither pane is left empty. */
  lemma PartitionIsNearestAdmissible(available: int, gap: int, ratio: real, a: AxisBounds, b: AxisBounds)
    requires available - gap > 0
    ensures var space := available - gap;
            var r := PartitionLengths(available, gap, ratio, a, b);
            var m := Meet(space, a, b);
            && r.first + r.second == space
            && (Within(r.first, a) && Within(r.second, b) <==> Ordered(m))
            && (Ordered(m) ==> r.first == Clamp(Preferred(space, ratio), m))
            && (r.feasible <==> Ordered(m) && 0 < Clamp(Preferred(space, ratio), m) < space)
            && forall g :: Within(g, a) && Within(space - g, b) ==>
                 Abs(r.first - Preferred(space, ratio)) <= Abs(g - Preferred(space, ratio))
  {
    hide Preferred, Settle, Meet;
    var space := available - gap;
    var preferred := Preferred(space, ratio);
    BalanceIsNearest(preferred, space, a, b);
  }

  lemma BalanceIsNearest(preferred: int, space: int, a: AxisBounds, b: AxisBounds)
    ensures var first := Balance(preferred, space, a, b);
            var m := Meet(space, a, b);
            && (Within(first, a) && Within(space - first, b) <==> Ordered(m))
            && (Ordered(m) ==> first == Clamp(preferred, m))
            && forall g :: Within(g, a) && Within(space - g, b) ==>
                 Abs(first - preferred) <= Abs(g - preferred)
  {
    hide Settle;
    var m := Meet(space, a, b);
    var first := Balance(preferred, space, a, b);
    if Ordered(m) {
      SettlesInOneRound(preferred, space, a, b, ROUNDS);
      assert Within(first, m);
      forall g | Within(g, a) && Within(space - g, b)
        ensures Abs(first - preferred) <= Abs(g - preferred)
      {
        assert Within(g, m);
      }
    } else {
      forall g ensures !(Within(g, a) && Within(space - g, b)) {
        assert Within(g, m) ==> Ordered(m);
      }
    }
  }

  /** A preferred divider that suits both panes is where the divider goes. */
  lemma AdmissiblePreferenceIsKept(available: int, gap: int, ratio: real, a: AxisBounds, b: AxisBounds,
                                   first: int, second: int)
    requires first + gap + second == available && first > 0 && second > 0
    requires Preferred(available - gap, ratio) == first && Within(first, a) && Within(second, b)
    ensures PartitionLengths(available, gap, ratio, a, b) == Lengths(first, second, true)
  {
    MeetOrdered(available - gap, a, b, first);
    assert Within(first, Meet(available - gap, a, b));
    PartitionIsNearestAdmissible(available, gap, ratio, a, b);
  }

  /** Without bounds the divider sits where it is preferred. */
  lemma FreePartition(available: int, gap: int, ratio: real)
    requires available - gap > 0
    ensures PartitionLengths(available, gap, ratio, FREE, FREE).first == Preferred(available - gap, ratio)
  {
    PartitionIsNearestAdmissible(available, gap, ratio, FREE, FREE);
  }

  /** A split with positive panes may exist and still not be found: a thin ratio floors the
      first pane to nothing when no minimum pushes it back. */
  lemma ThinRatioStarvesAPane()
    ensures Within(5, FREE) && Within(10 - 5, FREE)
    ensures !PartitionLengths(10, 0, 0.05, FREE, FREE).feasible
  {
    FreePartition(10, 0, 0.05);
  }

  // ---------------------------------------------------------------- ratios from lengths

  /** Encode an observed length as a ratio. A zero space divides by zero in the program, giving a
      number no ratio test accepts; 0.0 stands for it. */
  function RatioForLength(first: real, space: int): real {
    if space == 0 then 0.0 else
      var ratio := first / space as real;
      if (space as real * ratio).Floor == first.Floor then ratio
      else (first.Floor as real + MinReal(1.0, space as real - first.Floor as real) / 2.0) / space as real
  }

  function MinReal(a: real, b: real): real { if a <= b then a else b }

  function MaxReal(a: real, b: real): real { if a >= b then a else b }

  lemma DivideThenMultiply(x: real, n: real)
    requires n != 0.0
    ensures n * (x / n) == x
  {
  }

  /** The encoding loses nothing: the solver floors it back to the length it came from. */
  lemma RatioForLengthIsExact(first: real, space: int)
    requires 0.0 < first < space as real
    ensures IsValidRatio(RatioForLength(first, space))
    ensures Preferred(space, RatioForLength(first, space)) == first.Floor
  {
    var n := space as real;
    DivideThenMultiply(first, n);
    QuotientBetween(first, n);
  }

  lemma QuotientBetween(x: real, n: real)
    requires 0.0 < x < n
    ensures 0.0 < x / n < 1.0
  {
    if x / n <= 0.0 {
      ProductBelow(n, x / n, 0.0);
      assert false;
    }
    if x / n >= 1.0 {
      ProductBelow(n, 1.0, x / n);
      assert false;
    }
  }

  lemma ProductBelow(n: real, p: real, q: real)
    requires n > 0.0 && p <= q
    ensures n * p <= n * q
  {
  }
}
