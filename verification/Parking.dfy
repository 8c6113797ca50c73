/** Parking at a display's corner: where a window goes, and the search for the least it must leave visible. */
module Parking {
  import opened Geometry

  // ---------------------------------------------------------------- corners

  datatype Corner = BottomLeft | BottomRight | TopLeft | TopRight

  predicate IsLeft(c: Corner) { c == BottomLeft || c == TopLeft }

  predicate IsBottom(c: Corner) { c == BottomLeft || c == BottomRight }

  /** The frame that leaves so much visible at a corner of the display. */
  function CornerTarget(display: Frame, c: Corner, width: int, height: int, horizontal: int, vertical: int): Frame {
    Frame(if IsLeft(c) then display.x - width + horizontal else display.x + display.width - horizontal,
          if IsBottom(c) then display.y + display.height - vertical else display.y - height + vertical,
          width, height)
  }

  /** The visibility a clamped frame shows at a corner. */
  function AxisLimitFrom(clamped: Frame, width: int, height: int, display: Frame, c: Corner, axis: Axis): int {
    if axis == Vertical then
      if IsLeft(c) then clamped.x + width - display.x else display.x + display.width - clamped.x
    else if IsBottom(c) then display.y + display.height - clamped.y else clamped.y + height - display.y
  }

  function Common(a: Frame, b: Frame, axis: Axis): int {
    Min(End(a, axis), End(b, axis)) - Max(Start(a, axis), Start(b, axis))
  }

  /** A parked window shows exactly the asked-for sliver of itself on its display, at every corner. */
  lemma ParkedSliver(display: Frame, c: Corner, width: int, height: int, horizontal: int, vertical: int)
    requires 0 <= horizontal <= width && horizontal <= display.width
    requires 0 <= vertical <= height && vertical <= display.height
    ensures var target := CornerTarget(display, c, width, height, horizontal, vertical);
            && Common(target, display, Vertical) == horizontal && Common(target, display, Horizontal) == vertical
            && AxisLimitFrom(target, width, height, display, c, Vertical) == horizontal
            && AxisLimitFrom(target, width, height, display, c, Horizontal) == vertical
  {
    var target := CornerTarget(display, c, width, height, horizontal, vertical);
    match c
    case BottomLeft => assert End(target, Vertical) == display.x + horizontal;
    case BottomRight => assert Start(target, Vertical) == End(display, Vertical) - horizontal;
    case TopLeft => assert End(target, Horizontal) == display.y + vertical;
    case TopRight => assert End(target, Horizontal) == display.y + vertical;
  }

  // ---------------------------------------------------------------- the search

  const RESOLUTION: real := 0.25

  function Pow2(n: nat): (r: nat)
    ensures r >= 1
  {
    if n == 0 then 1 else 2 * Pow2(n - 1)
  }

  /** Least n with 2^n >= x: the rounded-up binary logarithm of a length of at least one. */
  function CeilLog2(x: real): (n: nat)
    requires x >= 1.0
    ensures Pow2(n) as real >= x
    ensures n > 0 ==> Pow2(n - 1) as real < x
    decreases if x <= 1.0 then 0 else x.Floor + 1
  {
    if x <= 1.0 then 0 else
      var n := CeilLog2(MaxReal(1.0, x / 2.0));
      n + 1
  }

  function MaxReal(a: real, b: real): real { if a >= b then a else b }

  function SearchBudget(maxDistance: real): nat {
    2 * (CeilLog2(MaxReal(2.0, maxDistance)) + 3) + 2
  }

  /** The share of the budget one axis gets. */
  function AxisBudget(maxDistance: real, bothClamped: bool): nat {
    var share := SearchBudget(maxDistance) / (if bothClamped then 2 else 1);
    if share < 2 then 2 else share
  }

  /** Probes a search from `width` down to the resolution can take. */
  function Halvings(width: real): (n: nat)
    requires width >= 0.0
    decreases (width * 8.0).Floor
  {
    if width <= RESOLUTION then 0 else 1 + Halvings(width / 2.0)
  }

  lemma {:induction false} HalvingsBound(width: real, n: nat)
    requires 0.0 <= width <= Pow2(n) as real
    ensures Halvings(width) <= n + 2
    decreases n
  {
    if n > 0 {
      if width > RESOLUTION { HalvingsBound(width / 2.0, n - 1); }
    } else if width > RESOLUTION {
      assert Halvings(width / 2.0) <= 1;
    }
  }

  /** Acceptance is monotone with threshold `t`. */
  ghost predicate HasThreshold(accepts: real -> bool, t: real) {
    forall v: real :: accepts(v) <==> v >= t
  }

  /** The search for any way a window manager accepts positions, from a visibility taken to be rejected (fully off
      screen) to one taken to be accepted. `used` counts probes already spent. It never goes above where it starts,
      and what it settles on instead was accepted. Where its two ends are what they are taken to be, it stops because
      it reached the resolution, never because its share of the budget ran out, and something at most the resolution
      below what it settles on is not accepted. */
  method SearchAxisLimit(accepts: real -> bool, accepted: real, maxExtent: real, bothClamped: bool, used: nat)
    returns (limit: real, probes: nat)
    requires 0.0 < accepted
    ensures 0.0 < limit <= accepted && (limit == accepted || accepts(limit))
    ensures used <= probes <= used + AxisBudget(maxExtent, bothClamped)
    ensures accepted <= MaxReal(2.0, maxExtent) ==>
              Halvings(accepted) < AxisBudget(maxExtent, bothClamped) && probes <= used + Halvings(accepted)
    ensures accepted <= MaxReal(2.0, maxExtent) && !accepts(0.0) && accepts(accepted) ==>
              && (exists rejected: real :: limit - RESOLUTION <= rejected < limit && !accepts(rejected))
              && (forall t :: HasThreshold(accepts, t) ==> t <= limit <= t + RESOLUTION)
  {
    var maxDistance := MaxReal(2.0, maxExtent);
    var cap := used + Least(AxisBudget(maxExtent, bothClamped), SearchBudget(maxDistance));
    if accepted <= maxDistance {
      BudgetSuffices(accepted, maxExtent, bothClamped);
    }
    var lo := 0.0;
    var hi := accepted;
    probes := used;
    while probes < cap && hi - lo > RESOLUTION
      invariant 0.0 <= lo < hi <= accepted
      invariant (lo == 0.0 || !accepts(lo)) && (hi == accepted || accepts(hi))
      invariant used <= probes && (probes <= cap || probes == used)
      invariant probes - used + Halvings(hi - lo) <= Halvings(accepted)
      decreases cap - probes
    {
      var mid := (lo + hi) / 2.0;
      probes := probes + 1;
      assert hi - mid == (hi - lo) / 2.0 && mid - lo == (hi - lo) / 2.0;
      if accepts(mid) {
        hi := mid;
      } else {
        lo := mid;
      }
    }
    limit := hi;
  }

  function Least(a: nat, b: nat): nat { if a <= b then a else b }

  /** Even half the budget outlasts every search that starts within the display's extent. */
  lemma BudgetSuffices(accepted: real, maxExtent: real, bothClamped: bool)
    requires 0.0 < accepted <= MaxReal(2.0, maxExtent)
    ensures Halvings(accepted) < AxisBudget(maxExtent, bothClamped)
    ensures Halvings(accepted) < SearchBudget(MaxReal(2.0, maxExtent))
  {
    HalvingsBound(accepted, CeilLog2(MaxReal(2.0, maxExtent)));
  }

  // ---------------------------------------------------------------- rounding and verification

  function Ceiling(x: real): int { -((-x).Floor) }

  /** Whole points: up at the corners where a larger coordinate shows more, down at the others. */
  function RoundLimit(c: Corner, limit: real, axis: Axis): int {
    if (axis == Vertical && IsLeft(c)) || (axis == Horizontal && !IsBottom(c)) then Ceiling(limit) else limit.Floor
  }

  const MOST_NUDGES: nat := 4
  const ACCEPTANCE: real := 1.0
  const REJECTION: real := 0.5
  const EXACTLY: real := 0.000001

  /** The attempts come with growing total, and for one total with growing horizontal share. */
  predicate Before(dh: nat, dv: nat, eh: nat, ev: nat) {
    dh + dv < eh + ev || (dh + dv == eh + ev && dh < eh)
  }

  predicate Granted(accepts: (real, real) -> bool, horizontal: int, vertical: int, dh: nat, dv: nat) {
    accepts((horizontal + dh) as real, (vertical + dv) as real)
  }

  /** Nudge a rounded candidate towards more visibility, a point at a time: the first granted attempt, or none
      when none within the bound is granted. */
  method VerifyWithNudge(accepts: (real, real) -> bool, horizontal: int, vertical: int) returns (nudge: Option<(nat, nat)>)
    ensures nudge.Some? ==>
              var (dh, dv) := nudge.value;
              && dh + dv <= MOST_NUDGES && Granted(accepts, horizontal, vertical, dh, dv)
              && forall eh: nat, ev: nat :: Before(eh, ev, dh, dv) ==> !Granted(accepts, horizontal, vertical, eh, ev)
    ensures nudge.None? ==>
              forall eh: nat, ev: nat :: eh + ev <= MOST_NUDGES ==> !Granted(accepts, horizontal, vertical, eh, ev)
  {
    for total := 0 to MOST_NUDGES + 1
      invariant forall eh: nat, ev: nat :: eh + ev < total ==> !Granted(accepts, horizontal, vertical, eh, ev)
    {
      for dh := 0 to total + 1
        invariant forall eh: nat, ev: nat :: eh + ev < total || (eh + ev == total && eh < dh) ==>
                    !Granted(accepts, horizontal, vertical, eh, ev)
      {
        if Granted(accepts, horizontal, vertical, dh, total - dh) {
          return Some((dh, total - dh));
        }
      }
    }
    return None;
  }

  /** Acceptance of both visibilities together is monotone with these thresholds. */
  ghost predicate HasThresholds(accepts: (real, real) -> bool, th: real, tv: real) {
    forall h: real, v: real :: accepts(h, v) <==> h >= th && v >= tv
  }

  /** Rounding and verification: from limits that undercut their thresholds by at most a point, the nudging always
      succeeds, and what it settles on is accepted and on either axis the rounded limit or less than a point
      above the threshold. */
  method SettleVisibility(accepts: (real, real) -> bool, c: Corner, limitH: real, limitV: real, ghost th: real,
                          ghost tv: real)
    returns (horizontal: int, vertical: int)
    requires HasThresholds(accepts, th, tv) && th - 1.0 <= limitH && tv - 1.0 <= limitV
    ensures accepts(horizontal as real, vertical as real)
    ensures th <= horizontal as real && (horizontal == RoundLimit(c, limitH, Vertical) || horizontal as real < th + 1.0)
    ensures tv <= vertical as real && (vertical == RoundLimit(c, limitV, Horizontal) || vertical as real < tv + 1.0)
  {
    var h, v := RoundLimit(c, limitH, Vertical), RoundLimit(c, limitV, Horizontal);
    ghost var a, b := Missing(h, th), Missing(v, tv);
    RoundingIsClose(c, limitH, Vertical);
    RoundingIsClose(c, limitV, Horizontal);
    assert Granted(accepts, h, v, a, b);
    var nudge := VerifyWithNudge(accepts, h, v);
    var (dh, dv) := nudge.value;
    assert dh >= a && dv >= b;
    assert !Before(a, b, dh, dv);
    return h + dh, v + dv;
  }

  /** Whole points still missing to a threshold. */
  function Missing(from: int, threshold: real): (n: nat)
    requires from as real > threshold - 2.0
    ensures n <= 2 && from as real + n as real >= threshold
    ensures n > 0 ==> from as real + n as real < threshold + 1.0
  {
    if from as real >= threshold then 0 else if from as real + 1.0 >= threshold then 1 else 2
  }

  lemma RoundingIsClose(c: Corner, limit: real, axis: Axis)
    ensures limit - 1.0 < RoundLimit(c, limit, axis) as real < limit + 1.0
  {
    assert (-limit).Floor as real <= -limit < (-limit).Floor as real + 1.0;
  }

  /** Rounding alone can undercut the threshold: at a right-hand corner the whole points are rounded down. */
  lemma RoundingUndercuts(accepts: (real, real) -> bool, tv: real)
    requires HasThresholds(accepts, 1.5, tv)
    ensures !accepts(RoundLimit(BottomRight, 1.5, Vertical) as real, tv)
  {
    assert (1.5 as real).Floor == 1;
  }

  // ---------------------------------------------------------------- one corner of a display

  /** What a window manager that keeps at least `least` visible along an axis makes of a request. */
  function Clamped(requested: real, least: real): real { MaxReal(requested, least) }

  predicate Off(a: real, b: real, tolerance: real) { a - b > tolerance || b - a > tolerance }

  /** One probe of an axis: rejected when the window is not where it was asked to be along that axis, or is elsewhere
      along the other one than where the search takes it to be. */
  predicate Accepted(v: real, least: real, otherSeen: real, otherExpected: real) {
    !Off(Clamped(v, least), v, REJECTION) && !Off(otherSeen, otherExpected, REJECTION)
  }

  lemma RoundingIsMonotone(c: Corner, a: real, b: real, axis: Axis)
    requires a <= b
    ensures RoundLimit(c, a, axis) <= RoundLimit(c, b, axis)
  {
    assert (-b).Floor <= (-a).Floor && a.Floor <= b.Floor by { FloorMonotone(a, b); FloorMonotone(-b, -a); }
  }

  lemma FloorMonotone(a: real, b: real)
    requires a <= b
    ensures a.Floor <= b.Floor
  {
  }

  lemma RoundingWhole(c: Corner, n: int, axis: Axis)
    ensures RoundLimit(c, n as real, axis) == n
  {
    assert (-(n as real)) == ((-n) as real);
  }

  /** The limits of one corner, from the first basis: the endpoint's own clamp, rounded. Along each clamped axis the
      search holds the other one, the second along with the first one's rounded limit; `seen` is how much of the seed
      window was visible, along the second axis, before. Against a window manager that keeps some least part visible
      along each axis, this always succeeds, whatever the probes of one axis make of the other: exactly the found
      visibility is granted, and it is less than one point above the least on either axis. */
  method DiscoverLimits(c: Corner, leastH: real, leastV: real, seen: real, maxExtent: real)
    returns (horizontal: int, vertical: int)
    requires 0.0 <= leastH && 0.0 <= leastV
    ensures leastH <= ACCEPTANCE && leastV <= ACCEPTANCE ==> horizontal == 0 && vertical == 0
    ensures leastH > ACCEPTANCE || leastV > ACCEPTANCE ==>
              && !Off(Clamped(horizontal as real, leastH), horizontal as real, EXACTLY)
              && !Off(Clamped(vertical as real, leastV), vertical as real, EXACTLY)
              && horizontal as real < leastH + 1.0 && vertical as real < leastV + 1.0
  {
    var clampedH, clampedV := Clamped(0.0, leastH), Clamped(0.0, leastV);
    var offH, offV := Off(clampedH, 0.0, ACCEPTANCE), Off(clampedV, 0.0, ACCEPTANCE);
    if !offH && !offV {
      return 0, 0;
    }
    var basisH, basisV := RoundLimit(c, clampedH, Vertical), RoundLimit(c, clampedV, Horizontal);
    RoundingIsClose(c, leastH, Vertical);
    RoundingIsClose(c, leastV, Horizontal);
    var limitH, limitV, probes := basisH as real, basisV as real, 0;
    if offH {
      var otherSeen := Clamped(basisV as real, leastV);
      limitH, probes := SearchAxisLimit(v => Accepted(v, leastH, otherSeen, seen), basisH as real, maxExtent, offH && offV, probes);
    }
    var h := RoundLimit(c, limitH, Vertical);
    if offV {
      var otherSeen := Clamped(h as real, leastH);
      limitV, probes := SearchAxisLimit(v => Accepted(v, leastV, otherSeen, h as real), basisV as real, maxExtent, offH && offV, probes);
    }
    RoundingIsMonotone(c, limitH, basisH as real, Vertical);
    RoundingIsMonotone(c, limitV, basisV as real, Horizontal);
    RoundingWhole(c, basisH, Vertical);
    RoundingWhole(c, basisV, Horizontal);
    JointThresholds(leastH, leastV);
    horizontal, vertical := SettleVisibility(Jointly(leastH, leastV), c, limitH, limitV, leastH - EXACTLY, leastV - EXACTLY);
  }

  /** The final check of both axes together. */
  function Jointly(leastH: real, leastV: real): (real, real) -> bool {
    (h, v) => !Off(Clamped(h, leastH), h, EXACTLY) && !Off(Clamped(v, leastV), v, EXACTLY)
  }

  lemma JointThresholds(leastH: real, leastV: real)
    ensures HasThresholds(Jointly(leastH, leastV), leastH - EXACTLY, leastV - EXACTLY)
  {
    var accepts := Jointly(leastH, leastV);
    forall h: real, v: real ensures accepts(h, v) <==> h >= leastH - EXACTLY && v >= leastV - EXACTLY {
      assert Off(Clamped(h, leastH), h, EXACTLY) <==> h < leastH - EXACTLY;
      assert Off(Clamped(v, leastV), v, EXACTLY) <==> v < leastV - EXACTLY;
    }
  }
}
