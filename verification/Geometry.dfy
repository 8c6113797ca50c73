/** Rectangles, axes and the small vocabulary every layout module shares. */
module Geometry {

  datatype Option<+T> = None | Some(value: T)

  type WindowId = string

  /** A vertical divider splits the width, a horizontal one the height. */
  datatype Axis = Vertical | Horizontal

  datatype Frame = Frame(x: int, y: int, width: int, height: int)

  function Min(a: int, b: int): int { if a <= b then a else b }

  function Max(a: int, b: int): int { if a >= b then a else b }

  function Abs(a: int): nat { if a < 0 then -a else a }

  function Other(axis: Axis): Axis {
    if axis == Vertical then Horizontal else Vertical
  }

  /** Where a frame starts along the axis an `axis` divider splits. */
  function Start(f: Frame, axis: Axis): int {
    if axis == Vertical then f.x else f.y
  }

  function Length(f: Frame, axis: Axis): int {
    if axis == Vertical then f.width else f.height
  }

  function End(f: Frame, axis: Axis): int {
    Start(f, axis) + Length(f, axis)
  }

  function Shrink(f: Frame, axis: Axis, length: int): Frame {
    if axis == Vertical then f.(width := length) else f.(height := length)
  }

  function Offset(f: Frame, axis: Axis, delta: int): Frame {
    if axis == Vertical then f.(x := f.x + delta) else f.(y := f.y + delta)
  }

  predicate Positive(f: Frame) {
    f.width > 0 && f.height > 0
  }

  predicate Inside(f: Frame, outer: Frame) {
    && outer.x <= f.x && f.x + f.width <= outer.x + outer.width
    && outer.y <= f.y && f.y + f.height <= outer.y + outer.height
  }

  /** At least `gap` points lie between the two frames on some axis. */
  predicate Separated(a: Frame, b: Frame, gap: int) {
    || a.x + a.width + gap <= b.x
    || b.x + b.width + gap <= a.x
    || a.y + a.height + gap <= b.y
    || b.y + b.height + gap <= a.y
  }

  /** Half-open containment. */
  predicate ContainsPoint(f: Frame, px: int, py: int) {
    f.x <= px < f.x + f.width && f.y <= py < f.y + f.height
  }

  predicate WithinTolerance(a: Frame, b: Frame, tolerance: int) {
    && Abs(a.x - b.x) <= tolerance
    && Abs(a.y - b.y) <= tolerance
    && Abs(a.width - b.width) <= tolerance
    && Abs(a.height - b.height) <= tolerance
  }

  function Union(a: Frame, b: Frame): Frame {
    var x := Min(a.x, b.x);
    var y := Min(a.y, b.y);
    Frame(x, y, Max(a.x + a.width, b.x + b.width) - x, Max(a.y + a.height, b.y + b.height) - y)
  }
}
