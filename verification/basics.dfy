/** Small shared vocabulary: an optional value (JavaScript's `undefined`
    versus a present value) and a point in the plane. */
module Basics {

  /** `None` stands for JavaScript's `undefined` (a missing layer, an
      out-of-range array read, an empty bounding box). */
  datatype Option<+T> = None | Some(value: T)

  /** A point in the plane; coordinates are exact reals, so floating-point
      rounding is not modelled. */
  datatype Point = Point(x: real, y: real)

  function Min(a: int, b: int): int {
    if a <= b then a else b
  }
}
