/** Values shared by the three games: integer screen/grid points, the
    rectangle a face detector reports, an optional value, and the C++
    integer operators whose meaning differs from Dafny's. */
module Geometry {

  /** An OpenCV `Point`: integer x (columns) and y (rows, growing downwards). */
  datatype Point = Point(x: int, y: int)

  /** The first face rectangle of a detection: its top-left corner and its
      size. Detector rectangles never have a negative size. */
  datatype Rect = Rect(x: int, y: int, width: nat, height: nat)

  datatype Option<+T> = None | Some(value: T)

  /** C++ `abs` on `int` (overflow at INT_MIN is not modelled). */
  function Abs(n: int): (r: nat)
    ensures r == n || r == -n
  {
    if n < 0 then -n else n
  }

  function Min(a: int, b: int): (r: int)
    ensures r <= a && r <= b && (r == a || r == b)
  {
    if a <= b then a else b
  }

  function Max(a: int, b: int): (r: int)
    ensures r >= a && r >= b && (r == a || r == b)
  {
    if a >= b then a else b
  }

  /** C++ `a % b` for a positive divisor: the remainder takes the sign of the
      dividend (truncating division), unlike Dafny's Euclidean `%`. */
  function CRem(a: int, b: int): (r: int)
    requires b > 0
    ensures a >= 0 ==> 0 <= r < b
    ensures a <= 0 ==> -b < r <= 0
    ensures Abs(r) == Abs(a) % b
  {
    if a >= 0 then a % b else -((-a) % b)
  }
}
