/** Positions and sizes on the character grid of the terminal. */
module Grid {

  /** A position (row, column); rows and columns become fractional while objects move. */
  datatype Point = Point(row: real, column: real)

  /** A size in character cells: the number of rows and the number of columns. */
  datatype Size = Size(rows: int, columns: int)

  function Abs(x: real): (r: real)
    ensures r >= 0.0 && (r == x || r == -x)
  {
    if x < 0.0 then -x else x
  }

  function Min(a: real, b: real): (r: real)
    ensures r <= a && r <= b && (r == a || r == b)
  {
    if a <= b then a else b
  }

  function Max(a: real, b: real): (r: real)
    ensures r >= a && r >= b && (r == a || r == b)
  {
    if a >= b then a else b
  }

  /** Whether a coordinate is a whole number of cells. */
  predicate IsWhole(x: real) {
    x.Floor as real == x
  }
}
