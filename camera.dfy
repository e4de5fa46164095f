/**
 Screen-to-grid mapping: a pointer position plus the camera offset, divided
 by the on-screen size of one cell with the integer division of main.rs,
 which truncates toward zero (unlike Dafny's Euclidean `/`).
 */
module Camera {
  import opened Grid

  /** Width and height of one cell, in pixels. */
  const CellSize: int := 10

  /**
   `q` is `a / CellSize` rounded toward zero: `q * CellSize` lies between 0
   and `a` (inclusive) and is less than one cell away from `a`.
   */
  ghost predicate RoundsTowardZero(a: int, q: int)
  {
    && (a >= 0 ==> 0 <= q * CellSize <= a < q * CellSize + CellSize)
    && (a < 0 ==> q * CellSize - CellSize < a <= q * CellSize <= 0)
  }

  /** At most one quotient rounds toward zero, so the predicate defines the division. */
  lemma RoundsTowardZeroUnique(a: int, q1: int, q2: int)
    requires RoundsTowardZero(a, q1) && RoundsTowardZero(a, q2)
    ensures q1 == q2
  {
  }

  /**
   Integer division by the cell size rounding toward zero, as the i32
   division in main.rs does; Dafny's own `/` rounds down instead.
   */
  function TruncDiv(a: int): (q: int)
    ensures RoundsTowardZero(a, q)
  {
    if a >= 0 then a / CellSize else -((-a) / CellSize)
  }

  /** The grid cell under the pointer at screen position (`x`, `y`) with the camera at (`camX`, `camY`). */
  function MouseToGrid(x: int, y: int, camX: int, camY: int): (c: Coord)
    ensures RoundsTowardZero(x + camX, c.x) && RoundsTowardZero(y + camY, c.y)
  {
    Coord(TruncDiv(x + camX), TruncDiv(y + camY))
  }

  /** For a non-negative sum, truncation agrees with floor (Euclidean) division. */
  lemma TruncDivNonNegative(a: int)
    requires a >= 0
    ensures TruncDiv(a) == a / CellSize
  {
  }

  /**
   For a negative sum that is not a multiple of the cell size, truncation
   rounds up: one more than floor division.
   */
  lemma TruncDivNegative(a: int)
    requires a < 0 && a % CellSize != 0
    ensures TruncDiv(a) == a / CellSize + 1
  {
  }

  /** A pointer one pixel left of the origin, with the camera at the origin, lands on cell 0, not -1. */
  lemma MinusOneMapsToZero()
    ensures MouseToGrid(-1, -1, 0, 0) == Coord(0, 0)
  {
  }

  /**
   The cell at the origin is twice as wide as the others: every sum strictly
   between -CellSize and CellSize maps to 0.
   */
  lemma DeadZone(a: int)
    ensures TruncDiv(a) == 0 <==> -CellSize < a < CellSize
  {
  }

  /**
   Moving the pointer one cell width to the right moves the grid cell by one
   column, as long as the sum does not cross the zero boundary.
   */
  lemma MoveOneCellRight(x: int, y: int, camX: int, camY: int)
    requires x + camX >= 0 || x + camX + CellSize <= 0
    ensures MouseToGrid(x + CellSize, y, camX, camY)
         == Coord(MouseToGrid(x, y, camX, camY).x + 1, MouseToGrid(x, y, camX, camY).y)
  {
  }

  /** Shifting the camera and the pointer in opposite directions by the same amount leaves the cell unchanged. */
  lemma CameraTranslation(x: int, y: int, camX: int, camY: int, dx: int, dy: int)
    ensures MouseToGrid(x - dx, y - dy, camX + dx, camY + dy) == MouseToGrid(x, y, camX, camY)
  {
  }
}
