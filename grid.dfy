/** Grid geometry shared by the snake, the food and the game: cells, the
    fixed 25x25 board, the four unit directions and the membership search
    the game uses for every collision test. */
module Grid {

  datatype Option<T> = None | Some(value: T)

  /** One grid square. The source stores it in a float vector, but every
      coordinate it ever holds is a whole number (integer random draws,
      unit directions, integer wrap targets), so equality of vectors is
      plain equality here. */
  datatype Cell = Cell(x: int, y: int)

  /** Number of cells along each side of the board. */
  const Count: int := 25

  predicate InGrid(c: Cell) {
    0 <= c.x < Count && 0 <= c.y < Count
  }

  /** The values a pair of `GetRandomValue(0, count - 1)` draws can produce. */
  type GridCell = c: Cell | InGrid(c) witness Cell(0, 0)

  function Add(a: Cell, b: Cell): Cell {
    Cell(a.x + b.x, a.y + b.y)
  }

  function Neg(d: Cell): Cell {
    Cell(-d.x, -d.y)
  }

  // Screen coordinates: y grows downwards, so "up" is (0, -1).
  const Up: Cell := Cell(0, -1)
  const Down: Cell := Cell(0, 1)
  const Left: Cell := Cell(-1, 0)
  const Right: Cell := Cell(1, 0)

  predicate IsUnit(d: Cell) {
    d == Up || d == Down || d == Left || d == Right
  }

  /** Linear search of the body for a cell. */
  method IsInDeque(element: Cell, deque: seq<Cell>) returns (found: bool)
    ensures found <==> exists i :: 0 <= i < |deque| && deque[i] == element
  {
    var i := 0;
    while i < |deque|
      invariant 0 <= i <= |deque|
      invariant forall k :: 0 <= k < i ==> deque[k] != element
    {
      if deque[i] == element {
        return true;
      }
      i := i + 1;
    }
    return false;
  }
}
