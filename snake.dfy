/** The snake: its body (head first), its direction of travel and the
    one-shot flag that keeps the tail in place for one step after a meal. */
module Snakes {
  import opened Grid

  const InitialBody: seq<Cell> := [Cell(6, 9), Cell(5, 9), Cell(4, 9)]
  const InitialDirection: Cell := Right

  /** The body after one step: the new head `head + direction` in front of
      the old body, whose last cell is gone unless the snake was growing. */
  function Advance(body: seq<Cell>, direction: Cell, grow: bool): (r: seq<Cell>)
    requires |body| > 0
    ensures |r| == if grow then |body| + 1 else |body|
    ensures r[0] == Add(body[0], direction)
    ensures r[1..] == body[..|r| - 1]
  {
    [Add(body[0], direction)] + if grow then body else body[..|body| - 1]
  }

  class Snake {
    // A double-ended queue in the source; here a sequence that the
    // methods reassign (push at the front, pop at the back).
    var body: seq<Cell>
    var direction: Cell
    var grow: bool

    ghost predicate Valid()
      reads this
    {
      |body| > 0
    }

    constructor ()
      ensures Valid()
      ensures body == InitialBody && direction == InitialDirection && !grow
    {
      body := InitialBody;
      direction := InitialDirection;
      grow := false;
    }

    /** Moves one cell: pushes the new head, then either pops the tail or
        uses up the pending growth. */
    method Update()
      requires Valid()
      modifies this
      ensures Valid()
      ensures body == Advance(old(body), old(direction), old(grow))
      ensures direction == old(direction) && !grow
    {
      body := [Add(body[0], direction)] + body;
      if grow {
        grow := false;
      } else {
        body := body[..|body| - 1];
      }
    }

    /** Back to the starting body and direction; the growth flag is left
        as it was. */
    method Reset()
      modifies this
      ensures Valid()
      ensures body == InitialBody && direction == InitialDirection
      ensures grow == old(grow)
    {
      body := InitialBody;
      direction := InitialDirection;
    }
  }
}
