/** Food placement by rejection sampling. The random generator is a
    parameter: `random` lists, in order, the cells that successive
    `GenerateRandomCell` calls would return. Each lies on the board, which
    is the range `GetRandomValue(0, count - 1)` promises on both axes. The
    source loops until a free cell comes up; a finite list can run out
    first, and that case is reported as `None` (the source would still be
    looping). */
module Placement {
  import opened Grid

  /** A placed cell and how many draws it took to find it. */
  datatype Pick = Pick(cell: Cell, used: nat)

  /** Specification of `GenerateRandomPos`: the first draw that is not on
      the body, or `None` when every draw is on the body. */
  function Place(body: seq<Cell>, random: seq<GridCell>): (r: Option<Pick>)
    ensures r.Some? ==>
      && 1 <= r.value.used <= |random|
      && r.value.cell == random[r.value.used - 1]
      && InGrid(r.value.cell)
      && r.value.cell !in body
      && forall k :: 0 <= k < r.value.used - 1 ==> random[k] in body
    ensures r.None? ==> forall k :: 0 <= k < |random| ==> random[k] in body
    decreases |random|
  {
    if |random| == 0 then None
    else if random[0] !in body then Some(Pick(random[0], 1))
    else
      match Place(body, random[1..])
      case None => None
      case Some(p) => Some(Pick(p.cell, p.used + 1))
  }

  /** The `used`-th draw of the generator. */
  function GenerateRandomCell(random: seq<GridCell>, used: nat): (c: Cell)
    requires used < |random|
    ensures 0 <= c.x <= Count - 1 && 0 <= c.y <= Count - 1
  {
    random[used]
  }

  /** Draws cells until one is not on the snake's body. */
  method GenerateRandomPos(snakeBody: seq<Cell>, random: seq<GridCell>) returns (r: Option<Pick>)
    ensures r == Place(snakeBody, random)
  {
    if |random| == 0 {
      return None;
    }
    var position := GenerateRandomCell(random, 0);
    var used := 1;
    var taken := IsInDeque(position, snakeBody);
    while taken
      invariant 1 <= used <= |random|
      invariant position == random[used - 1]
      invariant taken <==> position in snakeBody
      invariant forall k :: 0 <= k < used - 1 ==> random[k] in snakeBody
      decreases |random| - used
    {
      if used == |random| {
        return None;
      }
      position := GenerateRandomCell(random, used);
      used := used + 1;
      taken := IsInDeque(position, snakeBody);
    }
    r := Some(Pick(position, used));
  }

  class Food {
    var position: Cell
    /** How many draws the placement in the constructor took, so that the
        owner of the generator can move past them. */
    var drawsUsed: nat

    /** Places the food away from the given body. */
    constructor (snakeBody: seq<Cell>, random: seq<GridCell>)
      requires Place(snakeBody, random).Some?
      ensures position == Place(snakeBody, random).value.cell
      ensures drawsUsed == Place(snakeBody, random).value.used
      ensures InGrid(position) && position !in snakeBody
      ensures 1 <= drawsUsed <= |random| && position == random[drawsUsed - 1]
    {
      var pick := GenerateRandomPos(snakeBody, random);
      position := pick.value.cell;
      drawsUsed := pick.value.used;
    }
  }
}
