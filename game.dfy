/** The per-tick game update: advance the snake, eat food, wrap the head
    at the board's edges, and end the round when the head runs into the
    body. The state-changing class `Game` is specified by functions over
    the value `GameState`, and the properties the game promises are
    proved about those functions. */
module Games {
  import opened Grid
  import opened Snakes
  import opened Placement

  /** Everything one tick reads or writes: the snake, the food cell, the
      counters, and the draws the random generator has yet to give. */
  datatype GameState = GameState(
    body: seq<Cell>,
    direction: Cell,
    grow: bool,
    food: Cell,
    isRunning: bool,
    score: int,
    highScore: int,
    random: seq<GridCell>)

  /** One coordinate after edge wrapping. Any value is brought onto the
      board; stepping off one side lands on the opposite side. */
  function WrapCoord(v: int): (r: int)
    ensures 0 <= r < Count
    ensures 0 <= v < Count ==> r == v
    ensures v == Count ==> r == 0
    ensures v == -1 ==> r == Count - 1
  {
    if v >= Count then 0 else if v < 0 then Count - 1 else v
  }

  function WrapCell(c: Cell): (r: Cell)
    ensures InGrid(r)
    ensures InGrid(c) ==> r == c
  {
    Cell(WrapCoord(c.x), WrapCoord(c.y))
  }

  /** The state the game starts in, or `None` if no draw gives a free cell. */
  function Initial(random: seq<GridCell>): (r: Option<GameState>)
    ensures r.Some? <==> exists k :: 0 <= k < |random| && random[k] !in InitialBody
    ensures r.Some? ==>
      && r.value.body == InitialBody && r.value.direction == InitialDirection
      && !r.value.grow && r.value.isRunning
      && r.value.score == 0 && r.value.highScore == 0
      && InGrid(r.value.food) && r.value.food !in InitialBody
  {
    match Place(InitialBody, random)
    case None => None
    case Some(p) =>
      Some(GameState(InitialBody, InitialDirection, false, p.cell, true, 0, 0, random[p.used..]))
  }

  /** The state after the snake's own step (Snake.Update). */
  function AdvanceStep(s: GameState): GameState
    requires |s.body| > 0
  {
    s.(body := Advance(s.body, s.direction, s.grow), grow := false)
  }

  /** Food collision: when the head is on the food, the food moves to a
      free cell, the snake is set to grow and the score goes up by one. */
  function FoodStep(s: GameState): (r: Option<GameState>)
    requires |s.body| > 0
    ensures s.body[0] != s.food ==> r == Some(s)
    ensures r.None? <==> s.body[0] == s.food && forall k :: 0 <= k < |s.random| ==> s.random[k] in s.body
    ensures r.Some? && s.body[0] == s.food ==>
      && r.value == s.(food := r.value.food, grow := true, score := s.score + 1, random := r.value.random)
      && InGrid(r.value.food) && r.value.food !in s.body
      && |r.value.random| < |s.random| && r.value.random == s.random[|s.random| - |r.value.random|..]
  {
    if s.body[0] == s.food then
      match Place(s.body, s.random)
      case None => None
      case Some(p) => Some(s.(food := p.cell, grow := true, score := s.score + 1, random := s.random[p.used..]))
    else
      Some(s)
  }

  /** Edge collision: only the head changes, and it lands on the board. */
  function EdgeStep(s: GameState): (r: GameState)
    requires |s.body| > 0
    ensures |r.body| == |s.body| && r.body[1..] == s.body[1..]
    ensures InGrid(r.body[0]) && (InGrid(s.body[0]) ==> r == s)
    ensures r.body[0] == WrapCell(s.body[0]) && r == s.(body := r.body)
  {
    s.(body := s.body[0 := WrapCell(s.body[0])])
  }

  /** Game over: the high score keeps the best round, the snake and food
      start over, the game stops and the score is cleared. The growth flag
      survives, because resetting the snake does not clear it. */
  function GameOverStep(s: GameState): (r: Option<GameState>)
    ensures r.None? <==> forall k :: 0 <= k < |s.random| ==> s.random[k] in InitialBody
    ensures r.Some? ==>
      && r.value.highScore >= s.highScore && r.value.highScore >= s.score
      && (r.value.highScore == s.highScore || r.value.highScore == s.score)
      && r.value.score == 0 && !r.value.isRunning
      && r.value.body == InitialBody && r.value.direction == InitialDirection
      && r.value.grow == s.grow
      && InGrid(r.value.food) && r.value.food !in InitialBody
  {
    var best := if s.score > s.highScore then s.score else s.highScore;
    match Place(InitialBody, s.random)
    case None => None
    case Some(p) =>
      Some(s.(highScore := best, body := InitialBody, direction := InitialDirection,
              food := p.cell, isRunning := false, score := 0, random := s.random[p.used..]))
  }

  /** Tail collision: the round ends exactly when the head shares its cell
      with another segment of the body. */
  function TailStep(s: GameState): (r: Option<GameState>)
    requires |s.body| > 0
    ensures s.body[0] !in s.body[1..] ==> r == Some(s)
    ensures s.body[0] in s.body[1..] ==> r == GameOverStep(s)
    ensures r.Some? ==> (r.value.isRunning <==> s.isRunning && s.body[0] !in s.body[1..])
  {
    if s.body[0] in s.body[1..] then GameOverStep(s) else Some(s)
  }

  /** One tick of Game.Update; nothing happens while the game is stopped. */
  function Tick(s: GameState): (r: Option<GameState>)
    requires |s.body| > 0
    ensures !s.isRunning ==> r == Some(s)
  {
    if !s.isRunning then Some(s)
    else
      match FoodStep(AdvanceStep(s))
      case None => None
      case Some(fed) => TailStep(EdgeStep(fed))
  }

  // ---------------------------------------------------------------------
  // An independent description of a tick, and the invariant it keeps.

  /** The head cell a tick moves to, after wrapping. */
  function NextHead(s: GameState): Cell
    requires |s.body| > 0
  {
    WrapCell(Add(s.body[0], s.direction))
  }

  /** The segments that stay behind the new head: all of them while
      growing, all but the tail otherwise. */
  function Kept(s: GameState): seq<Cell>
    requires |s.body| > 0
  {
    if s.grow then s.body else s.body[..|s.body| - 1]
  }

  /** The tick eats: the unwrapped new head is on the food. */
  predicate Eats(s: GameState)
    requires |s.body| > 0
  {
    Add(s.body[0], s.direction) == s.food
  }

  predicate NoRepeats(cells: seq<Cell>) {
    forall i, j :: 0 <= i < j < |cells| ==> cells[i] != cells[j]
  }

  /** What holds of every state the game reaches. */
  predicate Inv(s: GameState) {
    && |s.body| >= 3
    && (forall c :: c in s.body ==> InGrid(c))
    && NoRepeats(s.body)
    && InGrid(s.food)
    && IsUnit(s.direction)
    && s.score >= 0 && s.highScore >= 0
  }

  lemma InitialInv(random: seq<GridCell>)
    requires Initial(random).Some?
    ensures Inv(Initial(random).value)
  {
  }

  /** A running tick that finishes (every food placement found a free
      cell): the round ends exactly when the wrapped new head lands on a
      segment that is still there once the tail has moved. If it does not,
      the body is the new head followed by the kept segments, and the score
      rises by one exactly when the unwrapped head reached the food. If it
      does, the game-over reset has happened, counting a meal eaten on the
      same tick. Either way the growth flag records whether this tick ate. */
  lemma TickSpec(s: GameState, t: GameState)
    requires Inv(s) && s.isRunning && Tick(s) == Some(t)
    ensures !t.isRunning <==> NextHead(s) in Kept(s)
    ensures t.grow == Eats(s)
    ensures NextHead(s) !in Kept(s) ==>
      && t.body == [NextHead(s)] + Kept(s)
      && |t.body| == (if s.grow then |s.body| + 1 else |s.body|)
      && t.direction == s.direction
      && t.highScore == s.highScore
      && t.score == (if Eats(s) then s.score + 1 else s.score)
      && (Eats(s) ==> InGrid(t.food) && t.food !in t.body)
      && (!Eats(s) ==> t.food == s.food)
    ensures NextHead(s) in Kept(s) ==>
      var final := if Eats(s) then s.score + 1 else s.score;
      && t.body == InitialBody && t.direction == InitialDirection
      && t.score == 0
      && t.highScore >= s.highScore && t.highScore >= final
      && (t.highScore == s.highScore || t.highScore == final)
      && InGrid(t.food) && t.food !in InitialBody
  {
    var moved := AdvanceStep(s);
    assert moved.body == [Add(s.body[0], s.direction)] + Kept(s);
    var fed := FoodStep(moved).value;
    assert fed.body == moved.body;
    assert fed.grow == Eats(s);
    assert fed.score == (if Eats(s) then s.score + 1 else s.score);
    var edged := EdgeStep(fed);
    assert edged.body[1..] == Kept(s);
    if Eats(s) {
      // The food lies on the board, so the head that reached it needs no wrap.
      assert edged.body[0] == Add(s.body[0], s.direction) == NextHead(s);
      assert edged.body == moved.body;
    } else {
      assert fed == moved;
    }
    assert edged.body == [NextHead(s)] + Kept(s);
    assert Tick(s) == TailStep(edged);
  }

  lemma KeptInGrid(s: GameState)
    requires Inv(s)
    ensures |Kept(s)| >= |s.body| - 1
    ensures forall c :: c in Kept(s) ==> InGrid(c)
    ensures NoRepeats(Kept(s))
  {
    forall c | c in Kept(s)
      ensures InGrid(c)
    {
      var i :| 0 <= i < |Kept(s)| && Kept(s)[i] == c;
      assert c == s.body[i];
    }
  }

  /** Every tick that finishes keeps the invariant: the body stays at least
      three cells long, on the board, and free of repeated cells; the food
      stays on the board; the direction stays a unit step. */
  lemma TickPreservesInv(s: GameState)
    requires Inv(s) && Tick(s).Some?
    ensures Inv(Tick(s).value)
  {
    if s.isRunning {
      var t := Tick(s).value;
      TickSpec(s, t);
      if NextHead(s) !in Kept(s) {
        KeptInGrid(s);
        var k := Kept(s);
        assert t.body == [NextHead(s)] + k;
        forall c | c in t.body
          ensures InGrid(c)
        {
          if c != NextHead(s) {
            assert c in k;
          }
        }
        forall i, j | 0 <= i < j < |t.body|
          ensures t.body[i] != t.body[j]
        {
          if i == 0 {
            assert t.body[j] == k[j - 1];
          } else {
            assert t.body[i] == k[i - 1] && t.body[j] == k[j - 1];
          }
        }
        if Eats(s) {
          assert InGrid(t.food);
        }
      }
    }
  }

  /** The round does not end when the new head enters the cell the tail
      has just left. */
  lemma ScenarioTailChase()
    ensures
      var s := GameState([Cell(5, 5), Cell(5, 6), Cell(6, 6), Cell(6, 5)], Right, false,
                         Cell(0, 0), true, 2, 7, []);
      Tick(s) == Some(s.(body := [Cell(6, 5), Cell(5, 5), Cell(5, 6), Cell(6, 6)]))
  {
    var s := GameState([Cell(5, 5), Cell(5, 6), Cell(6, 6), Cell(6, 5)], Right, false,
                       Cell(0, 0), true, 2, 7, []);
    var t := s.(body := [Cell(6, 5), Cell(5, 5), Cell(5, 6), Cell(6, 6)]);
    assert AdvanceStep(s) == t;
    assert FoodStep(t) == Some(t);
    assert EdgeStep(t) == t;
    assert Cell(6, 5) !in t.body[1..];
  }

  /** A head that wraps onto the food does not eat it on that tick, because
      the food test comes before the wrap. */
  lemma ScenarioWrapOntoFood()
    ensures
      var s := GameState([Cell(24, 9), Cell(23, 9), Cell(22, 9)], Right, false,
                         Cell(0, 9), true, 3, 3, []);
      Tick(s) == Some(s.(body := [Cell(0, 9), Cell(24, 9), Cell(23, 9)]))
  {
    var s := GameState([Cell(24, 9), Cell(23, 9), Cell(22, 9)], Right, false,
                       Cell(0, 9), true, 3, 3, []);
    var moved := s.(body := [Cell(25, 9), Cell(24, 9), Cell(23, 9)]);
    var t := s.(body := [Cell(0, 9), Cell(24, 9), Cell(23, 9)]);
    assert AdvanceStep(s) == moved;
    assert FoodStep(moved) == Some(moved);
    assert EdgeStep(moved) == t;
    assert Cell(0, 9) !in t.body[1..];
  }

  /** From the start position with the food just ahead, the first tick eats:
      the score becomes 1 and the snake is set to grow, but the body keeps
      its three cells until the next tick. */
  lemma ScenarioFirstMeal()
    ensures
      var s := GameState(InitialBody, Right, false, Cell(7, 9), true, 0, 0, [Cell(6, 9), Cell(0, 0)]);
      var t := GameState([Cell(7, 9), Cell(6, 9), Cell(5, 9)], Right, true, Cell(0, 0), true, 1, 0, []);
      && Tick(s) == Some(t)
      && Tick(t).Some? && |Tick(t).value.body| == 4
  {
    var s := GameState(InitialBody, Right, false, Cell(7, 9), true, 0, 0, [Cell(6, 9), Cell(0, 0)]);
    var moved := s.(body := [Cell(7, 9), Cell(6, 9), Cell(5, 9)]);
    var t := GameState([Cell(7, 9), Cell(6, 9), Cell(5, 9)], Right, true, Cell(0, 0), true, 1, 0, []);
    assert AdvanceStep(s) == moved;
    assert Cell(6, 9) in moved.body && Cell(0, 0) !in moved.body;
    assert Place(moved.body, s.random) == Some(Pick(Cell(0, 0), 2));
    assert FoodStep(moved) == Some(t);
    assert EdgeStep(t) == t;
    assert Cell(7, 9) !in t.body[1..];
    var grown := t.(body := [Cell(8, 9), Cell(7, 9), Cell(6, 9), Cell(5, 9)], grow := false);
    assert AdvanceStep(t) == grown;
    assert FoodStep(grown) == Some(grown);
    assert EdgeStep(grown) == grown;
    assert Cell(8, 9) !in grown.body[1..];
  }

  /** A head that runs into its own body ends the round. */
  lemma ScenarioSelfCollision()
    ensures
      var s := GameState([Cell(5, 5), Cell(5, 6), Cell(6, 6), Cell(6, 5), Cell(7, 5)], Right, false,
                         Cell(0, 0), true, 4, 2, [Cell(1, 1)]);
      Tick(s) == Some(GameState(InitialBody, InitialDirection, false, Cell(1, 1), false, 0, 4, []))
  {
    var s := GameState([Cell(5, 5), Cell(5, 6), Cell(6, 6), Cell(6, 5), Cell(7, 5)], Right, false,
                       Cell(0, 0), true, 4, 2, [Cell(1, 1)]);
    var moved := s.(body := [Cell(6, 5), Cell(5, 5), Cell(5, 6), Cell(6, 6), Cell(6, 5)]);
    assert AdvanceStep(s) == moved;
    assert FoodStep(moved) == Some(moved);
    assert EdgeStep(moved) == moved;
    assert moved.body[1..][3] == Cell(6, 5);
    assert Cell(1, 1) !in InitialBody;
    assert Place(InitialBody, s.random) == Some(Pick(Cell(1, 1), 1));
    assert s.random[1..] == [];
    assert GameOverStep(moved) == Some(GameState(InitialBody, InitialDirection, false, Cell(1, 1), false, 0, 4, []));
  }

  // ---------------------------------------------------------------------
  // The game object.

  class Game {
    const snake: Snake
    const food: Food
    var isRunning: bool
    var score: int
    var highScore: int
    /** The draws the random generator has yet to give (raylib's hidden
        generator state). */
    var random: seq<GridCell>

    ghost predicate Valid()
      reads this, snake
    {
      snake.Valid()
    }

    function State(): GameState
      reads this, snake, food
    {
      GameState(snake.body, snake.direction, snake.grow, food.position, isRunning, score, highScore, random)
    }

    constructor (random: seq<GridCell>)
      requires Initial(random).Some?
      ensures Valid() && fresh(snake) && fresh(food)
      ensures State() == Initial(random).value
    {
      snake := new Snake();
      var placed := new Food(InitialBody, random);
      food := placed;
      isRunning := true;
      score := 0;
      highScore := 0;
      this.random := random[placed.drawsUsed..];
    }

    /** One tick. `ok` is false when a food placement ran out of draws; the
        source would still be drawing, and nothing is promised then. */
    method Update() returns (ok: bool)
      requires Valid()
      modifies this, snake, food
      ensures Valid()
      ensures ok == Tick(old(State())).Some?
      ensures ok ==> State() == Tick(old(State())).value
    {
      if isRunning {
        snake.Update();
        ok := CheckFoodCollision();
        if !ok {
          return;
        }
        CheckEdgeCollision();
        ok := CheckTailCollision();
      } else {
        ok := true;
      }
    }

    method CheckFoodCollision() returns (ok: bool)
      requires Valid()
      modifies this, snake, food
      ensures Valid()
      ensures ok == FoodStep(old(State())).Some?
      ensures ok ==> State() == FoodStep(old(State())).value
    {
      ok := true;
      if snake.body[0] == food.position {
        var pick := GenerateRandomPos(snake.body, random);
        if pick.None? {
          return false;
        }
        food.position := pick.value.cell;
        random := random[pick.value.used..];
        snake.grow := true;
        score := score + 1;
      }
    }

    method CheckEdgeCollision()
      requires Valid()
      modifies snake
      ensures Valid()
      ensures State() == EdgeStep(old(State()))
    {
      var head := snake.body[0];
      if head.x >= Count {
        head := head.(x := 0);
      } else if head.x < 0 {
        head := head.(x := Count - 1);
      }
      if head.y >= Count {
        head := head.(y := 0);
      } else if head.y < 0 {
        head := head.(y := Count - 1);
      }
      snake.body := snake.body[0 := head];
    }

    method GameOver() returns (ok: bool)
      requires Valid()
      modifies this, snake, food
      ensures Valid()
      ensures ok == GameOverStep(old(State())).Some?
      ensures ok ==> State() == GameOverStep(old(State())).value
    {
      if score > highScore {
        highScore := score;
      }
      snake.Reset();
      var pick := GenerateRandomPos(snake.body, random);
      if pick.None? {
        return false;
      }
      food.position := pick.value.cell;
      random := random[pick.value.used..];
      isRunning := false;
      score := 0;
      ok := true;
    }

    method CheckTailCollision() returns (ok: bool)
      requires Valid()
      modifies this, snake, food
      ensures Valid()
      ensures ok == TailStep(old(State())).Some?
      ensures ok ==> State() == TailStep(old(State())).value
    {
      var headlessBody := snake.body[1..];
      var hit := IsInDeque(snake.body[0], headlessBody);
      if hit {
        ok := GameOver();
      } else {
        ok := true;
      }
    }
  }
}
