# Snake's Greedy Hunt — a Dafny model of the game logic

This project models the game-state logic of a small grid Snake game
written in C++ over raylib (`main.cpp`). The model covers:

- the snake: a body of cells with the head first, a unit direction, and
  a one-shot `grow` flag;
- the food, placed by rejection sampling on the 25x25 board;
- the per-tick `Game::Update`: advance, food collision, edge wrap and tail
  collision, in that order, with the game-over reset;
- the key handling of the main loop, with its one-shot move gate.

Files, one module each:

- `grid.dfy` (`Grid`): cells, the board size `Count = 25`, unit directions
  and the linear membership search `IsInDeque`.
- `snake.dfy` (`Snakes`): the class `Snake`, specified by the function
  `Advance`.
- `food.dfy` (`Placement`): `GenerateRandomCell`, `GenerateRandomPos`
  (specified by the function `Place`) and the class `Food`.
- `game.dfy` (`Games`): the value `GameState`, one specification function
  per step of a tick, the invariant `Inv`, the lemmas about a tick, and the
  class `Game`, whose methods are proved against those functions.
- `controls.dfy` (`Controls`): the arrow-key filter `Steer`, a whole frame
  `FrameStep`, the lemmas about them, and the class `MainLoop` (the
  `canMove` global and the game that `main` owns).

Each class gives its abstract value as a `State()` function. Every
state-changing method states its new state as a specification function of
the old one. The properties are lemmas about those functions.

Modelling choices:

- A `Vector2` cell is a pair of `int`s. Every value the game stores in one
  is a whole number, so `Vector2Equals` is plain equality.
- Randomness is a parameter. `random: seq<GridCell>` lists, in order, the
  cells that successive `GenerateRandomCell` calls return. `GridCell` is a
  cell on the board, which is the range `GetRandomValue(0, count - 1)`
  promises on each axis. The game keeps the draws it has not used yet in
  the field `Game.random`, which stands for raylib's hidden generator state.
  The field `Food.drawsUsed` has no counterpart in the source. It tells the
  game how many draws the food's first placement took.
- The source's placement loop has no bound and never returns if no free
  cell comes up. Here the finite list of draws is the bound. When it runs
  out, `Place` gives `None` and the methods return `ok == false`.
- The deque is a `seq<Cell>` that the methods reassign. `push_front` is
  `[x] + body` and `pop_back` is `body[..|body| - 1]`.
- The quirks of the source are kept:
  - the food test comes before the edge wrap, so a head that wraps onto the
    food does not eat it on that tick (`ScenarioWrapOntoFood`);
  - the tail test runs after the tail has moved, so entering the cell the
    tail just left is not a collision (`ScenarioTailChase`);
  - `Reset` does not clear `grow`, so a meal eaten on the tick that ends the
    round makes the next round's snake grow (`TickSpec`: `t.grow == Eats(s)`).
- The `grow` flag is set by the food check, which runs after the snake has
  advanced (main.cpp:157-158), and `Snake::Update` reads it only on the next
  advance (main.cpp:62-69). The extra cell therefore appears on the tick
  after the meal, not on the tick of the meal. `ScenarioFirstMeal` shows a
  length of 3 after the meal and 4 on the next tick.

## Model

| member | source | states |
|---|---|---|
| `Grid.IsInDeque` | main.cpp:18-28 | returns true exactly when some index `i` has `deque[i] == element` |
| `Snakes.Advance` | main.cpp:59-70 | the new body is `head + direction` followed by the old body, less its last cell unless growing; length unchanged, or +1 when growing |
| `Snakes.Snake.constructor` | main.cpp:44-46 | starts with body `[(6,9),(5,9),(4,9)]`, direction `(1,0)`, not growing |
| `Snakes.Snake.Update` | main.cpp:59-70 | body becomes `Advance(old body, direction, old grow)`; direction unchanged; `grow` is false afterwards |
| `Snakes.Snake.Reset` | main.cpp:72-76 | body and direction back to their start values; `grow` keeps its old value |
| `Placement.Place` | main.cpp:111-119 | the chosen cell is the first draw not on the body: on the board, not on the body, every earlier draw on the body; `None` only when every draw is on the body |
| `Placement.GenerateRandomCell` | main.cpp:104-109 | both coordinates are in `[0, count - 1]` |
| `Placement.GenerateRandomPos` | main.cpp:111-119 | the loop draws until a cell is off the body and returns exactly `Place(body, random)` |
| `Placement.Food.constructor` | main.cpp:86-92 | the food starts on the board and off the given body, at the first free draw; `drawsUsed` says how many draws that took |
| `Games.WrapCoord` | main.cpp:175-197 | the result is in `[0, count)`; in-range values unchanged; `count` maps to 0 and `-1` to `count - 1` |
| `Games.WrapCell` | main.cpp:175-197 | the wrapped cell is on the board, and a cell already on the board is unchanged |
| `Games.Initial` | main.cpp:125-129 | the game starts running with score and high score 0, the start body and direction, and the food on the board off the body |
| `Games.FoodStep` | main.cpp:164-173 | nothing changes unless the head is on the food; then score +1, `grow` set, food moved to a board cell off the body, nothing else changed |
| `Games.EdgeStep` | main.cpp:175-197 | only `body[0]` changes; it becomes its wrapped cell, which is on the board |
| `Games.GameOverStep` | main.cpp:208-219 | high score becomes max(high score, score); score 0; stopped; start body and direction; `grow` kept; food on the board off the start body |
| `Games.TailStep` | main.cpp:221-229 | game over happens exactly when the head equals a segment other than `body[0]`; otherwise nothing changes |
| `Games.Tick` | main.cpp:153-162 | a stopped game is left unchanged |
| `Games.InitialInv` | main.cpp:125-129 | the start state satisfies the game invariant |
| `Games.TickSpec` | main.cpp:153-229 | a running tick ends the round exactly when the wrapped new head hits a segment kept after the tail moved. Otherwise the body is new head + kept segments and the score rises by 1 exactly when the unwrapped head reached the food, and new food is off the body. On game over the reset and high score hold, counting a meal of the same tick |
| `Games.TickPreservesInv` | main.cpp:153-229 | each tick keeps the invariant: body at least 3 cells, on the board, without repeated cells; food on the board; direction a unit step; scores non-negative |
| `Games.ScenarioTailChase` | main.cpp:221-229 | moving into the cell the tail has just left is not a collision |
| `Games.ScenarioWrapOntoFood` | main.cpp:153-162 | a head that wraps onto the food does not eat it on that tick |
| `Games.ScenarioFirstMeal` | main.cpp:164-173 | from the start with food at `(7,9)`, the first tick scores 1 and sets `grow`; the body reaches 4 cells on the next tick |
| `Games.ScenarioSelfCollision` | main.cpp:208-229 | a head that runs into the body ends the round: stopped, score 0, high score 4, start body |
| `Games.Game.constructor` | main.cpp:122-129 | the new game's state is `Initial(random)` |
| `Games.Game.Update` | main.cpp:153-162 | the new state is `Tick(old state)` whenever every food placement finds a free cell |
| `Games.Game.CheckFoodCollision` | main.cpp:164-173 | the new state is `FoodStep(old state)` |
| `Games.Game.CheckEdgeCollision` | main.cpp:175-197 | the new state is `EdgeStep(old state)`; only the snake is modified |
| `Games.Game.GameOver` | main.cpp:208-219 | the new state is `GameOverStep(old state)` |
| `Games.Game.CheckTailCollision` | main.cpp:221-229 | the new state is `TailStep(old state)` |
| `Controls.Steer` | main.cpp:250-273 | with the gate closed, nothing changes; any change leaves the gate closed and the game running |
| `Controls.SteerSpec` | main.cpp:250-273 | a frame changes the direction at most once, to a pressed key's direction that does not reverse the current travel; the direction stays a unit step |
| `Controls.SteerSingleKey` | main.cpp:250-273 | a lone key is accepted exactly when the gate is armed and the key does not reverse the direction; it then sets the direction, starts the game and closes the gate |
| `Controls.SteerFramesDisarmed` | main.cpp:250-273 | while the gate is closed, no number of frames changes anything |
| `Controls.OneTurnPerTick` | main.cpp:244-273 | between two ticks the direction changes at most once, and never to the reverse of its direction at the last tick |
| `Controls.FrameStep` | main.cpp:244-273 | a frame without a tick leaves the body and score alone, and changes nothing at all while the gate is closed |
| `Controls.IdleFrames` | main.cpp:240-273 | frames in which the timer does not fire leave the body as it was |
| `Controls.FramesAreSteerFrames` | main.cpp:240-273 | frames without a tick change only the direction, running flag and gate, and change them exactly as `SteerFrames` does |
| `Controls.TickRearms` | main.cpp:244-248 | a frame in which the timer fires runs the tick and leaves the gate open for the keys that follow |
| `Controls.IntervalNoReverse` | main.cpp:244-273 | over one triggered frame and any untriggered frames after it, the direction stays as the tick left it or turns once, never to its reverse, and the gate is then closed |
| `Controls.FramePreservesInv` | main.cpp:244-273 | every frame keeps the game invariant |
| `Controls.MainLoop.constructor` | main.cpp:232-238 | the game starts as `Initial(random)` with the gate closed |
| `Controls.MainLoop.HandleKeys` | main.cpp:250-273 | the direction, running flag and gate become `Steer` of their old values |
| `Controls.MainLoop.Frame` | main.cpp:240-273 | the new state is `FrameStep(old state)`; a tick re-arms the gate before the keys are read |

## Left out

- Rendering: every `Draw` method, the background, the border and the text (main.cpp:48-57, 99-102, 147-151, 275-283). These are raylib calls with float pixel arithmetic.
- Audio and textures: the eat and wall sounds, the food texture and the audio device (main.cpp:86-97, 133-145, 171, 218). These are foreign side effects and have no part in the state.
- Window and frame pacing: the window, `WindowShouldClose` and the 60 fps target. `IsEventTriggered` reads the wall clock, so whether a tick fires in a frame is the input `triggered` of `Controls.MainLoop.Frame`.
- The distribution of `GetRandomValue`: only its range is modelled.
- The disabled walls-kill branch (main.cpp:198-205), which is commented out.
- `Score` and `highScore` are unbounded integers. A C++ `int` would overflow after 2^31 meals, which no game reaches.
- Games.Game.Update: when a food placement runs out of draws (`ok` false), nothing is promised about the state. The source never returns from that tick.
- Games.Game.CheckFoodCollision, Games.Game.GameOver and Games.Game.CheckTailCollision: the same holds when their placement runs out of draws.
- Controls.MainLoop.Frame: the same holds when the tick's placement runs out of draws.
- Placement.Food.constructor, Games.Game.constructor and Controls.MainLoop.constructor: they require that some draw lies off the start body. Without one, the source's constructor never returns.
