/** The body of the main loop: a tick (when the timer fires) re-arms the
    one-shot move gate and updates the game; then the four arrow keys are
    tested in a fixed order, and a key is accepted only if the gate is
    armed and the key does not reverse the current travel. */
module Controls {
  import opened Grid
  import opened Snakes
  import opened Placement
  import opened Games

  datatype Key = KeyUp | KeyDown | KeyLeft | KeyRight

  function KeyDirection(k: Key): Cell {
    match k
    case KeyUp => Up
    case KeyDown => Down
    case KeyLeft => Left
    case KeyRight => Right
  }

  /** What the key handling reads and writes: the snake's direction, the
      game's running flag and the move gate. */
  datatype Control = Control(direction: Cell, isRunning: bool, canMove: bool)

  /** One key test: an accepted key sets the direction, starts the game and
      closes the gate. */
  function Press(c: Control, pressed: bool, blocked: bool, d: Cell): Control {
    if pressed && !blocked && c.canMove then Control(d, true, false) else c
  }

  /** The four key tests of one frame, in the order the source makes them;
      `pressed` holds the keys reported pressed in that frame. */
  function Steer(pressed: set<Key>, c: Control): (r: Control)
    ensures !c.canMove ==> r == c
    ensures r == c || (!r.canMove && r.isRunning)
  {
    var c1 := Press(c, KeyUp in pressed, c.direction.y == 1, Up);
    var c2 := Press(c1, KeyDown in pressed, c1.direction.y == -1, Down);
    var c3 := Press(c2, KeyLeft in pressed, c2.direction.x == 1, Left);
    Press(c3, KeyRight in pressed, c3.direction.x == -1, Right)
  }

  /** A frame's key handling changes the direction at most once, to the
      direction of a pressed key that does not reverse the current travel,
      and the direction stays a unit step. */
  lemma SteerSpec(pressed: set<Key>, c: Control)
    requires IsUnit(c.direction)
    ensures var r := Steer(pressed, c);
      && IsUnit(r.direction)
      && r.direction != Neg(c.direction)
      && (r != c ==>
            && c.canMove && !r.canMove && r.isRunning
            && exists k :: k in pressed && KeyDirection(k) == r.direction)
  {
  }

  /** A single key is accepted exactly when the gate is armed and the key
      does not reverse the current direction. */
  lemma SteerSingleKey(k: Key, c: Control)
    requires IsUnit(c.direction)
    ensures Steer({k}, c) ==
      if c.canMove && KeyDirection(k) != Neg(c.direction) then Control(KeyDirection(k), true, false) else c
  {
  }

  /** The key handling of several frames in a row with no tick between them. */
  function SteerFrames(frames: seq<set<Key>>, c: Control): Control
    decreases |frames|
  {
    if frames == [] then c else SteerFrames(frames[1..], Steer(frames[0], c))
  }

  lemma {:induction false} SteerFramesDisarmed(frames: seq<set<Key>>, c: Control)
    requires !c.canMove
    ensures SteerFrames(frames, c) == c
    decreases |frames|
  {
    if frames != [] {
      SteerFramesDisarmed(frames[1..], c);
    }
  }

  /** Between two ticks the direction changes at most once, and never to
      the reverse of the direction it had at the last tick. */
  lemma {:induction false} OneTurnPerTick(frames: seq<set<Key>>, c: Control)
    requires IsUnit(c.direction)
    ensures var r := SteerFrames(frames, c);
      || r == c
      || (&& c.canMove && !r.canMove && r.isRunning
          && IsUnit(r.direction) && r.direction != Neg(c.direction))
    decreases |frames|
  {
    if frames != [] {
      var c1 := Steer(frames[0], c);
      SteerSpec(frames[0], c);
      if c1 == c {
        OneTurnPerTick(frames[1..], c);
      } else {
        SteerFramesDisarmed(frames[1..], c1);
      }
    }
  }

  /** The main loop's state between frames. */
  datatype LoopState = LoopState(game: GameState, canMove: bool)

  /** One frame: a tick when `triggered`, then the key handling. `None`
      when the tick's food placement ran out of draws. */
  function FrameStep(l: LoopState, triggered: bool, pressed: set<Key>): (r: Option<LoopState>)
    requires |l.game.body| > 0
    ensures !triggered ==> r.Some? && r.value.game.body == l.game.body && r.value.game.score == l.game.score
    ensures !triggered && !l.canMove ==> r == Some(l)
  {
    var ticked := if triggered then Tick(l.game) else Some(l.game);
    match ticked
    case None => None
    case Some(g) =>
      var c := Steer(pressed, Control(g.direction, g.isRunning, triggered || l.canMove));
      Some(LoopState(g.(direction := c.direction, isRunning := c.isRunning), c.canMove))
  }

  /** Every frame that finishes keeps the game invariant. */
  lemma FramePreservesInv(l: LoopState, triggered: bool, pressed: set<Key>)
    requires Inv(l.game) && FrameStep(l, triggered, pressed).Some?
    ensures Inv(FrameStep(l, triggered, pressed).value.game)
  {
    var g := if triggered then Tick(l.game).value else l.game;
    if triggered {
      TickPreservesInv(l.game);
    }
    SteerSpec(pressed, Control(g.direction, g.isRunning, triggered || l.canMove));
  }

  /** Several frames in a row in which the timer does not fire. */
  function IdleFrames(l: LoopState, frames: seq<set<Key>>): (r: LoopState)
    requires |l.game.body| > 0
    ensures r.game.body == l.game.body
    decreases |frames|
  {
    if frames == [] then l else IdleFrames(FrameStep(l, false, frames[0]).value, frames[1..])
  }

  /** Frames without a tick do nothing but the key handling: their effect on
      the direction, the running flag and the gate is `SteerFrames`, and the
      rest of the game is left alone. */
  lemma {:induction false} FramesAreSteerFrames(l: LoopState, frames: seq<set<Key>>)
    requires |l.game.body| > 0
    ensures var r := IdleFrames(l, frames);
      var c := SteerFrames(frames, Control(l.game.direction, l.game.isRunning, l.canMove));
      && Control(r.game.direction, r.game.isRunning, r.canMove) == c
      && r.game == l.game.(direction := c.direction, isRunning := c.isRunning)
    decreases |frames|
  {
    if frames != [] {
      var l1 := FrameStep(l, false, frames[0]).value;
      FramesAreSteerFrames(l1, frames[1..]);
    }
  }

  /** A frame in which the timer fires runs the tick and re-arms the gate
      before any key is read: with no key pressed, the frame is the tick
      with the gate left open. */
  lemma TickRearms(l: LoopState)
    requires |l.game.body| > 0 && Tick(l.game).Some?
    ensures FrameStep(l, true, {}) == Some(LoopState(Tick(l.game).value, true))
  {
  }

  /** From one tick to the next, the direction the snake will move in next
      is either the one it had after the tick, or a single turn that does
      not reverse it, after which the gate stays closed. */
  lemma IntervalNoReverse(l: LoopState, first: set<Key>, rest: seq<set<Key>>)
    requires Inv(l.game) && FrameStep(l, true, first).Some?
    ensures var g := Tick(l.game).value;
      var r := IdleFrames(FrameStep(l, true, first).value, rest);
      || r.game.direction == g.direction
      || (&& r.game.direction != Neg(g.direction) && IsUnit(r.game.direction)
          && !r.canMove && r.game.isRunning)
  {
    var g := Tick(l.game).value;
    TickPreservesInv(l.game);
    var armed := Control(g.direction, g.isRunning, true);
    var l1 := FrameStep(l, true, first).value;
    FramesAreSteerFrames(l1, rest);
    assert SteerFrames([first] + rest, armed) == SteerFrames(rest, Steer(first, armed)) by {
      assert ([first] + rest)[1..] == rest;
    }
    OneTurnPerTick([first] + rest, armed);
  }

  class MainLoop {
    const game: Game
    var canMove: bool

    ghost predicate Valid()
      reads this, game, game.snake
    {
      game.Valid()
    }

    function State(): LoopState
      reads this, game, game.snake, game.food
    {
      LoopState(game.State(), canMove)
    }

    constructor (random: seq<GridCell>)
      requires Initial(random).Some?
      ensures Valid() && fresh(game) && fresh(game.snake) && fresh(game.food)
      ensures State() == LoopState(Initial(random).value, false)
    {
      game := new Game(random);
      canMove := false;
    }

    method HandleKeys(pressed: set<Key>)
      requires Valid()
      modifies this, game, game.snake
      ensures Valid()
      ensures var c := Steer(pressed, Control(old(game.snake.direction), old(game.isRunning), old(canMove)));
        State() == LoopState(old(game.State()).(direction := c.direction, isRunning := c.isRunning), c.canMove)
    {
      if KeyUp in pressed && game.snake.direction.y != 1 && canMove {
        game.snake.direction := Up;
        game.isRunning := true;
        canMove := false;
      }
      if KeyDown in pressed && game.snake.direction.y != -1 && canMove {
        game.snake.direction := Down;
        game.isRunning := true;
        canMove := false;
      }
      if KeyLeft in pressed && game.snake.direction.x != 1 && canMove {
        game.snake.direction := Left;
        game.isRunning := true;
        canMove := false;
      }
      if KeyRight in pressed && game.snake.direction.x != -1 && canMove {
        game.snake.direction := Right;
        game.isRunning := true;
        canMove := false;
      }
    }

    /** One pass of the main loop, without the drawing. */
    method Frame(triggered: bool, pressed: set<Key>) returns (ok: bool)
      requires Valid()
      modifies this, game, game.snake, game.food
      ensures Valid()
      ensures ok == FrameStep(old(State()), triggered, pressed).Some?
      ensures ok ==> State() == FrameStep(old(State()), triggered, pressed).value
    {
      ok := true;
      if triggered {
        canMove := true;
        ok := game.Update();
        if !ok {
          return;
        }
      }
      HandleKeys(pressed);
    }
  }
}
