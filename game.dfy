/**
 The `Body` and `Game` classes of `main.py`: the snake's segment sprites and
 the game object whose fields the event loop updates in place. Every method
 is proved to change the game exactly as the matching function of module
 `Rules` says, seen through `Game.Model()`.
 */
module Viborita {
  import opened Grid
  import opened Rules

  /**
   `pygame.sprite.spritecollideany` for the head square against the squares
   at `others`, one by one until a hit.
   */
  method SpriteCollideAny(head: Pos, others: seq<Pos>) returns (hit: bool)
    ensures hit == CollidesAny(head, others)
  {
    hit := false;
    var j := 0;
    while j < |others| && !hit
      invariant 0 <= j <= |others|
      invariant hit <==> exists i :: 0 <= i < j && Overlap(head, others[i])
    {
      hit := Overlap(head, others[j]);
      j := j + 1;
    }
  }

  /** The snake's segment sprites (`Body`): the position of each, head first. */
  class Body {
    var segments: seq<Pos>

    /** `Body.__init__`: a group holding only the head, at the origin. */
    constructor ()
      ensures segments == [(0, 0)]
    {
      segments := [(0, 0)];
    }

    /** `Body.add`: one more segment, placed on the current last segment. */
    method Add()
      requires |segments| >= 1
      modifies this
      ensures segments == old(segments) + [old(segments)[|old(segments)| - 1]]
    {
      segments := segments + [segments[|segments| - 1]];
    }

    /**
     `Body.update`: the first `position.Length` sprites are moved to the
     target positions and form the new group; the head is its first sprite.
     */
    method Update(position: array<Pos>)
      requires 1 <= position.Length <= |segments|
      modifies this
      ensures segments == position[..]
    {
      var newBody: seq<Pos> := [];
      for i := 0 to position.Length
        invariant newBody == position[..i]
      {
        newBody := newBody + [position[i]];
      }
      segments := newBody;
    }
  }

  /** The game object (`Game`). */
  class Game {
    /** The window size the game was created with (`WIDTH`, `HEIGHT`). */
    const width: int
    const height: int

    var velocity: int
    var direction: Dir
    var food: Option<Pos>
    /** The segment sprites (`self.snake`). */
    var snake: Body
    /** The target position of every segment (`self.position`), head first. */
    var position: array<Pos>
    var running: bool
    var exit: bool
    var initialScreen: bool
    /** The window was closed: the process has ended. */
    var closed: bool

    ghost var Repr: set<object>

    /** The game area of the window (`Renderer.game_size`). */
    function GameArea(): Area {
      AreaOf(width, height)
    }

    /** The game seen as a value. */
    ghost function Model(): GameState
      reads this, snake, position
    {
      GameState(velocity, direction, food, position[..], snake.segments,
                running, exit, initialScreen, closed)
    }

    ghost predicate Valid()
      reads this, Repr
    {
      Repr == {this, snake, position} && WellFormed(Model())
    }

    /**
     `Game.__init__`: the window size, then `initial_variables`. The loop
     flags, first set by `start`, get the values `start` gives them.
     */
    constructor (width: int, height: int)
      ensures Valid() && fresh(Repr - {this})
      ensures this.width == width && this.height == height
      ensures velocity == INITIAL_VELOCITY && direction == (1, 0) && food == None
      ensures position[..] == [(0, 0)] && snake.segments == [(0, 0)]
      ensures running && !exit && !initialScreen && !closed
    {
      this.width, this.height := width, height;
      velocity, direction, food := INITIAL_VELOCITY, (1, 0), None;
      var body := new Body();
      snake := body;
      position := new Pos[] [body.segments[0]];
      running, exit, initialScreen, closed := true, false, false, false;
      new;
      Repr := {this, snake, position};
    }

    /**
     `Game.initial_variables`: a new one-segment snake at the origin heading
     right, velocity 10 and no food; the loop flags are left alone.
     */
    method InitialVariables()
      requires Valid()
      modifies this
      ensures Valid() && fresh(Repr - old(Repr))
      ensures Model() == Rules.InitialVariables(old(Model()))
    {
      velocity := INITIAL_VELOCITY;
      direction := (1, 0);
      food := None;
      var body := new Body();
      var targets := new Pos[] [body.segments[0]];
      snake, position := body, targets;
      Repr := {this, snake, position};
    }

    /**
     `Game.snake_body_movement`: in place, every target takes its
     predecessor's place, then the head target moves one cell along the
     direction.
     */
    method SnakeBodyMovement()
      requires position.Length >= 1
      modifies position
      ensures position[..] == Moved(old(position[..]), direction)
    {
      var i := position.Length - 1;
      while i > 0
        invariant 0 <= i < position.Length
        invariant forall k :: 0 <= k <= i ==> position[k] == old(position[k])
        invariant forall k :: i < k < position.Length ==> position[k] == old(position[k - 1])
      {
        position[i] := position[i - 1];
        i := i - 1;
      }
      position[0] := Advance(position[0], direction);
    }

    /** One turn of the event loop of `Game.input`. */
    method HandleEvent(e: Event)
      requires Valid() && (e.FoodTick? ==> LegalDraw(GameArea(), e.col, e.row))
      modifies Repr
      ensures Valid() && Repr == old(Repr)
      ensures Model() == PlayEvent(GameArea(), old(Model()), e)
    {
      match e {
        case Quit =>
          closed := true;
        case KeyDown(k) =>
          var turn := Turn(direction, k);
          if turn.Some? {
            direction := turn.value;
            SnakeBodyMovement();
          } else if k == W {
            velocity := velocity + VELOCITY_STEP;
          } else if k == S {
            velocity := velocity - VELOCITY_STEP;
            if velocity <= 0 {
              velocity := VELOCITY_STEP;
            }
          }
        case MoveTick =>
          SnakeBodyMovement();
        case Click(x, y) =>
          position[0] := (Snap(x), Snap(y));
        case FoodTick(col, row) =>
          if food.None? {
            food := Some(SpawnCell(GameArea(), col, row));
          }
        case Other =>
      }
    }

    /** `Game.input`: the events of one batch polled while playing. */
    method Input(events: seq<Event>)
      requires Valid() && DrawsInRange(GameArea(), events)
      modifies Repr
      ensures Valid() && Repr == old(Repr)
      ensures Model() == PlayEvents(GameArea(), old(Model()), events)
    {
      var i := 0;
      while i < |events| && !closed
        invariant 0 <= i <= |events|
        invariant Valid() && Repr == old(Repr)
        invariant PlayEvents(GameArea(), Model(), events[i..]) == PlayEvents(GameArea(), old(Model()), events)
      {
        assert events[i] in events;
        HandleEvent(events[i]);
        assert events[i..][1..] == events[i + 1..];
        i := i + 1;
      }
    }

    /** The left and right walls of `Game.collisions`, with their portals. */
    method SideWalls(x: int, y: int)
      requires Valid()
      modifies this, position
      ensures Valid() && Repr == old(Repr)
      ensures Model() == Rules.SideWalls(GameArea(), old(Model()), x, y)
    {
      var a := GameArea();
      if x >= a.width {
        if InPortal(a, y) {
          position[0] := (0, position[0].1);
        } else {
          running := false;
        }
      } else if x < 0 {
        if InPortal(a, y) {
          position[0] := (a.width - HEAD_SIZE, position[0].1);
        } else {
          running := false;
        }
      }
    }

    /** The top and bottom walls of `Game.collisions`. */
    method TopBottomWalls(y: int)
      requires Valid()
      modifies this
      ensures Valid() && Repr == old(Repr)
      ensures Model() == Rules.TopBottomWalls(GameArea(), old(Model()), y)
    {
      var a := GameArea();
      if y >= a.height {
        running := false;
      } else if y < 0 {
        running := false;
      }
    }

    /**
     `Game.collisions` for the committed head at (x, y): a portal rewrites
     the x of the head's target, every other collision ends the game.
     */
    method Collisions(x: int, y: int)
      requires Valid()
      modifies this, position
      ensures Valid() && Repr == old(Repr)
      ensures Model() == Rules.Collisions(GameArea(), old(Model()), x, y)
    {
      SideWalls(x, y);
      TopBottomWalls(y);
      var segs := snake.segments;
      var hit := SpriteCollideAny(segs[0], segs[1..]);
      if hit {
        running := false;
      }
    }

    /**
     `Game.eat_food`: the snake grows by a segment on its last committed
     segment, the target array gets the same position appended, and the food
     is gone.
     */
    method EatFood()
      requires Valid()
      modifies Repr
      ensures Valid() && fresh(Repr - old(Repr))
      ensures Model() == Rules.EatFood(old(Model()))
    {
      snake.Add();
      var tail := snake.segments[|snake.segments| - 1];
      var grown := new Pos[position.Length + 1];
      forall i | 0 <= i < position.Length {
        grown[i] := position[i];
      }
      grown[position.Length] := tail;
      position := grown;
      Repr := {this, snake, position};
      food := None;
    }

    /**
     `Game.update`: eat when the head committed by the previous frame is on
     the food, commit the targets to the sprites, check the new head.
     */
    method Update()
      requires Valid()
      modifies Repr
      ensures Valid() && fresh(Repr - old(Repr))
      ensures Model() == Rules.Update(GameArea(), old(Model()))
    {
      if food.Some? {
        var head := snake.segments[0];
        if head.0 == food.value.0 && head.1 == food.value.1 {
          EatFood();
        }
      }
      snake.Update(position);
      var head := snake.segments[0];
      Collisions(head.0, head.1);
    }

    /**
     One turn of the play loop of `Game.start`: the input of a batch, then
     the frame update unless the window was closed.
     */
    method PlayFrame(batch: seq<Event>)
      requires Valid() && DrawsInRange(GameArea(), batch) && PhaseOf(Model()) == Playing
      modifies Repr
      ensures Valid() && fresh(Repr - old(Repr))
      ensures Model() == Step(GameArea(), old(Model()), batch)
    {
      Input(batch);
      if !closed {
        Update();
      }
    }

    /** `Game.welcome`: the events of one batch polled on the welcome screen. */
    method Welcome(events: seq<Event>)
      requires Valid()
      modifies this
      ensures Valid() && Repr == old(Repr)
      ensures Model() == WelcomeEvents(old(Model()), events)
    {
      var i := 0;
      while i < |events| && !closed
        invariant 0 <= i <= |events|
        invariant Valid() && Repr == old(Repr)
        invariant WelcomeEvents(Model(), events[i..]) == WelcomeEvents(old(Model()), events)
      {
        match events[i] {
          case Quit =>
            closed := true;
          case KeyDown(k) =>
            if k == Enter {
              initialScreen := false;
            }
          case _ =>
        }
        assert events[i..][1..] == events[i + 1..];
        i := i + 1;
      }
    }

    /** `Game.restart`: the events of one batch polled on the game-over screen. */
    method Restart(events: seq<Event>)
      requires Valid()
      modifies this
      ensures Valid() && fresh(Repr - old(Repr))
      ensures Model() == RestartEvents(old(Model()), events)
    {
      var i := 0;
      while i < |events| && !closed
        invariant 0 <= i <= |events|
        invariant Valid() && fresh(Repr - old(Repr))
        invariant RestartEvents(Model(), events[i..]) == RestartEvents(old(Model()), events)
      {
        match events[i] {
          case Quit =>
            closed := true;
          case KeyDown(k) =>
            if k == Q {
              exit := true;
            } else if k == R {
              running := true;
              InitialVariables();
            }
          case _ =>
        }
        assert events[i..][1..] == events[i + 1..];
        i := i + 1;
      }
    }

    /**
     The `while self.initial_screen` loop of `Game.start`: welcome polls, one
     batch of `frames` each from index `k` on, until Enter is pressed, the
     window is closed or the batches run out. Whatever `Run` does with the
     remaining batches is unchanged.
     */
    method WelcomeScreen(frames: seq<seq<Event>>, k: int) returns (next: int)
      requires Valid() && AllDrawsInRange(GameArea(), frames) && 0 <= k <= |frames|
      requires running && !exit
      modifies this
      ensures Valid() && Repr == old(Repr)
      ensures k <= next <= |frames|
      ensures running && !exit
      ensures !initialScreen || closed || next == |frames|
      ensures Run(GameArea(), Model(), frames, next) == Run(GameArea(), old(Model()), frames, k)
    {
      next := k;
      while initialScreen && !closed && next < |frames|
        invariant k <= next <= |frames|
        invariant Valid() && Repr == old(Repr)
        invariant running && !exit
        invariant Run(GameArea(), Model(), frames, next) == Run(GameArea(), old(Model()), frames, k)
      {
        ghost var m := Model();
        Welcome(frames[next]);
        assert Model() == Step(GameArea(), m, frames[next]);
        next := next + 1;
      }
    }

    /**
     The `while self.running` loop of `Game.start`: input and update, one
     batch of `frames` each from index `k` on, until the snake dies, the
     window is closed or the batches run out.
     */
    method PlayRound(frames: seq<seq<Event>>, k: int) returns (next: int)
      requires Valid() && AllDrawsInRange(GameArea(), frames) && 0 <= k <= |frames|
      requires !exit && (running && !closed && k < |frames| ==> !initialScreen)
      modifies Repr
      ensures Valid() && fresh(Repr - old(Repr))
      ensures k <= next <= |frames|
      ensures !exit && (!running || closed || next == |frames|)
      ensures Run(GameArea(), Model(), frames, next) == Run(GameArea(), old(Model()), frames, k)
    {
      next := k;
      while running && !closed && next < |frames|
        invariant k <= next <= |frames|
        invariant Valid() && fresh(Repr - old(Repr))
        invariant !exit
        invariant running && !closed && next < |frames| ==> !initialScreen
        invariant Run(GameArea(), Model(), frames, next) == Run(GameArea(), old(Model()), frames, k)
      {
        ghost var m := Model();
        PlayFrame(frames[next]);
        assert Model() == Step(GameArea(), m, frames[next]);
        next := next + 1;
      }
    }

    /**
     The `self.restart()` call that ends a turn of the outer loop of
     `Game.start`: one game-over poll on the batch at `k`, after which the
     loop condition is tested again.
     */
    method GameOverScreen(frames: seq<seq<Event>>, k: int) returns (next: int)
      requires Valid() && AllDrawsInRange(GameArea(), frames) && 0 <= k < |frames|
      requires !running && !exit && !closed
      modifies this
      ensures Valid() && fresh(Repr - old(Repr))
      ensures next == k + 1
      ensures Run(GameArea(), LoopTop(Model()), frames, next) == Run(GameArea(), old(Model()), frames, k)
    {
      ghost var m := Model();
      Restart(frames[k]);
      assert LoopTop(Model()) == Step(GameArea(), m, frames[k]);
      next := k + 1;
    }

    /**
     One turn of the `while not self.exit` loop of `Game.start`: the welcome
     screen for a running game, play until `running` is cleared, then one
     game-over poll. `stop` says that the window was closed or the batches
     ran out before the game-over poll; the game then stands as `Run` leaves it.
     */
    method LoopTurn(frames: seq<seq<Event>>, k: int) returns (next: int, stop: bool)
      requires Valid() && AllDrawsInRange(GameArea(), frames) && 0 <= k <= |frames|
      requires !exit && !closed
      modifies Repr
      ensures Valid() && fresh(Repr - old(Repr))
      ensures k <= next <= |frames|
      ensures stop ==> Model() == Run(GameArea(), LoopTop(old(Model())), frames, k)
      ensures !stop ==> k < next
      ensures !stop ==> Run(GameArea(), LoopTop(Model()), frames, next) == Run(GameArea(), LoopTop(old(Model())), frames, k)
    {
      next := k;
      if running {
        initialScreen := true;
        next := WelcomeScreen(frames, next);
      }
      next := PlayRound(frames, next);
      stop := closed || next == |frames|;
      if !stop {
        next := GameOverScreen(frames, next);
      }
    }

    /**
     `Game.start`: the outer loop. While the game is not left it shows the
     welcome screen to a running game, plays until `running` is cleared and
     polls the game-over screen, consuming one batch of `frames` per poll and
     stopping when the batches run out.
     */
    method Start(frames: seq<seq<Event>>)
      requires Valid() && AllDrawsInRange(GameArea(), frames)
      modifies Repr
      ensures Valid() && fresh(Repr - old(Repr))
      ensures Model() == Run(GameArea(), Started(old(Model())), frames, 0)
    {
      ghost var target := Run(GameArea(), Started(old(Model())), frames, 0);
      exit := false;
      running := true;
      var k := 0;
      while !exit && !closed
        invariant 0 <= k <= |frames|
        invariant Valid() && fresh(Repr - old(Repr))
        invariant Run(GameArea(), LoopTop(Model()), frames, k) == target
        decreases |frames| - k
      {
        var stop;
        k, stop := LoopTurn(frames, k);
        if stop {
          return;
        }
      }
    }
  }
}
