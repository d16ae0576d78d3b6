/**
 The game's rules as functions over a value that holds everything the `Game`
 object of the program keeps: the specification that the methods of module
 `Viborita` are proved against. Each function is one piece of `main.py`:
 the handling of one polled event, a movement step, eating, the collision
 checks, a frame's update, and the outer loop that moves between the welcome
 screen, play and the game-over screen.
 */
module Rules {
  import opened Grid

  datatype Option<T> = None | Some(value: T)

  /** A direction of travel (`Game.direction`), a pair of components. */
  type Dir = (int, int)

  /** The four directions the game ever sets. */
  predicate UnitAxis(d: Dir) {
    d == (1, 0) || d == (-1, 0) || d == (0, 1) || d == (0, -1)
  }

  /** The keys the game reacts to; every other key is `OtherKey`. */
  datatype Key = Right | Left | Down | Up | W | S | Q | R | Enter | OtherKey {
    predicate Horizontal() { this == Right || this == Left }
    predicate Vertical() { this == Down || this == Up }
  }

  /**
   One polled event. `FoodTick(col, row)` is a firing of the food timer; it
   carries the two cell indices the random generator hands back when that
   firing spawns food. `Click(x, y)` is a released mouse button, with the
   pointer position read while the event is handled. That position is in
   window pixels; the program snaps it as it stands, without taking off the
   10-pixel frame around the game area.
   */
  datatype Event =
    | KeyDown(key: Key)
    | MoveTick
    | FoodTick(col: int, row: int)
    | Click(x: int, y: int)
    | Quit
    | Other

  /** Every food-timer firing in `events` carries a draw the generator can produce. */
  predicate DrawsInRange(a: Area, events: seq<Event>) {
    forall e | e in events :: e.FoodTick? ==> LegalDraw(a, e.col, e.row)
  }

  /** Every batch in `frames` satisfies `DrawsInRange`. */
  predicate AllDrawsInRange(a: Area, frames: seq<seq<Event>>) {
    forall k :: 0 <= k < |frames| ==> DrawsInRange(a, frames[k])
  }

  /**
   The state of a game. `position` is the target position of every segment
   (`Game.position`); `segments` the positions committed to the segment
   sprites by the last frame (`Body.body`), head first. `closed` records that
   the window was closed, which ends the process.
   */
  datatype GameState = GameState(
    velocity: int,
    direction: Dir,
    food: Option<Pos>,
    position: seq<Pos>,
    segments: seq<Pos>,
    running: bool,
    exit: bool,
    initialScreen: bool,
    closed: bool)

  /** A state the frame update can be applied to: one target per segment sprite. */
  predicate WellFormed(s: GameState) {
    1 <= |s.position| == |s.segments|
  }

  const INITIAL_VELOCITY: int := 10
  const VELOCITY_STEP: int := 5

  /** The velocities the speed keys can produce from the initial one. */
  predicate LegalVelocity(v: int) {
    v >= VELOCITY_STEP && v % VELOCITY_STEP == 0
  }

  /** What every reachable state keeps: well formed, a legal velocity, a unit direction. */
  predicate Consistent(s: GameState) {
    WellFormed(s) && LegalVelocity(s.velocity) && UnitAxis(s.direction)
  }

  /** All targets, all committed segments and the food lie on the grid. */
  predicate OnGridState(s: GameState) {
    (forall p | p in s.position :: OnGrid(p)) &&
    (forall p | p in s.segments :: OnGrid(p)) &&
    (s.food.Some? ==> OnGrid(s.food.value))
  }

  /**
   `int(1000 / velocity)`: the period in milliseconds given to the movement
   timer. A period of 0 stops a pygame timer, so above velocity 1000 the
   movement timer no longer fires; the batches may still hold `MoveTick`
   events there, which lets the model admit more runs than the program has.
   */
  function TimerPeriod(velocity: int): (ms: int)
    requires velocity > 0
    ensures ms >= 0
    ensures ms * velocity <= 1000 < (ms + 1) * velocity
    ensures ms == 0 <==> velocity > 1000
  {
    FloorBounds(1000, velocity);
    1000 / velocity
  }

  /** The brake key: five less, and 5 again once that would not be positive. */
  function SlowDown(v: int): (r: int)
    ensures r > 0
    ensures LegalVelocity(v) ==> LegalVelocity(r)
    ensures v > VELOCITY_STEP ==> r == v - VELOCITY_STEP
    ensures v <= VELOCITY_STEP ==> r == VELOCITY_STEP
  {
    if v - VELOCITY_STEP <= 0 then VELOCITY_STEP else v - VELOCITY_STEP
  }

  /** The accelerate key: five more, with no upper bound. */
  function SpeedUp(v: int): (r: int)
    ensures r > v && r - v == VELOCITY_STEP
  {
    v + VELOCITY_STEP
  }

  /** The direction an arrow key points to; (0, 0) for the other keys. */
  function KeyDir(k: Key): Dir {
    match k
    case Right => (1, 0)
    case Left => (-1, 0)
    case Down => (0, 1)
    case Up => (0, -1)
    case _ => (0, 0)
  }

  /**
   The direction an arrow key turns the snake to, if the turn is accepted:
   a horizontal arrow only while the x component is zero and a vertical one
   only while the y component is zero. For a unit direction that means
   exactly the turns perpendicular to the current direction.
   */
  function Turn(d: Dir, k: Key): (r: Option<Dir>)
    ensures r.Some? ==> UnitAxis(r.value) && r.value == KeyDir(k)
    ensures r.Some? <==> (k.Horizontal() && d.0 == 0) || (k.Vertical() && d.1 == 0)
    ensures UnitAxis(d) ==> (r.Some? <==> (k.Horizontal() || k.Vertical()) && d.0 * KeyDir(k).0 + d.1 * KeyDir(k).1 == 0)
    ensures UnitAxis(d) && r.Some? ==> r.value != d && r.value != (-d.0, -d.1)
  {
    if k == Right && d.0 == 0 then Some((1, 0))
    else if k == Left && d.0 == 0 then Some((-1, 0))
    else if k == Down && d.1 == 0 then Some((0, 1))
    else if k == Up && d.1 == 0 then Some((0, -1))
    else None
  }

  /** One cell further along `d`. */
  function Advance(p: Pos, d: Dir): Pos {
    (p.0 + d.0 * HEAD_SIZE, p.1 + d.1 * HEAD_SIZE)
  }

  /**
   `snake_body_movement`: follow the leader. Every target takes the place its
   predecessor had and the head moves one cell along `d`.
   */
  function Moved(position: seq<Pos>, d: Dir): (r: seq<Pos>)
    requires |position| >= 1
    ensures |r| == |position|
    ensures r[0] == Advance(position[0], d)
    ensures forall i :: 1 <= i < |r| ==> r[i] == position[i - 1]
  {
    [Advance(position[0], d)] + position[..|position| - 1]
  }

  /** The effect of one event polled while playing (one turn of the loop in `Game.input`). */
  function PlayEvent(a: Area, s: GameState, e: Event): (r: GameState)
    requires |s.position| >= 1
    requires e.FoodTick? ==> LegalDraw(a, e.col, e.row)
    ensures |r.position| == |s.position| && r.segments == s.segments
    ensures r.running == s.running && r.exit == s.exit && r.initialScreen == s.initialScreen
  {
    match e
    case Quit => s.(closed := true)
    case KeyDown(k) =>
      var turn := Turn(s.direction, k);
      if turn.Some? then s.(direction := turn.value, position := Moved(s.position, turn.value))
      else if k == W then s.(velocity := SpeedUp(s.velocity))
      else if k == S then s.(velocity := SlowDown(s.velocity))
      else s
    case MoveTick => s.(position := Moved(s.position, s.direction))
    case Click(x, y) => s.(position := s.position[0 := (Snap(x), Snap(y))])
    case FoodTick(col, row) =>
      if s.food.None? then s.(food := Some(SpawnCell(a, col, row))) else s
    case Other => s
  }

  /** `Game.input`: the events of one batch in order, stopping when the window is closed. */
  function PlayEvents(a: Area, s: GameState, events: seq<Event>): (r: GameState)
    requires |s.position| >= 1 && DrawsInRange(a, events)
    ensures |r.position| == |s.position| && r.segments == s.segments
    ensures r.running == s.running && r.exit == s.exit && r.initialScreen == s.initialScreen
    ensures s.closed ==> r == s
    ensures r.closed <==> s.closed || Quit in events
    decreases |events|
  {
    if events == [] || s.closed then s
    else PlayEvents(a, PlayEvent(a, s, events[0]), events[1..])
  }

  /** `Game.initial_variables`: a fresh one-segment snake at (0, 0) heading right. */
  function InitialVariables(s: GameState): (r: GameState)
    ensures WellFormed(r) && Consistent(r) && OnGridState(r)
    ensures r.running == s.running && r.exit == s.exit
    ensures r.initialScreen == s.initialScreen && r.closed == s.closed
  {
    s.(velocity := INITIAL_VELOCITY, direction := (1, 0), food := None,
       position := [(0, 0)], segments := [(0, 0)])
  }

  /** `Game.eat_food`: one more segment, a copy of the last committed one, and no food. */
  function EatFood(s: GameState): (r: GameState)
    requires |s.segments| >= 1
    ensures |r.segments| == |s.segments| + 1 && |r.position| == |s.position| + 1
    ensures r.running == s.running && r.exit == s.exit
    ensures r.initialScreen == s.initialScreen && r.closed == s.closed
  {
    var tail := s.segments[|s.segments| - 1];
    s.(segments := s.segments + [tail], position := s.position + [tail], food := None)
  }

  /**
   `spritecollideany` of the head against the group the head was removed
   from: the segments after the first.
   */
  predicate HitsBody(segments: seq<Pos>)
    requires |segments| >= 1
    ensures HitsBody(segments) ==> |segments| >= 2
  {
    CollidesAny(segments[0], segments[1..])
  }

  /** The head hits the body exactly when a later segment overlaps it. */
  lemma HitsBodyAt(segments: seq<Pos>)
    requires |segments| >= 1
    ensures HitsBody(segments) <==>
      exists i :: 1 <= i < |segments| && Overlap(segments[0], segments[i])
  {
    var tail := segments[1..];
    if HitsBody(segments) {
      var j :| 0 <= j < |tail| && Overlap(segments[0], tail[j]);
      assert Overlap(segments[0], segments[j + 1]);
    }
    if exists i :: 1 <= i < |segments| && Overlap(segments[0], segments[i]) {
      var i :| 1 <= i < |segments| && Overlap(segments[0], segments[i]);
      assert tail[i - 1] == segments[i];
    }
  }

  /**
   The first test of `Game.collisions`, at the left and right walls: in the
   portal band the x of the head's target is moved to the opposite side,
   elsewhere the game ends.
   */
  function SideWalls(a: Area, s: GameState, x: int, y: int): (r: GameState)
    requires |s.position| >= 1
    ensures |r.position| == |s.position| && r.segments == s.segments
    ensures r.exit == s.exit && r.initialScreen == s.initialScreen && r.closed == s.closed
  {
    if x >= a.width then
      if InPortal(a, y) then s.(position := s.position[0 := (0, s.position[0].1)])
      else s.(running := false)
    else if x < 0 then
      if InPortal(a, y) then s.(position := s.position[0 := (a.width - HEAD_SIZE, s.position[0].1)])
      else s.(running := false)
    else s
  }

  /** The second test of `Game.collisions`: the top and bottom walls have no portal. */
  function TopBottomWalls(a: Area, s: GameState, y: int): (r: GameState)
    ensures r.position == s.position && r.segments == s.segments
    ensures r.exit == s.exit && r.initialScreen == s.initialScreen && r.closed == s.closed
  {
    if y >= a.height then s.(running := false)
    else if y < 0 then s.(running := false)
    else s
  }

  /**
   `Game.collisions` for a committed head at (x, y): the left and right walls
   with their portals, the top and bottom walls, then the rest of the body.
   A portal only rewrites the x of the head's target; a collision only
   clears `running`.
   */
  function Collisions(a: Area, s: GameState, x: int, y: int): (r: GameState)
    requires |s.position| >= 1 && |s.segments| >= 1
    ensures |r.position| == |s.position| && r.segments == s.segments
    ensures r.exit == s.exit && r.initialScreen == s.initialScreen && r.closed == s.closed
  {
    var s2 := TopBottomWalls(a, SideWalls(a, s, x, y), y);
    if HitsBody(s2.segments) then s2.(running := false) else s2
  }

  /** The committed head is on the food (compared coordinate by coordinate). */
  predicate OnFood(s: GameState)
    requires |s.segments| >= 1
    ensures OnFood(s) <==> s.food == Some(s.segments[0])
  {
    s.food.Some? && s.segments[0].0 == s.food.value.0 && s.segments[0].1 == s.food.value.1
  }

  /**
   `Game.update`: eat if the head committed by the previous frame is on the
   food, commit the targets to the segment sprites (`Body.update`), then run
   the collision checks on the newly committed head.
   */
  function Update(a: Area, s: GameState): (r: GameState)
    requires 1 <= |s.position| <= |s.segments|
    ensures WellFormed(r)
    ensures r.exit == s.exit && r.initialScreen == s.initialScreen && r.closed == s.closed
  {
    var s1 := if OnFood(s) then EatFood(s) else s;
    var s2 := s1.(segments := s1.position);
    Collisions(a, s2, s2.segments[0].0, s2.segments[0].1)
  }

  /** One event polled on the welcome screen (`Game.welcome`). */
  function WelcomeEvent(s: GameState, e: Event): (r: GameState)
    ensures r.closed == (s.closed || e == Quit)
    ensures r.initialScreen == (s.initialScreen && e != KeyDown(Enter))
    ensures r == s.(closed := r.closed, initialScreen := r.initialScreen)
  {
    match e
    case Quit => s.(closed := true)
    case KeyDown(Enter) => s.(initialScreen := false)
    case _ => s
  }

  /** A batch polled on the welcome screen, stopping when the window is closed. */
  function WelcomeEvents(s: GameState, events: seq<Event>): (r: GameState)
    ensures r.running == s.running && r.exit == s.exit
    ensures r.velocity == s.velocity && r.direction == s.direction && r.food == s.food
    ensures r.position == s.position && r.segments == s.segments
    ensures s.closed ==> r == s
    ensures r.closed <==> s.closed || Quit in events
    decreases |events|
  {
    if events == [] || s.closed then s
    else WelcomeEvents(WelcomeEvent(s, events[0]), events[1..])
  }

  /** One event polled on the game-over screen (`Game.restart`). */
  function RestartEvent(s: GameState, e: Event): (r: GameState)
    ensures WellFormed(s) ==> WellFormed(r)
    ensures r.closed == (s.closed || e == Quit) && r.exit == (s.exit || e == KeyDown(Q))
    ensures r.initialScreen == s.initialScreen
    ensures r.running == (s.running || e == KeyDown(R))
    ensures e != KeyDown(R) ==> r == s.(closed := r.closed, exit := r.exit)
  {
    match e
    case Quit => s.(closed := true)
    case KeyDown(Q) => s.(exit := true)
    case KeyDown(R) => InitialVariables(s.(running := true))
    case _ => s
  }

  /** A batch polled on the game-over screen, stopping when the window is closed. */
  function RestartEvents(s: GameState, events: seq<Event>): (r: GameState)
    requires WellFormed(s)
    ensures WellFormed(r) && r.initialScreen == s.initialScreen
    ensures s.closed ==> r == s
    ensures r.closed <==> s.closed || Quit in events
    ensures !s.closed && Quit !in events ==> (r.exit <==> s.exit || KeyDown(Q) in events)
    decreases |events|
  {
    if events == [] || s.closed then s
    else RestartEvents(RestartEvent(s, events[0]), events[1..])
  }

  /** Where the outer loop of `Game.start` will poll the next batch of events. */
  datatype Phase = Welcome | Playing | GameOver | Ended

  function PhaseOf(s: GameState): (r: Phase)
    ensures (r == Welcome || r == Playing) <==> s.running && !s.exit && !s.closed
    ensures r == Welcome ==> s.initialScreen
    ensures r == Playing ==> !s.initialScreen
  {
    if s.closed || s.exit then Ended
    else if !s.running then GameOver
    else if s.initialScreen then Welcome
    else Playing
  }

  /** The head of the outer loop: a running game shows the welcome screen first. */
  function LoopTop(s: GameState): (r: GameState)
    ensures r.running && !r.exit && !r.closed ==> PhaseOf(r) == Welcome
  {
    if s.running && !s.exit && !s.closed then s.(initialScreen := true) else s
  }

  /** The state `Game.start` polls its first batch in. */
  function Started(s: GameState): (r: GameState)
    ensures !s.closed ==> PhaseOf(r) == Welcome
    ensures r.closed == s.closed && !r.exit && r.running
    ensures r.position == s.position && r.segments == s.segments && r.food == s.food
    ensures r.velocity == s.velocity && r.direction == s.direction
  {
    LoopTop(s.(exit := false, running := true))
  }

  /**
   The effect of the next batch of polled events: on the welcome screen the
   welcome keys; while playing the input events and, unless the window was
   closed, the frame update; on the game-over screen the restart keys and,
   unless the game is left, a new turn of the outer loop.
   */
  function Step(a: Area, s: GameState, batch: seq<Event>): (r: GameState)
    requires WellFormed(s) && DrawsInRange(a, batch)
    ensures WellFormed(r)
  {
    match PhaseOf(s)
    case Welcome => WelcomeEvents(s, batch)
    case Playing =>
      var s1 := PlayEvents(a, s, batch);
      if s1.closed then s1 else Update(a, s1)
    case GameOver => LoopTop(RestartEvents(s, batch))
    case Ended => s
  }

  /** The batches of `frames` from index `k` on, polled one after another until the game is left. */
  function Run(a: Area, s: GameState, frames: seq<seq<Event>>, k: int): (r: GameState)
    requires WellFormed(s) && AllDrawsInRange(a, frames) && 0 <= k <= |frames|
    ensures WellFormed(r)
    decreases |frames| - k
  {
    if k == |frames| || PhaseOf(s) == Ended then s
    else Run(a, Step(a, s, frames[k]), frames, k + 1)
  }
}
