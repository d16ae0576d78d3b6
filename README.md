# PyViborita game core in Dafny

PyViborita is a pygame snake game in one file, `PyViborita/main.py`. This
project models its `Game` object: the state that `initial_variables` sets up
and that the event loop changes in place. That state is:

- the target position of every segment (`position`);
- the positions committed to the segment sprites (`Body`);
- the direction and the velocity;
- the optional food cell;
- the `running`, `exit` and `initial_screen` flags.

It models how `input`, `snake_body_movement`, `update`, `collisions`,
`eat_food`, `restart`, `welcome` and `start` change that state. The files are:

- `grid.dfy` (module `Grid`) is the pixel geometry:
  - the 20-pixel cell;
  - Python's `int(a/b)` (rounded toward zero);
  - the grid snap of a mouse click;
  - pygame's rectangle overlap test;
  - the half-open portal band;
  - the cell range of the food spawner.
- `rules.dfy` (module `Rules`) holds the game as a value, `GameState`, and
  one pure function per piece of the program:
  - one polled event while playing (`PlayEvent`) and a batch of them
    (`PlayEvents`);
  - the frame update (`Update`, `Collisions`, `EatFood`);
  - the welcome and game-over polls;
  - one batch of the outer loop (`Step`) and a run of batches (`Run`).
- `game.dfy` (module `Viborita`) holds the imperative model: the classes
  `Body` and `Game`.
  - `Game` keeps the targets in an `array`, shifted in place.
  - Its methods loop over the polled events.
  - Each event-handling and frame method (`HandleEvent`, `Input`, the wall
    and collision tests, `EatFood`, `Update`, `PlayFrame`, `Welcome`,
    `Restart`, `InitialVariables`) is proved to leave `Game.Model()` exactly
    where the matching function of `Rules` puts the previous state.
  - `SnakeBodyMovement` is proved to leave the target array equal to
    `Rules.Moved` of the old one, and `Body`'s methods state the segment
    list they leave.
  - The loops of `start` (`WelcomeScreen`, `PlayRound`, `GameOverScreen`,
    `LoopTurn`) are proved to keep `Rules.Run` of the remaining batches
    unchanged, so `Start` ends where `Rules.Run` does.
- `rules_facts.dfy` (module `RulesFacts`) proves what the rules guarantee:
  - the reachable-state invariant;
  - the effect of each event;
  - eating, walls, portals and self-collision in closed form;
  - the order of the screens.
- `rules_examples.dfy` (module `RulesExamples`) works through a concrete run
  in the 800 x 800 window the program opens.

Events come in as one batch per `pygame.event.get()` call. A batch is a
sequence of:

- `KeyDown(key)`;
- `MoveTick`, a firing of the movement timer;
- `FoodTick(col, row)`, a firing of the food timer, carrying the cell indices
  the random generator returns;
- `Click(x, y)`, a released mouse button with the pointer position in window
  pixels (the program snaps it without taking off the 10-pixel frame);
- `Quit`;
- `Other`.

The outer loop's screen is read off the flags:

- closed or `exit`: the game has ended;
- otherwise not `running`: game over;
- otherwise `initial_screen`: the welcome screen;
- otherwise: playing.

After a game-over poll, the `initial_screen = True` at the top of the outer
loop is applied at once, so the flags always name the screen of the next poll.

Four behaviours of the program are easy to misread; the model follows the
code:

- After R on the game-over screen the program shows the welcome screen again
  (main.py:126-129). It does not go straight back to play
  (`RulesFacts.RestartLeadsToWelcome`).
- Self-collision is pygame's rectangle overlap, not coordinate equality. The
  two agree in every reachable state of a game area a whole number of cells
  wide (`RulesFacts.SelfHitIsEquality`).
- A portal wrap moves only the head's target. The head is committed outside
  the area for one frame and wraps on the next (`RulesFacts.PortalWrapDeferred`).
- Growth copies the last committed segment. A one-segment snake that eats
  in a frame without a movement step or a click therefore lands its new segment on its
  own head and ends the game (`RulesFacts.EatingInPlaceEndsGame`).

## Model

| member | source | states |
|---|---|---|
| Grid.TruncDiv | PyViborita/main.py:189 | `int(a/b)` for b > 0: the quotient rounded toward zero, bounded on both sides for each sign of a |
| Grid.Snap | PyViborita/main.py:169 | the snapped click coordinate is a multiple of 20 and the start of the cell holding the coordinate, counted toward zero |
| Grid.OverlapOnGrid | PyViborita/main.py:206 | two grid squares overlap exactly when they are at the same position |
| Grid.AreaOf | PyViborita/main.py:63 | the game area is the window less one cell in each dimension, so it is a whole number of cells wide exactly when the window is |
| Grid.Overlap | PyViborita/main.py:206 | two squares at the same position overlap, and overlapping squares are less than a cell apart in each coordinate |
| Grid.CollidesAny | PyViborita/main.py:206 | a square collides with a group holding a square at its own position, and never with an empty group |
| Grid.PortalLow | PyViborita/main.py:189 | `int(h/2 - 60)` is the half of `h - 120` rounded down, and not negative, for an area at least a portal high |
| Grid.PortalHigh | PyViborita/main.py:189 | `int(h/2 + 60)` is the half of `h + 120` rounded down |
| Grid.InPortal | PyViborita/main.py:189 | in an area at least two portals high, the portal band lies strictly inside the area |
| Grid.PortalCentred | PyViborita/main.py:188-189 | for an even area height the portal band is exactly 120 pixels and centred |
| Grid.DefaultPortalRows | PyViborita/main.py:188-189 | in the 800 x 800 window the portals admit exactly the grid rows y = 340 ... 440 |
| Grid.LegalIndex | PyViborita/main.py:27-28 | a drawn cell index lies in `randint`'s half-open range [1, n - 1) for n cells, and no index is legal for fewer than 3 cells, where `randint` raises |
| Grid.SpawnCell | PyViborita/main.py:27-28 | spawned food lies on the grid and never in the outermost ring of cells |
| Grid.SpawnCellCovers | PyViborita/main.py:27-28 | every grid cell off the outermost ring is the spawn cell of some draw `randint` can make |
| Rules.TimerPeriod | PyViborita/main.py:159 | `int(1000/velocity)` is the largest period whose product with the velocity stays within 1000, and it is 0 exactly above velocity 1000 |
| Rules.SlowDown | PyViborita/main.py:160-163 | S lowers the velocity by 5 and gives 5 once that would not be positive; the result is positive and keeps a legal velocity legal |
| Rules.SpeedUp | PyViborita/main.py:157-158 | W raises the velocity by exactly 5 |
| Rules.Turn | PyViborita/main.py:145-156 | an arrow is accepted iff its axis component is zero; for a unit direction exactly the perpendicular turns are accepted, never a reversal or a repeat, and the result is the arrow's unit vector |
| Rules.Moved | PyViborita/main.py:176-178 | a movement step keeps the length, every target takes its predecessor's place and the head moves one cell along the direction |
| Rules.PlayEvent | PyViborita/main.py:139-174 | one event while playing never changes the committed segments, the number of targets, `running`, `exit` or `initial_screen` |
| Rules.PlayEvents | PyViborita/main.py:138-174 | a batch while playing keeps the same frame as `PlayEvent`; the window is closed after it exactly when it was before or the batch holds a close, and a closed window ignores the batch |
| Rules.InitialVariables | PyViborita/main.py:105-114 | the reset state is well formed, has a legal velocity and a unit direction, lies on the grid and keeps the loop flags |
| Rules.EatFood | PyViborita/main.py:209-214 | eating adds exactly one segment and one target and keeps `running`, `exit`, `initial_screen` and the window state |
| Rules.HitsBodyAt | PyViborita/main.py:204-207 | `spritecollideany` against the group without the head holds iff some later segment overlaps the head |
| Rules.SideWalls | PyViborita/main.py:188-197 | the left and right wall test changes neither the committed segments, the number of targets nor `exit`, `initial_screen` or the window state |
| Rules.TopBottomWalls | PyViborita/main.py:198-203 | the top and bottom wall test changes no position, nor `exit`, `initial_screen` or the window state |
| Rules.Collisions | PyViborita/main.py:187-207 | the collision test changes neither the segments, the number of targets nor `exit`, `initial_screen` or the window state |
| Rules.Update | PyViborita/main.py:180-185 | the frame update leaves one target per committed segment and keeps `exit`, `initial_screen` and the window state |
| Rules.HitsBody | PyViborita/main.py:204-207 | a one-segment snake never hits its own body |
| Rules.OnFood | PyViborita/main.py:181-182 | the coordinate-by-coordinate test is equality of the committed head with the food cell |
| Rules.WelcomeEvent | PyViborita/main.py:232-239 | on the welcome screen a close only sets the window state, Enter only leaves the welcome screen, and every other event changes nothing |
| Rules.RestartEvent | PyViborita/main.py:218-228 | on the game-over screen only a close closes, only Q sets `exit`, only R sets `running` and resets the game, and every other event changes nothing |
| Rules.PhaseOf | PyViborita/main.py:119-135 | the outer loop polls the welcome or the play loop exactly while the game runs and is not left, the welcome screen while `initial_screen` holds and the play loop otherwise |
| Rules.Started | PyViborita/main.py:116-127 | `start` clears `exit`, sets `running` and opens the welcome screen unless the window is closed, and touches no part of the game |
| Rules.WelcomeEvents | PyViborita/main.py:230-239 | the welcome poll changes neither the snake, the food, the velocity, the direction, `running` nor `exit`; the window is closed after it exactly when it was before or the batch holds a close, and a closed window ignores the batch |
| Rules.RestartEvents | PyViborita/main.py:216-228 | the game-over poll keeps the state well formed and leaves `initial_screen` alone; the window is closed after it exactly when it was before or the batch holds a close, a closed window ignores the batch, and without a close the game is left exactly when it was or the batch holds Q |
| Rules.LoopTop | PyViborita/main.py:126-127 | a running game that was not left is on the welcome screen at the top of the outer loop |
| Rules.Step | PyViborita/main.py:116-135 | every batch of the outer loop keeps the state well formed |
| Rules.Run | PyViborita/main.py:116-135 | every run of batches keeps the state well formed |
| RulesFacts.MovedOnGrid | PyViborita/main.py:176-178 | a movement step along a unit direction keeps every target on the grid |
| RulesFacts.SnapFixesGrid | PyViborita/main.py:169 | snapping leaves a grid coordinate unchanged and is idempotent |
| RulesFacts.HitsBodyOnGrid | PyViborita/main.py:204-207 | on the grid the head hits the body iff a later segment is at the head's position |
| RulesFacts.ReversalIgnored | PyViborita/main.py:145-156 | an arrow repeating or reversing the current direction leaves the whole state unchanged |
| RulesFacts.AcceptedTurnMovesOnce | PyViborita/main.py:145-156 | an accepted turn sets the arrow's unit direction and makes exactly one movement step, nothing else |
| RulesFacts.ClickTeleportsHead | PyViborita/main.py:167-170 | a click puts the head's target on the grid cell holding the pointer position, read as game-area coordinates, and leaves the other targets and the direction alone |
| RulesFacts.PlayEventConsistent | PyViborita/main.py:144-164 | one event keeps the velocity a positive multiple of 5 and the direction a unit vector |
| RulesFacts.PlayEventOnGrid | PyViborita/main.py:139-174 | one event keeps every target and the food on the grid |
| RulesFacts.PlayEventsInvariant | PyViborita/main.py:138-174 | a batch while playing keeps the reachable-state invariant |
| RulesFacts.FoodOnlyFromTimer | PyViborita/main.py:172-174 | food appears only on a food-timer firing while there is none, on the drawn cell; present food is never replaced |
| RulesFacts.FoodStaysDuringInput | PyViborita/main.py:172-174 | during the input of a frame, present food is neither moved nor removed |
| RulesFacts.CollisionsOutcome | PyViborita/main.py:187-207 | the game ends exactly on a wall hit outside the portal band or a body hit; a portal only rewrites the x of the head's target; nothing else changes |
| RulesFacts.UpdateCommits | PyViborita/main.py:180-185 | the targets become the committed segments, grown by a copy of the last committed segment exactly when the committed head was on the food, which then disappears |
| RulesFacts.UpdateOutcome | PyViborita/main.py:180-207 | a frame ends the game exactly when the head it has just committed, after eating, is outside the area off the portal band or overlaps a later segment; a portal only rewrites the x of the head's target |
| RulesFacts.PlayFrameOutcome | PyViborita/main.py:130-143 | while playing, a batch with a close ends the game; otherwise the input is followed by the frame update, and play goes to game over exactly when that update clears `running` |
| RulesFacts.EatingGrowsByOne | PyViborita/main.py:181-183 | the snake grows by exactly one segment iff the committed head is exactly on the food, and otherwise keeps its length |
| RulesFacts.PortalWrapDeferred | PyViborita/main.py:188-190 | a head crossing the right wall in the band stays committed outside the area and only its target moves to x = 0 |
| RulesFacts.EatingInPlaceEndsGame | PyViborita/main.py:209-214 | a one-segment snake that eats without having moved grows onto its own head and the game ends |
| RulesFacts.EatOnGrid | PyViborita/main.py:209-214 | eating keeps every target on the grid |
| RulesFacts.PortalXOnGrid | PyViborita/main.py:190-195 | both portal exits lie on the grid when the area is a whole number of cells wide |
| RulesFacts.CollisionsOnGrid | PyViborita/main.py:187-207 | the collision test keeps every target on the grid |
| RulesFacts.UpdateInvariant | PyViborita/main.py:180-185 | the frame update keeps the reachable-state invariant |
| RulesFacts.RestartKeys | PyViborita/main.py:216-228 | on the game-over screen R resets to a one-segment snake at the origin heading right at velocity 10 with no food, Q sets `exit`, a close ends the process, every other event is ignored |
| RulesFacts.RestartEventsInvariant | PyViborita/main.py:216-228 | the game-over poll keeps the reachable-state invariant |
| RulesFacts.RestartLeadsToWelcome | PyViborita/main.py:126-135 | a game-over batch with R and neither Q nor a close leads to the welcome screen of a new game: every field but the loop flags is exactly the `initial_variables` state |
| RulesFacts.RestartEventsR | PyViborita/main.py:223-228 | a batch with R and neither Q nor a close leaves a running game, not left, whose state is exactly the `initial_variables` state (velocity 10, heading right, no food, one segment and one target at the origin) |
| RulesFacts.RestartEventsKeepNew | PyViborita/main.py:223-228 | from the `initial_variables` state, a batch without Q or a close leaves the game exactly as it is: further R presses reset to the same state and other keys are ignored |
| RulesFacts.RestartOthersIgnored | PyViborita/main.py:216-228 | a game-over batch holding neither R, Q nor a close leaves the whole state unchanged |
| RulesFacts.WelcomeEnter | PyViborita/main.py:230-239 | without a close, the welcome poll leaves the welcome screen iff the batch holds Enter |
| RulesFacts.StepPhases | PyViborita/main.py:116-135 | welcome never leads straight to game over, play never back to welcome, game over never straight to play, and an ended game stays as it is |
| RulesFacts.StepInvariant | PyViborita/main.py:116-135 | every batch keeps the reachable-state invariant |
| RulesFacts.RunInvariant | PyViborita/main.py:116-135 | every state a game passes through keeps the invariant: velocity a positive multiple of 5, a unit direction, all targets, segments and food on the grid |
| RulesFacts.SelfHitIsEquality | PyViborita/main.py:204-207 | in every state a started game reaches, the head hits the body iff a later segment is at its position |
| RulesExamples.NewGame | PyViborita/main.py:101-121 | the game `Game(800, 800).start()` first polls is well formed and on the welcome screen |
| RulesExamples.MoveFrame | PyViborita/main.py:176-185 | a frame with one movement tick moves a one-segment snake one cell right |
| RulesExamples.ThreeSteps | PyViborita/main.py:116-135 | Enter, then three movement ticks: the snake is committed at (60, 0), one segment long, still playing |
| RulesExamples.GrowFrame | PyViborita/main.py:180-185 | eating at (60, 0) while moving on gives two segments, the new tail where the head was, and no food |
| Viborita.SpriteCollideAny | PyViborita/main.py:206 | the scan returns whether some square overlaps the head |
| Viborita.Body.constructor | PyViborita/main.py:35-39 | a new body is the head alone, at the origin |
| Viborita.Body.Add | PyViborita/main.py:41-44 | one segment is appended, on the current last segment |
| Viborita.Body.Update | PyViborita/main.py:46-53 | the segments become exactly the target positions, in order |
| Viborita.Game.constructor | PyViborita/main.py:101-114 | the window size, velocity 10, heading right, no food, a one-segment snake and target at the origin |
| Viborita.Game.InitialVariables | PyViborita/main.py:105-114 | the object is reset as `Rules.InitialVariables` says, with a fresh body and target array |
| Viborita.Game.SnakeBodyMovement | PyViborita/main.py:176-178 | the in-place backward shift leaves the target array equal to `Rules.Moved` of the old one |
| Viborita.Game.HandleEvent | PyViborita/main.py:139-174 | one event changes the object as `Rules.PlayEvent` says |
| Viborita.Game.Input | PyViborita/main.py:138-174 | the event loop changes the object as `Rules.PlayEvents` says |
| Viborita.Game.SideWalls | PyViborita/main.py:188-197 | the left and right wall test changes the object as `Rules.SideWalls` says |
| Viborita.Game.TopBottomWalls | PyViborita/main.py:198-203 | the top and bottom wall test changes the object as `Rules.TopBottomWalls` says |
| Viborita.Game.Collisions | PyViborita/main.py:187-207 | the collision test changes the object as `Rules.Collisions` says |
| Viborita.Game.EatFood | PyViborita/main.py:209-214 | the grown body and a longer target array match `Rules.EatFood` |
| Viborita.Game.Update | PyViborita/main.py:180-185 | the frame update changes the object as `Rules.Update` says |
| Viborita.Game.PlayFrame | PyViborita/main.py:130-131 | input then update, unless the window was closed, is one `Rules.Step` while playing |
| Viborita.Game.Welcome | PyViborita/main.py:230-239 | the welcome poll changes the object as `Rules.WelcomeEvents` says |
| Viborita.Game.Restart | PyViborita/main.py:216-228 | the game-over poll changes the object as `Rules.RestartEvents` says |
| Viborita.Game.WelcomeScreen | PyViborita/main.py:126-129 | the welcome loop stops on Enter, a close or the end of the batches, and `Rules.Run` of what is left is unchanged |
| Viborita.Game.PlayRound | PyViborita/main.py:130-134 | the play loop stops when `running` is cleared, the window is closed or the batches run out, and `Rules.Run` of what is left is unchanged |
| Viborita.Game.GameOverScreen | PyViborita/main.py:135 | one game-over poll followed by the top of the outer loop is one `Rules.Step` |
| Viborita.Game.LoopTurn | PyViborita/main.py:119-135 | one turn of the outer loop either consumes at least one batch or leaves the game where `Rules.Run` does |
| Viborita.Game.Start | PyViborita/main.py:116-135 | the whole outer loop leaves the object exactly in the state `Rules.Run` gives from the started game |

## Left out

- The `Renderer` class and all drawing (main.py:55-97, 171) are presentation
  through pygame. The model keeps only the game-area size that `Renderer`
  computes (main.py:63).
- Window creation, `pygame.init`/`quit`, timer registration and `clock.tick`
  pacing (main.py:117-125, 134) are library I/O and real time. Timer firings
  are events in the polled batches. `Rules.TimerPeriod` states the period
  the movement timer is given. Above velocity 1000 that period is 0, which
  stops a pygame timer; the model still admits movement firings there, so it
  allows more runs than the program has.
- `sys.exit` on a window close (main.py:140-143, 219-222, 233-236) is
  process termination. It is modelled as a `closed` flag: the rest of the
  batch and every later batch are ignored.
- `np.random.randint` (main.py:27-28) is a foreign random generator. A food
  firing carries the drawn cell indices, and the methods require the draws
  to be ones `randint` can return.
- A game area under 60 pixels in either dimension (a window under 80 pixels)
  makes `randint(1, n - 1)` raise `ValueError` at the first food firing with
  no food present (main.py:27-28, 172-173). No legal draw exists for such an
  area, so the methods accept no batch holding a food firing there, even one
  the program would ignore. The program only opens an 800 x 800 window.
- `pygame.mouse.get_pos` (main.py:168) is read from the device. The `Click`
  event carries the pointer position.
- `Block.update`, `Food.draw` and the version printing with the `__main__`
  entry point (main.py:19-21, 30-31, 241-245) are not used by the game core.
- Sprite objects, their identity inside `pygame.sprite.Group`, and the
  rectangle sizes are not modelled. A segment is its top-left position; every
  square is 20 x 20.
- Coordinates are unbounded integers. pygame stores rectangle coordinates as
  C integers, but the snake cannot get near their range.
- Viborita.Game.Start: the batches are a finite sequence. When they run out,
  the model stops where the program would go on polling.
- Viborita.Game.constructor: in the program `running`, `exit` and
  `initial_screen` first exist once `start` sets them. The constructor gives
  them the values `start` would find after `__init__`.
- Viborita.Game.Start: the frame-by-frame alternation of movement ticks and
  frames is whatever the batches contain. The model does not relate the
  movement timer's period to the frame rate.
- RulesFacts.RunInvariant: the grid invariant is proved only for a game
  area a whole number of cells wide. The 800 x 800 window gives a 780-pixel
  area, 39 cells. For other widths the portal exit on the left wall,
  `width - 20`, can be off the grid.
