/**
 What the rules of module `Rules` guarantee: the invariants every reachable
 state keeps (a legal velocity, a unit direction, everything on the grid),
 the effect of each kind of event stated outright, how eating, the walls,
 the portals and the body decide a frame, and how the outer loop moves
 between its screens.
 */
module RulesFacts {
  import opened Grid
  import opened Rules

  /** What every state reachable from a new game keeps. */
  predicate Invariant(s: GameState) {
    Consistent(s) && OnGridState(s)
  }

  /** The grid invariant needs a game area a whole number of cells wide. */
  predicate CellWide(a: Area) {
    a.width % HEAD_SIZE == 0
  }

  // ---------------------------------------------------------------------
  // The grid

  /** A grid coordinate moved by one cell, or not at all, stays on the grid. */
  lemma ShiftOnGrid(u: int, k: int)
    requires u % HEAD_SIZE == 0 && -1 <= k <= 1
    ensures (u + k * HEAD_SIZE) % HEAD_SIZE == 0
  {
    var q := u / HEAD_SIZE;
    assert u == q * HEAD_SIZE;
    assert u + k * HEAD_SIZE == (q + k) * HEAD_SIZE;
    MultipleOfCell(q + k);
  }

  /** A step along a unit direction keeps a position on the grid. */
  lemma AdvanceOnGrid(p: Pos, d: Dir)
    requires OnGrid(p) && UnitAxis(d)
    ensures OnGrid(Advance(p, d))
  {
    ShiftOnGrid(p.0, d.0);
    ShiftOnGrid(p.1, d.1);
  }

  /** A movement step along a unit direction keeps every target on the grid. */
  lemma MovedOnGrid(position: seq<Pos>, d: Dir)
    requires |position| >= 1 && UnitAxis(d)
    requires forall p | p in position :: OnGrid(p)
    ensures forall p | p in Moved(position, d) :: OnGrid(p)
  {
    var r := Moved(position, d);
    AdvanceOnGrid(position[0], d);
    forall p | p in r ensures OnGrid(p) {
      var i :| 0 <= i < |r| && r[i] == p;
      if i > 0 {
        assert position[i - 1] in position;
      }
    }
  }

  /** Snapping leaves a grid coordinate where it is, so snapping twice is snapping once. */
  lemma SnapFixesGrid(p: int)
    ensures p % HEAD_SIZE == 0 ==> Snap(p) == p
    ensures Snap(Snap(p)) == Snap(p)
  {
    forall u | u % HEAD_SIZE == 0 ensures Snap(u) == u {
      var q := u / HEAD_SIZE;
      assert u == q * HEAD_SIZE;
      if u >= 0 {
        assert Snap(u) <= u < Snap(u) + HEAD_SIZE;
      } else {
        assert Snap(u) - HEAD_SIZE < u <= Snap(u);
      }
      SameLine(Snap(u), u);
    }
  }

  /**
   On the grid the self-collision test is an equality test: the head hits
   the body exactly when a later segment is at the head's position.
   */
  lemma HitsBodyOnGrid(segments: seq<Pos>)
    requires |segments| >= 1
    requires forall p | p in segments :: OnGrid(p)
    ensures HitsBody(segments) <==> exists i :: 1 <= i < |segments| && segments[i] == segments[0]
  {
    HitsBodyAt(segments);
    assert segments[0] in segments;
    if HitsBody(segments) {
      var i :| 1 <= i < |segments| && Overlap(segments[0], segments[i]);
      assert segments[i] in segments;
      OverlapOnGrid(segments[0], segments[i]);
    }
    if exists i :: 1 <= i < |segments| && segments[i] == segments[0] {
      var i :| 1 <= i < |segments| && segments[i] == segments[0];
      assert Overlap(segments[0], segments[i]);
    }
  }

  // ---------------------------------------------------------------------
  // Events while playing

  /**
   An arrow key along the current axis, the same way or reversed, changes
   nothing: neither the direction nor any position.
   */
  lemma ReversalIgnored(a: Area, s: GameState, k: Key)
    requires |s.position| >= 1 && UnitAxis(s.direction)
    requires KeyDir(k) == s.direction || KeyDir(k) == (-s.direction.0, -s.direction.1)
    ensures PlayEvent(a, s, KeyDown(k)) == s
  {
    var t := Turn(s.direction, k);
    if t.Some? {
      assert false;
    }
  }

  /**
   An accepted turn sets the arrow's unit direction and makes exactly one
   movement step along it; nothing else changes.
   */
  lemma AcceptedTurnMovesOnce(a: Area, s: GameState, k: Key)
    requires |s.position| >= 1 && Turn(s.direction, k).Some?
    ensures UnitAxis(KeyDir(k))
    ensures PlayEvent(a, s, KeyDown(k)) ==
      s.(direction := KeyDir(k), position := Moved(s.position, KeyDir(k)))
  {
  }

  /**
   A released mouse button moves the head's target to the grid cell that
   holds the pointer position read as game-area coordinates, counted toward
   zero. The other targets and the direction stay as they are.
   */
  lemma ClickTeleportsHead(a: Area, s: GameState, x: int, y: int)
    requires |s.position| >= 1
    ensures var r := PlayEvent(a, s, Click(x, y));
      && OnGrid(r.position[0])
      && (0 <= x ==> r.position[0].0 <= x < r.position[0].0 + HEAD_SIZE)
      && (0 <= y ==> r.position[0].1 <= y < r.position[0].1 + HEAD_SIZE)
      && r.position[1..] == s.position[1..]
      && r.direction == s.direction && r.segments == s.segments
  {
    var r := PlayEvent(a, s, Click(x, y));
    assert r.position[1..] == s.position[1..];
  }

  /** One event keeps the velocity legal, the direction a unit vector and the state well formed. */
  lemma PlayEventConsistent(a: Area, s: GameState, e: Event)
    requires Consistent(s) && (e.FoodTick? ==> LegalDraw(a, e.col, e.row))
    ensures Consistent(PlayEvent(a, s, e))
  {
  }

  /** One event keeps every target and the food on the grid. */
  lemma PlayEventOnGrid(a: Area, s: GameState, e: Event)
    requires Invariant(s) && (e.FoodTick? ==> LegalDraw(a, e.col, e.row))
    ensures Invariant(PlayEvent(a, s, e))
  {
    PlayEventConsistent(a, s, e);
    var r := PlayEvent(a, s, e);
    match e
    case KeyDown(k) =>
      var t := Turn(s.direction, k);
      if t.Some? {
        MovedOnGrid(s.position, t.value);
      }
    case MoveTick =>
      MovedOnGrid(s.position, s.direction);
    case Click(x, y) =>
      forall p | p in r.position ensures OnGrid(p) {
        var i :| 0 <= i < |r.position| && r.position[i] == p;
        if i > 0 {
          assert s.position[i] in s.position;
        }
      }
    case _ =>
  }

  /** `Game.input` keeps the invariant, event by event. */
  lemma {:induction false} PlayEventsInvariant(a: Area, s: GameState, events: seq<Event>)
    requires Invariant(s) && DrawsInRange(a, events)
    ensures Invariant(PlayEvents(a, s, events))
    decreases |events|
  {
    if events != [] && !s.closed {
      assert events[0] in events;
      PlayEventOnGrid(a, s, events[0]);
      assert DrawsInRange(a, events[1..]) by {
        forall e | e in events[1..] ensures e.FoodTick? ==> LegalDraw(a, e.col, e.row) {
          assert e in events;
        }
      }
      PlayEventsInvariant(a, PlayEvent(a, s, events[0]), events[1..]);
    }
  }

  /**
   Food is only created by a firing of the food timer while there is none,
   on the drawn cell; food that is there stays where it is.
   */
  lemma FoodOnlyFromTimer(a: Area, s: GameState, e: Event)
    requires |s.position| >= 1 && (e.FoodTick? ==> LegalDraw(a, e.col, e.row))
    ensures s.food.Some? ==> PlayEvent(a, s, e).food == s.food
    ensures s.food.None? && PlayEvent(a, s, e).food.Some? ==>
      e.FoodTick? && PlayEvent(a, s, e).food.value == SpawnCell(a, e.col, e.row)
    ensures s.food.None? && e.FoodTick? ==> PlayEvent(a, s, e).food.Some?
  {
  }

  /** While playing, food once placed is neither moved nor removed by the input. */
  lemma {:induction false} FoodStaysDuringInput(a: Area, s: GameState, events: seq<Event>)
    requires |s.position| >= 1 && DrawsInRange(a, events) && s.food.Some?
    ensures PlayEvents(a, s, events).food == s.food
    decreases |events|
  {
    if events != [] && !s.closed {
      assert events[0] in events;
      FoodOnlyFromTimer(a, s, events[0]);
      assert DrawsInRange(a, events[1..]) by {
        forall e | e in events[1..] ensures e.FoodTick? ==> LegalDraw(a, e.col, e.row) {
          assert e in events;
        }
      }
      FoodStaysDuringInput(a, PlayEvent(a, s, events[0]), events[1..]);
    }
  }

  // ---------------------------------------------------------------------
  // The frame update

  /** The left or right wall was crossed outside the portal band, or the top or bottom wall. */
  predicate WallHit(a: Area, x: int, y: int) {
    ((x >= a.width || x < 0) && !InPortal(a, y)) || y >= a.height || y < 0
  }

  /** The x the portals give the head's target, or its own x when no portal is taken. */
  function PortalX(a: Area, x: int, y: int, targetX: int): int {
    if x >= a.width && InPortal(a, y) then 0
    else if x < 0 && InPortal(a, y) then a.width - HEAD_SIZE
    else targetX
  }

  /**
   `Game.collisions` in one statement: the game ends exactly on a wall hit
   or a body hit; a portal only rewrites the x of the head's target; no
   other position and no other field changes.
   */
  lemma CollisionsOutcome(a: Area, s: GameState, x: int, y: int)
    requires |s.position| >= 1 && |s.segments| >= 1
    ensures var r := Collisions(a, s, x, y);
      && r.running == (s.running && !WallHit(a, x, y) && !HitsBody(s.segments))
      && r.position == s.position[0 := (PortalX(a, x, y, s.position[0].0), s.position[0].1)]
      && r.segments == s.segments
      && r.velocity == s.velocity && r.direction == s.direction && r.food == s.food
      && r.exit == s.exit && r.initialScreen == s.initialScreen && r.closed == s.closed
  {
    var s1 := SideWalls(a, s, x, y);
    assert s1.position == s.position[0 := (PortalX(a, x, y, s.position[0].0), s.position[0].1)];
  }

  /**
   `Game.update`: the targets become the committed segments, grown by a copy
   of the last committed segment exactly when the committed head was on the
   food, which is then gone.
   */
  lemma UpdateCommits(a: Area, s: GameState)
    requires WellFormed(s)
    ensures OnFood(s) ==> Update(a, s).segments == s.position + [s.segments[|s.segments| - 1]]
    ensures OnFood(s) ==> Update(a, s).food == None
    ensures !OnFood(s) ==> Update(a, s).segments == s.position && Update(a, s).food == s.food
    ensures Update(a, s).velocity == s.velocity && Update(a, s).direction == s.direction
  {
    var s1 := if OnFood(s) then EatFood(s) else s;
    CollisionsOutcome(a, s1.(segments := s1.position), s1.position[0].0, s1.position[0].1);
  }

  /**
   When a frame ends the game: the collision checks run on the head the
   frame has just committed, that is on the targets after eating. The game
   ends exactly on a wall hit outside the portal band or a body hit there,
   and a portal only rewrites the x of the head's target.
   */
  lemma UpdateOutcome(a: Area, s: GameState)
    requires WellFormed(s)
    ensures var s1 := if OnFood(s) then EatFood(s) else s;
      var h := s1.position[0];
      && Update(a, s).running == (s.running && !WallHit(a, h.0, h.1) && !HitsBody(s1.position))
      && Update(a, s).position == s1.position[0 := (PortalX(a, h.0, h.1, h.0), h.1)]
  {
    var s1 := if OnFood(s) then EatFood(s) else s;
    CollisionsOutcome(a, s1.(segments := s1.position), s1.position[0].0, s1.position[0].1);
  }

  /**
   A batch polled while playing: a window close ends the game; otherwise the
   frame update follows the input, and play goes to the game-over screen
   exactly when that update clears `running`.
   */
  lemma PlayFrameOutcome(a: Area, s: GameState, batch: seq<Event>)
    requires WellFormed(s) && DrawsInRange(a, batch) && PhaseOf(s) == Playing
    ensures Quit in batch ==> PhaseOf(Step(a, s, batch)) == Ended
    ensures Quit !in batch ==> Step(a, s, batch) == Update(a, PlayEvents(a, s, batch))
    ensures Quit !in batch ==>
      (PhaseOf(Step(a, s, batch)) == GameOver <==> !Update(a, PlayEvents(a, s, batch)).running)
  {
  }

  /**
   Eating lengthens the snake by exactly one segment and only happens when
   the committed head is exactly on the food.
   */
  lemma EatingGrowsByOne(a: Area, s: GameState)
    requires WellFormed(s)
    ensures |Update(a, s).segments| == |s.segments| + 1 <==> OnFood(s)
    ensures |Update(a, s).segments| == |s.segments| <==> !OnFood(s)
  {
    UpdateCommits(a, s);
  }

  /**
   A portal wrap is deferred: the head crossing the right wall in the band
   is committed outside the area, and only its target is moved to x = 0.
   */
  lemma PortalWrapDeferred(a: Area, s: GameState)
    requires WellFormed(s) && !OnFood(s)
    requires s.position[0].0 >= a.width && InPortal(a, s.position[0].1)
    ensures Update(a, s).segments[0] == s.position[0]
    ensures Update(a, s).position[0] == (0, s.position[0].1)
  {
    UpdateCommits(a, s);
    CollisionsOutcome(a, s.(segments := s.position), s.position[0].0, s.position[0].1);
  }

  /**
   A one-segment snake that eats in a frame in which it did not move grows a
   segment on its own head and so collides with itself: the game ends.
   */
  lemma EatingInPlaceEndsGame(a: Area, s: GameState)
    requires WellFormed(s) && |s.segments| == 1 && s.position == s.segments && OnFood(s)
    ensures !Update(a, s).running
  {
    var s1 := EatFood(s);
    var s2 := s1.(segments := s1.position);
    assert s2.segments == [s.segments[0], s.segments[0]];
    assert Overlap(s2.segments[0], s2.segments[1]);
    assert s2.segments[1..][0] == s2.segments[1];
    assert HitsBody(s2.segments);
    CollisionsOutcome(a, s2, s2.segments[0].0, s2.segments[0].1);
  }

  /** Eating appends a committed segment, so the targets stay on the grid. */
  lemma EatOnGrid(s: GameState)
    requires Invariant(s)
    ensures var s1 := if OnFood(s) then EatFood(s) else s;
      WellFormed(s1) && forall p | p in s1.position :: OnGrid(p)
  {
    assert s.segments[|s.segments| - 1] in s.segments;
  }

  /** The x a portal gives a target is on the grid when the area is a whole number of cells wide. */
  lemma PortalXOnGrid(a: Area, x: int, y: int, targetX: int)
    requires CellWide(a) && targetX % HEAD_SIZE == 0
    ensures PortalX(a, x, y, targetX) % HEAD_SIZE == 0
  {
    MultipleOfCell(a.width / HEAD_SIZE - 1);
    assert a.width - HEAD_SIZE == (a.width / HEAD_SIZE - 1) * HEAD_SIZE;
  }

  /** The collision checks keep every target on the grid. */
  lemma CollisionsOnGrid(a: Area, s: GameState, x: int, y: int)
    requires CellWide(a) && |s.position| >= 1 && |s.segments| >= 1
    requires forall p | p in s.position :: OnGrid(p)
    ensures forall p | p in Collisions(a, s, x, y).position :: OnGrid(p)
  {
    CollisionsOutcome(a, s, x, y);
    var r := Collisions(a, s, x, y);
    assert s.position[0] in s.position;
    PortalXOnGrid(a, x, y, s.position[0].0);
    forall p | p in r.position ensures OnGrid(p) {
      var i :| 0 <= i < |r.position| && r.position[i] == p;
      if i > 0 {
        assert s.position[i] in s.position;
      }
    }
  }

  /** The frame update keeps the invariant when the area is a whole number of cells wide. */
  lemma UpdateInvariant(a: Area, s: GameState)
    requires Invariant(s) && CellWide(a)
    ensures Invariant(Update(a, s))
  {
    EatOnGrid(s);
    var s1 := if OnFood(s) then EatFood(s) else s;
    var s2 := s1.(segments := s1.position);
    CollisionsOnGrid(a, s2, s2.segments[0].0, s2.segments[0].1);
    UpdateCommits(a, s);
  }

  // ---------------------------------------------------------------------
  // The screens of the outer loop

  /**
   On the game-over screen R starts a new game (a one-segment snake at the
   origin heading right at velocity 10, no food), Q leaves, the window
   closing ends the process, and every other event changes nothing.
   */
  lemma RestartKeys(s: GameState, e: Event)
    ensures e == KeyDown(R) ==>
      RestartEvent(s, e) == s.(running := true, velocity := INITIAL_VELOCITY, direction := (1, 0),
                               food := None, position := [(0, 0)], segments := [(0, 0)])
    ensures e == KeyDown(Q) ==> RestartEvent(s, e) == s.(exit := true)
    ensures e == Quit ==> RestartEvent(s, e) == s.(closed := true)
    ensures e != KeyDown(R) && e != KeyDown(Q) && e != Quit ==> RestartEvent(s, e) == s
  {
  }

  /** The game-over screen keeps the invariant. */
  lemma {:induction false} RestartEventsInvariant(s: GameState, events: seq<Event>)
    requires Invariant(s)
    ensures Invariant(RestartEvents(s, events))
    decreases |events|
  {
    if events != [] && !s.closed {
      RestartEventsInvariant(RestartEvent(s, events[0]), events[1..]);
    }
  }

  /**
   A game-over batch holding R and neither Q nor a window close leads to the
   welcome screen of a new game: the outer loop never goes straight back to
   play.
   */
  lemma RestartLeadsToWelcome(a: Area, s: GameState, batch: seq<Event>)
    requires WellFormed(s) && DrawsInRange(a, batch) && PhaseOf(s) == GameOver
    requires KeyDown(R) in batch && KeyDown(Q) !in batch && Quit !in batch
    ensures PhaseOf(Step(a, s, batch)) == Welcome
    ensures Step(a, s, batch) == InitialVariables(Step(a, s, batch))
  {
    RestartEventsR(s, batch);
  }

  /**
   A game-over batch holding R and neither Q nor a window close leaves a
   running game in exactly the state `initial_variables` sets up.
   */
  lemma {:induction false} RestartEventsR(s: GameState, events: seq<Event>)
    requires WellFormed(s) && !s.closed && !s.exit
    requires KeyDown(R) in events && KeyDown(Q) !in events && Quit !in events
    ensures var r := RestartEvents(s, events);
      r.running && !r.exit && !r.closed && r == InitialVariables(r)
    decreases |events|
  {
    var s1 := RestartEvent(s, events[0]);
    if events[0] == KeyDown(R) {
      RestartEventsKeepNew(s1, events[1..]);
    } else {
      assert KeyDown(R) in events[1..];
      RestartEventsR(s1, events[1..]);
    }
  }

  /**
   Once a new game is started, later R presses reset it to the same state
   and no other event touches it: the rest of the batch leaves it as it is.
   */
  lemma {:induction false} RestartEventsKeepNew(s: GameState, events: seq<Event>)
    requires WellFormed(s) && s.running && !s.closed && !s.exit
    requires s == InitialVariables(s)
    requires KeyDown(Q) !in events && Quit !in events
    ensures RestartEvents(s, events) == s
    decreases |events|
  {
    if events != [] {
      assert events[0] != KeyDown(Q) && events[0] != Quit;
      assert forall e | e in events[1..] :: e in events;
      RestartEventsKeepNew(RestartEvent(s, events[0]), events[1..]);
    }
  }

  /**
   A game-over batch holding neither R, Q nor a window close changes
   nothing: every other event is ignored.
   */
  lemma {:induction false} RestartOthersIgnored(s: GameState, events: seq<Event>)
    requires WellFormed(s)
    requires KeyDown(Q) !in events && KeyDown(R) !in events && Quit !in events
    ensures RestartEvents(s, events) == s
    decreases |events|
  {
    if events != [] && !s.closed {
      assert forall e | e in events[1..] :: e in events;
      RestartOthersIgnored(RestartEvent(s, events[0]), events[1..]);
    }
  }

  /**
   On the welcome screen only Enter and the window closing do anything:
   without a close, the batch leaves the welcome screen exactly when it
   holds Enter.
   */
  lemma {:induction false} WelcomeEnter(s: GameState, events: seq<Event>)
    requires !s.closed && Quit !in events
    ensures var r := WelcomeEvents(s, events);
      !r.closed && r.initialScreen == (s.initialScreen && KeyDown(Enter) !in events)
    decreases |events|
  {
    if events != [] {
      assert forall e | e in events[1..] :: e in events;
      WelcomeEnter(WelcomeEvent(s, events[0]), events[1..]);
    }
  }

  /**
   The order of the screens: the welcome screen never leads straight to
   game over, play never back to the welcome screen, and game over never
   straight back to play; a left game stays left.
   */
  lemma StepPhases(a: Area, s: GameState, batch: seq<Event>)
    requires WellFormed(s) && DrawsInRange(a, batch)
    ensures PhaseOf(s) == Welcome ==> PhaseOf(Step(a, s, batch)) != GameOver
    ensures PhaseOf(s) == Playing ==> PhaseOf(Step(a, s, batch)) != Welcome
    ensures PhaseOf(s) == GameOver ==> PhaseOf(Step(a, s, batch)) != Playing
    ensures PhaseOf(s) == Ended ==> Step(a, s, batch) == s
  {
  }

  /** Every batch keeps the invariant. */
  lemma StepInvariant(a: Area, s: GameState, batch: seq<Event>)
    requires Invariant(s) && CellWide(a) && DrawsInRange(a, batch)
    ensures Invariant(Step(a, s, batch))
  {
    match PhaseOf(s)
    case Welcome =>
    case Playing =>
      PlayEventsInvariant(a, s, batch);
      var s1 := PlayEvents(a, s, batch);
      if !s1.closed {
        UpdateInvariant(a, s1);
      }
    case GameOver =>
      RestartEventsInvariant(s, batch);
    case Ended =>
  }

  /**
   Every state the game passes through keeps the invariant: the velocity is
   a positive multiple of 5, the direction a unit vector, and every target,
   committed segment and food cell lies on the grid.
   */
  lemma {:induction false} RunInvariant(a: Area, s: GameState, frames: seq<seq<Event>>, k: int)
    requires Invariant(s) && CellWide(a) && AllDrawsInRange(a, frames) && 0 <= k <= |frames|
    ensures Invariant(Run(a, s, frames, k))
    decreases |frames| - k
  {
    if k < |frames| && PhaseOf(s) != Ended {
      StepInvariant(a, s, frames[k]);
      RunInvariant(a, Step(a, s, frames[k]), frames, k + 1);
    }
  }

  /**
   For a game started in a window whose game area is a whole number of
   cells wide, in every state it reaches the head hits the body exactly
   when a later segment is at the head's position.
   */
  lemma SelfHitIsEquality(a: Area, s: GameState, frames: seq<seq<Event>>)
    requires Invariant(s) && CellWide(a) && AllDrawsInRange(a, frames)
    ensures var r := Run(a, Started(s), frames, 0);
      HitsBody(r.segments) <==> exists i :: 1 <= i < |r.segments| && r.segments[i] == r.segments[0]
  {
    RunInvariant(a, Started(s), frames, 0);
    HitsBodyOnGrid(Run(a, Started(s), frames, 0).segments);
  }
}
