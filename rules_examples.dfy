/**
 A concrete run of the game in the 800 x 800 window the program opens:
 the first poll, single frames, three steps of play and growth.
 */
module RulesExamples {
  import opened Grid
  import opened Rules

  /** The state `Game(800, 800)` is in when `start` polls its first batch. */
  function NewGame(): (s: GameState)
    ensures WellFormed(s) && PhaseOf(s) == Welcome
  {
    Started(InitialVariables(GameState(0, (0, 0), None, [], [], false, false, false, false)))
  }

  /** A one-segment game in play, heading right, with its head committed at (x, 0). */
  function PlayingAt(x: int): GameState {
    GameState(INITIAL_VELOCITY, (1, 0), None, [(x, 0)], [(x, 0)], true, false, false, false)
  }

  /** A frame with one movement tick moves the committed head one cell right, away from the walls. */
  lemma MoveFrame(x: int)
    requires 0 <= x && x + 2 * HEAD_SIZE <= 780
    ensures Step(AreaOf(800, 800), PlayingAt(x), [MoveTick]) == PlayingAt(x + HEAD_SIZE)
  {
    var a := AreaOf(800, 800);
    var s := PlayingAt(x);
    var s1 := PlayEvents(a, s, [MoveTick]);
    assert s1 == PlayEvent(a, s, MoveTick);
    assert s1.position == [(x + HEAD_SIZE, 0)];
    var s2 := s1.(segments := s1.position);
    assert !HitsBody(s2.segments);
    assert Update(a, s1) == Collisions(a, s2, x + HEAD_SIZE, 0);
  }

  /**
   Enter on the welcome screen and three frames with one movement tick each:
   the one-segment snake has been committed three cells to the right and is
   still playing.
   */
  lemma ThreeSteps()
    ensures var r := Run(AreaOf(800, 800), NewGame(), [[KeyDown(Enter)], [MoveTick], [MoveTick], [MoveTick]], 0);
      r.segments == [(3 * HEAD_SIZE, 0)] && PhaseOf(r) == Playing
  {
    var a := AreaOf(800, 800);
    var frames := [[KeyDown(Enter)], [MoveTick], [MoveTick], [MoveTick]];
    var s := NewGame();
    assert AllDrawsInRange(a, frames);
    assert Step(a, s, frames[0]) == PlayingAt(0);
    MoveFrame(0);
    MoveFrame(HEAD_SIZE);
    MoveFrame(2 * HEAD_SIZE);
    calc {
      Run(a, s, frames, 0);
      Run(a, PlayingAt(0), frames, 1);
      Run(a, PlayingAt(HEAD_SIZE), frames, 2);
      Run(a, PlayingAt(2 * HEAD_SIZE), frames, 3);
      Run(a, PlayingAt(3 * HEAD_SIZE), frames, 4);
    }
  }

  /**
   The committed head is on the food and the frame moves it on: the snake
   grows to two segments, the new tail where the head was, and the food is gone.
   */
  lemma GrowFrame()
    ensures Step(AreaOf(800, 800), PlayingAt(3 * HEAD_SIZE).(food := Some((3 * HEAD_SIZE, 0))), [MoveTick]) ==
      GameState(INITIAL_VELOCITY, (1, 0), None, [(80, 0), (60, 0)], [(80, 0), (60, 0)], true, false, false, false)
  {
    var a := AreaOf(800, 800);
    var s := PlayingAt(3 * HEAD_SIZE).(food := Some((3 * HEAD_SIZE, 0)));
    var s1 := PlayEvents(a, s, [MoveTick]);
    assert s1 == PlayEvent(a, s, MoveTick);
    assert s1.position == [(80, 0)];
    assert OnFood(s1);
    var s2 := EatFood(s1).(segments := EatFood(s1).position);
    assert s2.segments == [(80, 0), (60, 0)];
    assert !Overlap(s2.segments[0], s2.segments[1]);
    HitsBodyAt(s2.segments);
    assert Update(a, s1) == Collisions(a, s2, 80, 0);
  }
}
