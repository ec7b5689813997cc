/**
 The game state machine of a grid snake game: the three game phases, the
 per-tick update of the snake, marker spawning and the direction setter.

 Everything is a pure function over immutable values. The random source
 used to place a new marker is replaced by an oracle: a finite sequence of
 candidate positions, drawn in order, of which the first one that is not
 occupied by the snake becomes the marker.
 */
module SnakeGame {

  datatype Direction = Up | Down | Left | Right

  /** A grid cell; coordinates are unbounded and may be negative. */
  datatype Position = Position(x: int, y: int)

  datatype Option<+T> = None | Some(value: T)

  /** The data of a round in progress. The snake is stored head first. */
  datatype RunningState = RunningState(
    direction: Direction,
    snake: seq<Position>,
    marker: Option<Position>,
    collected: int
  )

  datatype Game = NotStarted | Running(state: RunningState) | Finished(score: int)

  const GAME_LEVEL: int := 5
  const GRID_SIZE: int := 32

  /** Number of ticks after which a marker is spawned even if none was picked up. */
  const SPAWN_PERIOD: int := GAME_LEVEL * 5

  /** The cells a random draw can produce: both coordinates in [0, GRID_SIZE). */
  predicate InGrid(p: Position) {
    0 <= p.x < GRID_SIZE && 0 <= p.y < GRID_SIZE
  }

  /** The fixed position a round starts from. */
  const ORIGIN: Position := Position(0, 0)

  function New(): (g: Game)
    ensures g.NotStarted?
  {
    NotStarted
  }

  /** Starts a fresh round, discarding whatever the game held before. */
  function Start(g: Game): (r: Game)
    ensures r.Running?
    ensures r.state.direction == Right
    ensures r.state.snake == [ORIGIN]
    ensures r.state.marker == None
    ensures r.state.collected == 0
  {
    Running(RunningState(Right, [ORIGIN], None, 0))
  }

  /** The cell next to `p` in direction `d`; the y axis grows downwards. */
  function IncrementPosition(p: Position, d: Direction): (q: Position)
    ensures d == Up ==> q == Position(p.x, p.y - 1)
    ensures d == Down ==> q == Position(p.x, p.y + 1)
    ensures d == Right ==> q == Position(p.x + 1, p.y)
    ensures d == Left ==> q == Position(p.x - 1, p.y)
  {
    match d
    case Up => Position(p.x, p.y - 1)
    case Down => Position(p.x, p.y + 1)
    case Right => Position(p.x + 1, p.y)
    case Left => Position(p.x - 1, p.y)
  }

  /**
   Moves the snake one cell: the new head is inserted in front and the last
   cell is removed unless the new head lands on the marker. The boolean
   reports whether the marker was collected. An empty snake is replaced by
   a one-cell snake at the origin.
   */
  function UpdateSnake(state: RunningState): (r: (seq<Position>, bool))
    ensures |state.snake| == 0 ==> r == ([ORIGIN], false)
    ensures |state.snake| > 0 ==>
      && |r.0| > 0
      && r.0[0] == IncrementPosition(state.snake[0], state.direction)
      && (r.1 <==> state.marker == Some(r.0[0]))
      && |r.0| == |state.snake| + (if r.1 then 1 else 0)
      && (forall i :: 1 <= i < |r.0| ==> r.0[i] == state.snake[i - 1])
    ensures state.marker.None? ==> !r.1
  {
    if |state.snake| == 0 then
      ([ORIGIN], false)
    else
      var head := IncrementPosition(state.snake[0], state.direction);
      var collectedMarker := match state.marker
        case Some(m) => m == head
        case None => false;
      var updated := [head] + state.snake;
      if collectedMarker then (updated, true)
      else (updated[..|updated| - 1], false)
  }

  /** True iff the oracle offers at least one cell outside `snake`. */
  predicate HasFreeCandidate(snake: seq<Position>, candidates: seq<Position>) {
    exists i :: 0 <= i < |candidates| && candidates[i] !in snake
  }

  /** Index of the first candidate that is not part of the snake. */
  function FirstFree(snake: seq<Position>, candidates: seq<Position>): (i: nat)
    requires HasFreeCandidate(snake, candidates)
    ensures i < |candidates| && candidates[i] !in snake
    ensures forall j :: 0 <= j < i ==> candidates[j] in snake
    decreases |candidates|
  {
    if candidates[0] !in snake then 0
    else
      assert HasFreeCandidate(snake, candidates[1..]) by {
        var k :| 0 <= k < |candidates| && candidates[k] !in snake;
        assert candidates[1..][k - 1] == candidates[k];
      }
      1 + FirstFree(snake, candidates[1..])
  }

  /**
   Rejection sampling of a new marker: the candidates stand for the
   successive random draws, and the first draw not on the snake is kept.
   */
  function SpawnMarker(snake: seq<Position>, candidates: seq<Position>): (p: Position)
    requires HasFreeCandidate(snake, candidates)
    ensures p in candidates
    ensures p !in snake
  {
    candidates[FirstFree(snake, candidates)]
  }

  /**
   True iff ticking `g` with spawn counter `counter` spawns a marker: the
   game is running and either the move collects the marker or the
   incremented counter reaches a multiple of SPAWN_PERIOD.
   */
  predicate SpawnDue(g: Game, counter: int) {
    g.Running? && (UpdateSnake(g.state).1 || (counter + 1) % SPAWN_PERIOD == 0)
  }

  /** The oracle can serve the spawn of this tick, if there is one. */
  predicate TickReady(g: Game, counter: int, candidates: seq<Position>) {
    SpawnDue(g, counter) ==> HasFreeCandidate(UpdateSnake(g.state).0, candidates)
  }

  /**
   One simulation step. Returns the next game and the next value of the
   external spawn counter. Only a running game changes; the counter is
   incremented in every phase and reset to 0 when a marker spawns.
   */
  function Tick(g: Game, counter: int, candidates: seq<Position>): (r: (Game, int))
    requires TickReady(g, counter, candidates)
    ensures !g.Running? ==> r == (g, counter + 1)
    ensures g.Running? ==>
      && r.0.Running?
      && r.0.state.direction == g.state.direction
      && r.0.state.snake == UpdateSnake(g.state).0
    ensures g.Running? ==> (r.1 == 0 <==> SpawnDue(g, counter))
    ensures SpawnDue(g, counter) ==>
      && r.0.state.collected == g.state.collected + 1
      && r.0.state.marker.Some?
      && r.0.state.marker.value !in r.0.state.snake
      && r.0.state.marker.value in candidates
    ensures g.Running? && !SpawnDue(g, counter) ==>
      && r.1 == counter + 1
      && r.0.state.collected == g.state.collected
      && r.0.state.marker == g.state.marker
  {
    var next := counter + 1;
    match g
    case NotStarted => (g, next)
    case Finished(_) => (g, next)
    case Running(state) =>
      var (snake, collectedMarker) := UpdateSnake(state);
      if collectedMarker || next % SPAWN_PERIOD == 0 then
        var marker := SpawnMarker(snake, candidates);
        (Running(RunningState(state.direction, snake, Some(marker), state.collected + 1)), 0)
      else
        (Running(state.(snake := snake)), next)
  }

  /** Replaces the direction of a running game; any direction is accepted. */
  function ChangeDirection(g: Game, d: Option<Direction>): (r: Game)
    ensures g.Running? && d.Some? ==>
      && r.Running?
      && r.state.direction == d.value
      && r.state.snake == g.state.snake
      && r.state.marker == g.state.marker
      && r.state.collected == g.state.collected
    ensures !(g.Running? && d.Some?) ==> r == g
  {
    match g
    case Running(state) =>
      (match d
       case Some(dir) => Running(state.(direction := dir))
       case None => g)
    case _ => g
  }
}
