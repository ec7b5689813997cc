/**
 Properties of the snake state machine: movement geometry, the shape of
 the snake after a move, the choice of a spawned marker, the invariant
 every tick and direction change keeps, and the spawn counter's range.
 */
module SnakeProperties {
  import opened SnakeGame

  /** The direction that undoes a move in `d`. */
  function Opposite(d: Direction): Direction {
    match d
    case Up => Down
    case Down => Up
    case Left => Right
    case Right => Left
  }

  function Abs(n: int): nat {
    if n < 0 then -n else n
  }

  /** A move changes exactly one coordinate, by exactly one. */
  lemma MoveIsUnitStep(p: Position, d: Direction)
    ensures var q := IncrementPosition(p, d);
      || (q.x == p.x && Abs(q.y - p.y) == 1)
      || (q.y == p.y && Abs(q.x - p.x) == 1)
  {
  }

  /** Moving back in the opposite direction returns to the start cell. */
  lemma MoveUndoneByOpposite(p: Position, d: Direction)
    ensures IncrementPosition(IncrementPosition(p, d), Opposite(d)) == p
  {
  }

  /** The four directions lead from one cell to four different cells. */
  lemma MoveDistinguishesDirections(p: Position, d1: Direction, d2: Direction)
    ensures IncrementPosition(p, d1) == IncrementPosition(p, d2) <==> d1 == d2
  {
  }

  /**
   The move read the other way round: drop the tail unless the marker is
   collected, then put the new head in front.
   */
  lemma UpdateSnakeDropsTailThenPrepends(state: RunningState)
    requires |state.snake| > 0
    ensures var head := IncrementPosition(state.snake[0], state.direction);
      var r := UpdateSnake(state);
      r.0 == if r.1 then [head] + state.snake else [head] + state.snake[..|state.snake| - 1]
  {
  }

  /** Behind the new head, the moved snake is a prefix of the old one. */
  lemma UpdateSnakeBodyIsPrefix(state: RunningState)
    requires |state.snake| > 0
    ensures UpdateSnake(state).0[1..] <= state.snake
  {
    var r := UpdateSnake(state);
    assert forall i :: 0 <= i < |r.0[1..]| ==> r.0[1..][i] == state.snake[i];
  }

  /** A cell of the moved snake is its new head or a cell of the old snake. */
  lemma UpdateSnakeCells(state: RunningState, p: Position)
    requires |state.snake| > 0
    requires p in UpdateSnake(state).0
    ensures p == UpdateSnake(state).0[0] || p in state.snake
  {
    var r := UpdateSnake(state);
    var i :| 0 <= i < |r.0| && r.0[i] == p;
    if i > 0 {
      assert state.snake[i - 1] == p;
    }
  }

  /** The index chosen by FirstFree is the only one that fits its contract. */
  lemma FirstFreeUnique(snake: seq<Position>, candidates: seq<Position>, i: nat)
    requires i < |candidates| && candidates[i] !in snake
    requires forall j :: 0 <= j < i ==> candidates[j] in snake
    ensures HasFreeCandidate(snake, candidates)
    ensures FirstFree(snake, candidates) == i
  {
  }

  /**
   The spawn read as the recursive retry of `spawn_marker` in src/game.rs:
   a free first draw is kept, an occupied one is discarded and the next
   draw is tried.
   */
  lemma SpawnMarkerRetries(snake: seq<Position>, candidates: seq<Position>)
    requires HasFreeCandidate(snake, candidates)
    ensures candidates[0] !in snake ==> SpawnMarker(snake, candidates) == candidates[0]
    ensures candidates[0] in snake ==>
      && HasFreeCandidate(snake, candidates[1..])
      && SpawnMarker(snake, candidates) == SpawnMarker(snake, candidates[1..])
  {
    if candidates[0] in snake {
      var k := FirstFree(snake, candidates);
      assert candidates[1..][k - 1] == candidates[k];
      FirstFreeUnique(snake, candidates[1..], k - 1);
    }
  }

  /** Draws that lie on the grid give a marker on the grid. */
  lemma SpawnMarkerInGrid(snake: seq<Position>, candidates: seq<Position>)
    requires HasFreeCandidate(snake, candidates)
    requires forall i :: 0 <= i < |candidates| ==> InGrid(candidates[i])
    ensures InGrid(SpawnMarker(snake, candidates))
  {
  }

  /** Two cells share a side. */
  predicate Adjacent(p: Position, q: Position) {
    || (p.x == q.x && Abs(p.y - q.y) == 1)
    || (p.y == q.y && Abs(p.x - q.x) == 1)
  }

  /** Each cell of the snake shares a side with the next one. */
  predicate Connected(snake: seq<Position>) {
    forall i :: 0 <= i < |snake| - 1 ==> Adjacent(snake[i], snake[i + 1])
  }

  /** A move leaves a connected snake connected. */
  lemma UpdateSnakeKeepsConnected(state: RunningState)
    requires |state.snake| > 0
    requires Connected(state.snake)
    ensures Connected(UpdateSnake(state).0)
  {
    var r := UpdateSnake(state).0;
    MoveIsUnitStep(state.snake[0], state.direction);
    forall i | 0 <= i < |r| - 1
      ensures Adjacent(r[i], r[i + 1])
    {
      if i > 0 {
        assert r[i] == state.snake[i - 1] && r[i + 1] == state.snake[i];
      }
    }
  }

  /**
   The invariant of a running game: the snake is non-empty and connected,
   no marker lies under it, and it is never longer than one cell per spawn
   so far plus the starting cell.
   */
  predicate WellFormed(g: Game) {
    g.Running? ==>
      && 1 <= |g.state.snake| <= g.state.collected + 1
      && Connected(g.state.snake)
      && (g.state.marker.Some? ==> g.state.marker.value !in g.state.snake)
  }

  lemma StartWellFormed(g: Game)
    ensures WellFormed(Start(g))
    ensures Start(g) == Start(New())
  {
  }

  lemma TickPreservesWellFormed(g: Game, counter: int, candidates: seq<Position>)
    requires WellFormed(g)
    requires TickReady(g, counter, candidates)
    ensures WellFormed(Tick(g, counter, candidates).0)
  {
    if g.Running? {
      UpdateSnakeKeepsConnected(g.state);
    }
    if g.Running? && !SpawnDue(g, counter) && g.state.marker.Some? {
      var m := g.state.marker.value;
      if m in UpdateSnake(g.state).0 {
        UpdateSnakeCells(g.state, m);
        assert false;
      }
    }
  }

  lemma ChangeDirectionPreservesWellFormed(g: Game, d: Option<Direction>)
    requires WellFormed(g)
    ensures WellFormed(ChangeDirection(g, d))
  {
  }

  /** Ticking keeps the phase: a tick never starts or ends a round. */
  lemma TickKeepsPhase(g: Game, counter: int, candidates: seq<Position>)
    requires TickReady(g, counter, candidates)
    ensures var r := Tick(g, counter, candidates).0;
      && (r.NotStarted? <==> g.NotStarted?)
      && (r.Running? <==> g.Running?)
      && (r.Finished? <==> g.Finished?)
  {
  }

  /** For a running game the spawn counter stays within [0, SPAWN_PERIOD). */
  lemma TickCounterBounded(g: Game, counter: int, candidates: seq<Position>)
    requires g.Running?
    requires 0 <= counter < SPAWN_PERIOD
    requires TickReady(g, counter, candidates)
    ensures 0 <= Tick(g, counter, candidates).1 < SPAWN_PERIOD
  {
  }

  /** Only the last direction set before a tick matters. */
  lemma ChangeDirectionLastWins(g: Game, a: Direction, b: Direction)
    ensures ChangeDirection(ChangeDirection(g, Some(a)), Some(b)) == ChangeDirection(g, Some(b))
  {
  }

  /** Setting a direction twice is the same as setting it once. */
  lemma ChangeDirectionIdempotent(g: Game, d: Option<Direction>)
    ensures ChangeDirection(ChangeDirection(g, d), d) == ChangeDirection(g, d)
  {
  }

  /** No reversal guard: turning straight back is accepted. */
  lemma ChangeDirectionAcceptsReversal(g: Game)
    requires g.Running?
    ensures ChangeDirection(g, Some(Opposite(g.state.direction))).state.direction
      == Opposite(g.state.direction)
  {
  }

  /** Nothing bounds the head: heading up from the origin leaves the grid. */
  lemma HeadLeavesGrid(g: Game, candidates: seq<Position>)
    ensures var up := ChangeDirection(Start(g), Some(Up));
      && TickReady(up, 0, candidates)
      && Tick(up, 0, candidates).0.state.snake == [Position(0, -1)]
      && !InGrid(Tick(up, 0, candidates).0.state.snake[0])
  {
  }

  /** The first tick of a fresh round moves the one-cell snake to the right. */
  lemma FirstTickFromStart(g: Game, candidates: seq<Position>)
    ensures TickReady(Start(g), 0, candidates)
    ensures Tick(Start(g), 0, candidates)
      == (Running(RunningState(Right, [Position(1, 0)], None, 0)), 1)
  {
  }

  /** With no pickup, the SPAWN_PERIOD-th tick spawns a marker anyway and counts it. */
  lemma TimeoutSpawnCounts(g: Game, candidates: seq<Position>)
    requires HasFreeCandidate([Position(1, 0)], candidates)
    ensures TickReady(Start(g), SPAWN_PERIOD - 1, candidates)
    ensures var r := Tick(Start(g), SPAWN_PERIOD - 1, candidates);
      && r.1 == 0
      && r.0.state.collected == 1
      && r.0.state.snake == [Position(1, 0)]
      && r.0.state.marker == Some(SpawnMarker([Position(1, 0)], candidates))
  {
  }

  /**
   The oracle can serve every spawn of a run of ticks, each tick drawing
   from its own candidate sequence while the counter is threaded through.
   */
  predicate Feasible(g: Game, counter: int, draws: seq<seq<Position>>)
    decreases |draws|
  {
    |draws| == 0 ||
      (TickReady(g, counter, draws[0]) &&
       var r := Tick(g, counter, draws[0]);
       Feasible(r.0, r.1, draws[1..]))
  }

  /** The game and counter after one tick per element of `draws`. */
  function TickMany(g: Game, counter: int, draws: seq<seq<Position>>): (Game, int)
    requires Feasible(g, counter, draws)
    decreases |draws|
  {
    if |draws| == 0 then (g, counter)
    else
      var r := Tick(g, counter, draws[0]);
      TickMany(r.0, r.1, draws[1..])
  }

  /**
   Any number of ticks keeps the invariant and the phase; a game that is
   not running is left as it is while the counter goes up once per tick.
   */
  lemma {:induction false} TickManyPreservesWellFormed(g: Game, counter: int, draws: seq<seq<Position>>)
    requires WellFormed(g)
    requires Feasible(g, counter, draws)
    ensures WellFormed(TickMany(g, counter, draws).0)
    ensures TickMany(g, counter, draws).0.Running? <==> g.Running?
    ensures !g.Running? ==> TickMany(g, counter, draws) == (g, counter + |draws|)
    decreases |draws|
  {
    if |draws| > 0 {
      var r := Tick(g, counter, draws[0]);
      TickPreservesWellFormed(g, counter, draws[0]);
      TickManyPreservesWellFormed(r.0, r.1, draws[1..]);
    }
  }

  /** A round that was started never reaches the finished phase by ticking. */
  lemma {:induction false} StartedRoundNeverFinishes(g: Game, counter: int, draws: seq<seq<Position>>)
    requires Feasible(Start(g), counter, draws)
    ensures var r := TickMany(Start(g), counter, draws).0;
      && r.Running?
      && 1 <= |r.state.snake| <= r.state.collected + 1
  {
    StartWellFormed(g);
    TickManyPreservesWellFormed(Start(g), counter, draws);
  }
}
