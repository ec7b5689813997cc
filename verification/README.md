# Snake game state machine in Dafny

This project models the game core of a small grid snake game (`src/game.rs`).
That core is the three-phase `Game` (not started, running, finished), the
`RunningState` of a round, the per-tick update (`tick`, `update_snake`,
`increment_position`, `spawn_marker`), the direction setter and the two
lifecycle constructors. Every operation is a pure function over immutable
datatypes. A tick takes the game and the spawn counter owned by the caller,
and returns the next game and the next counter.

Marker placement in the game is random. Here it is an oracle: each tick gets a
finite sequence of candidate positions, which stand for the successive random
draws. `SpawnMarker` keeps the first candidate not on the snake, the same way
`spawn_marker`'s rejection sampling keeps the first draw not on the snake. A tick
that spawns requires that some candidate is free (`TickReady`). A tick that
does not spawn requires nothing.

Files:
- `game.dfy`, module `SnakeGame`: the datatypes, the constants `GAME_LEVEL = 5`
  and `GRID_SIZE = 32`, and the operations.
- `properties.dfy`, module `SnakeProperties`: lemmas about movement, the snake
  after a move, marker choice, the invariant kept by ticks and direction
  changes, and runs of many ticks.

Behaviour of the code worth noting:
- Nothing detects collisions or leaving the grid. A tick never produces
  `Finished`, and the head may leave the 32×32 grid, including into negative
  coordinates (`TickKeepsPhase`, `StartedRoundNeverFinishes`, `HeadLeavesGrid`).
- Nothing rejects reversals. `change_direction` accepts any direction
  (`ChangeDirectionAcceptsReversal`).
- The starting snake is the single cell `(0,0)` (src/game.rs:41).
- `collected` counts spawns, not pickups. It goes up on every spawn, including
  a spawn caused by the counter timing out.
- A tick on a game that is not running still returns `counter + 1`.

## Model

| member | source | states |
|---|---|---|
| SnakeGame.New | src/game.rs:33-35 | a new game has not started |
| SnakeGame.Start | src/game.rs:38-45 | starting gives a running round heading right, with snake `[(0,0)]`, no marker and nothing collected, whatever the previous phase |
| SnakeGame.IncrementPosition | src/game.rs:134-141 | Up gives y−1, Down gives y+1, Right gives x+1, Left gives x−1, and the other coordinate is kept |
| SnakeGame.UpdateSnake | src/game.rs:115-132 | an empty snake becomes `[(0,0)]` and reports no pickup. Otherwise the new head is the old head moved in the current direction. The pickup flag is true iff a marker exists and equals the new head. The length grows by one exactly on a pickup. Every later cell is the old cell one index earlier |
| SnakeGame.FirstFree | src/game.rs:106-113 | the chosen draw is free, and every earlier draw lies on the snake |
| SnakeGame.SpawnMarker | src/game.rs:106-113 | the spawned marker is one of the draws and not on the snake |
| SnakeGame.Tick | src/game.rs:47-63 | a game that is not running is unchanged and the counter goes to `counter + 1`. A running game stays running, keeps its direction and takes the moved snake. The returned counter is 0 iff a spawn is due, which means a pickup or `(counter + 1) % 25 == 0`. A spawn puts a marker off the new snake and adds one to `collected`. Without a spawn, the counter becomes `counter + 1` and the marker and `collected` are kept |
| SnakeGame.ChangeDirection | src/game.rs:65-71 | on a running game with `Some(d)` the direction becomes `d` and snake, marker and count are kept. With `None`, or on any other phase, the game is unchanged |
| SnakeProperties.MoveIsUnitStep | src/game.rs:134-141 | a move changes exactly one coordinate, by exactly one |
| SnakeProperties.MoveUndoneByOpposite | src/game.rs:134-141 | moving in the opposite direction undoes a move |
| SnakeProperties.MoveDistinguishesDirections | src/game.rs:134-141 | two directions lead to the same cell iff they are the same direction |
| SnakeProperties.UpdateSnakeDropsTailThenPrepends | src/game.rs:117-127 | inserting the head and then popping the tail gives the same snake as dropping the tail first and then prepending the head |
| SnakeProperties.UpdateSnakeBodyIsPrefix | src/game.rs:117-127 | behind the new head, the moved snake is a prefix of the old snake |
| SnakeProperties.UpdateSnakeKeepsConnected | src/game.rs:116-127 | if every cell of the snake shares a side with the next one, the same holds after a move |
| SnakeProperties.UpdateSnakeCells | src/game.rs:117-127 | every cell of the moved snake is the new head or a cell of the old snake |
| SnakeProperties.FirstFreeUnique | src/game.rs:106-113 | the first free draw is determined uniquely by its two defining conditions |
| SnakeProperties.SpawnMarkerRetries | src/game.rs:107-112 | a free first draw is kept. An occupied first draw is discarded and the spawn restarts on the remaining draws, like the recursive retry in `spawn_marker` |
| SnakeProperties.SpawnMarkerInGrid | src/game.rs:143-149 | when every draw lies in `[0, 32)²`, as `random_position` guarantees, the spawned marker does too |
| SnakeProperties.StartWellFormed | src/game.rs:38-45 | a started round satisfies the invariant, and starting does not depend on the previous game |
| SnakeProperties.TickPreservesWellFormed | src/game.rs:47-63 | a tick keeps the invariant: the snake is non-empty, connected (each cell shares a side with the next), at most `collected + 1` long, and no marker lies under it |
| SnakeProperties.ChangeDirectionPreservesWellFormed | src/game.rs:65-71 | a direction change keeps the invariant |
| SnakeProperties.TickKeepsPhase | src/game.rs:49-61 | a tick never changes the phase, so no round ever finishes |
| SnakeProperties.TickCounterBounded | src/game.rs:48-55 | on a running game, a counter in `[0, 25)` stays in `[0, 25)` |
| SnakeProperties.ChangeDirectionLastWins | src/game.rs:65-71 | of two direction changes, only the second one matters |
| SnakeProperties.ChangeDirectionIdempotent | src/game.rs:65-71 | repeating a direction change changes nothing more |
| SnakeProperties.ChangeDirectionAcceptsReversal | src/game.rs:65-71 | asking for the opposite of the current direction is accepted |
| SnakeProperties.HeadLeavesGrid | src/game.rs:47-63 | nothing bounds the head: turning up from the start and ticking once gives the snake `[(0,-1)]`, which is off the grid |
| SnakeProperties.FirstTickFromStart | src/game.rs:38-63 | the first tick of a fresh round with counter 0 moves the snake to `[(1,0)]`, spawns nothing and returns counter 1 |
| SnakeProperties.TimeoutSpawnCounts | src/game.rs:53-57 | with no pickup, a tick that brings the counter to 25 still spawns a marker, adds one to `collected` and resets the counter |
| SnakeProperties.TickManyPreservesWellFormed | src/game.rs:47-63 | any number of ticks, with the counter threaded from one to the next, keeps the invariant and whether the game is running. A game that is not running comes back unchanged, with the counter raised by the number of ticks |
| SnakeProperties.StartedRoundNeverFinishes | src/game.rs:38-63 | after any number of ticks a started round is still running and its snake has at most `collected + 1` cells |

## Left out

- `Game::render` (src/game.rs:73-103): drawing with the graphics library and floating-point pixel scaling. It changes no state.
- `println!` diagnostics in `tick` and `render`: output only, no state change.
- `random_position` (src/game.rs:143-149): the thread-local random generator is replaced by the candidate sequences given to `Tick`. The model does not capture the uniform distribution. Candidates are not restricted to the grid, although `random_position` only draws cells in `[0, 32)²` (`SpawnMarkerInGrid` covers in-grid draws). The model also does not capture the endless retry of `spawn_marker` (src/game.rs:108-109). That retry is possible whenever no free cell happens to be drawn, and certain once the snake covers all 1024 grid cells. A spawning tick requires a free candidate instead (`HasFreeCandidate`), which excludes both cases.
- `src/main.rs`: window creation, the event loop, font loading and the mapping from keys to directions. It is not part of this model.
- SnakeGame.Tick: `i32` overflow of the counter and of `collected` is not modelled; both are unbounded integers. The test "the counter is a multiple of 25" gives the same answer under Rust's truncating `%` and Dafny's Euclidean `%`.
- SnakeGame.IncrementPosition: `i32` overflow of the coordinates is not modelled; they are unbounded integers. Nothing in `tick` bounds the head, so enough moves in one direction would overflow the `i32` fields of `Position` (src/game.rs:13, 136-139).
