# Conway's Game of Life on a clamped board

This project models the engine of a small Game of Life program written in
Rust. The board is a fixed-size grid of booleans (`true` = live). The
neighbourhood of a cell is its eight Moore neighbours, clamped at the edges:
positions off the board do not exist and are never read or counted. One
generation is computed into a fresh buffer from the previous generation only,
and the buffer then replaces the board.

The repository holds two variants of the engine, and both are modelled:

- `GameBoard` in `src/board.rs` (module `Board`): a `Vec<BitVec>` grid that is
  built all-dead or random, reset in place, edited by a bounds-checked `set`,
  and advanced by `update`. Its neighbour count clamps the window bounds with
  `max(v, 1) - 1` and `min(v + 1, len - 1)`.
- The older free functions and the `GameState` event handler in `src/main.rs`
  (module `Game`): `new_board`, `get_surroundings` (which walks the full 3x3
  window and tests every position against the board's bounds), `update` gated
  by the `paused` flag, the mouse handlers with their drag flags, and the
  P/R/C keys.

Module `Life` holds the rules both variants are proved against. `Neighbors`
is the reference count, written as the sum of the eight neighbour cells.
`NextGen` is the next generation. `Initial`, `Dead` and `SetCell` describe
construction, clearing and a cell write. The module also holds lemmas: both
counting loops compute `Neighbors`, the two loops agree, and a few
consequences of the rule hold. Module `Patterns` proves the blinker and the
block on any board large enough to hold them.

The grid is a `seq<seq<bool>>` field that the methods reassign. The random
generator (`rand::random::<bool>()`) is a caller-supplied `coin`: the boolean
drawn for cell (x, y). Contracts about random boards therefore say only that
each cell holds its draw and that the dimensions are right.

## Model

| member | source | states |
|---|---|---|
| `Life.Neighbors` | src/board.rs:46-63 | the neighbour count of any position is at most 8 |
| `Life.NextGen` | src/board.rs:65-81 | the next generation has the same number of rows, each of the same length |
| `Life.NextGenRule` | src/board.rs:74-76 | a live cell survives iff it has 2 or 3 live neighbours; a dead cell is born iff it has exactly 3; counts come from the previous generation |
| `Life.NextGenKeepsShape` | src/board.rs:68 | a `w` x `h` board steps to a `w` x `h` board |
| `Life.NextGenFrom` | src/board.rs:70-80 | a buffer of the board's shape whose every cell holds the rule's value is exactly the next generation |
| `Life.Initial` | src/board.rs:13-27 | construction gives exactly `h` rows of `w` cells, each the random draw when `random` and dead otherwise |
| `Life.Dead` | src/main.rs:85-101 | the all-dead board has `h` rows of `w` cells, all dead |
| `Life.InitialNotRandom` | src/board.rs:18-19 | building with `random = false` gives the all-dead board |
| `Life.SetCell` | src/board.rs:40-44 | an on-board write sets that cell to `v` and keeps every row length; an off-board write changes nothing |
| `Life.SetCellKeepsOthers` | src/board.rs:41-42 | a write leaves every other cell unchanged |
| `Life.ClampBounds` | src/board.rs:49-52 | for an on-board coordinate the clamped bounds stay on the board and are `v - 1` / `v + 1` except at the edges |
| `Life.WindowIsNeighbors` | src/main.rs:106-113 | the bounds-tested 3x3 walk counts exactly the live Moore neighbours, for every (x, y) |
| `Life.ClampedWindowAgree` | src/board.rs:49-60 | for an on-board cell the clamped walk of board.rs adds up the same cells as the bounds-tested walk of main.rs |
| `Life.ClampedIsNeighbors` | src/board.rs:49-60 | the clamped walk counts exactly the live Moore neighbours |
| `Life.NeighborsIgnoreOwnCell` | src/board.rs:56 | a cell's own state never changes its own neighbour count |
| `Life.CornerHasThreeNeighbors` | src/board.rs:49-52 | the corner (0, 0) has at most 3 live neighbours |
| `Life.DeadHasNoNeighbors` | src/board.rs:46-63 | on a dead board every neighbour count is 0 |
| `Life.DeadIsFixedPoint` | src/board.rs:65-81 | the all-dead board is a fixed point of the step |
| `Board.GameBoard.constructor` | src/board.rs:13-27 | `new(w, h, random)` builds the rectangular board `Initial(w, h, random, coin)` |
| `Board.GameBoard.Recreate` | src/board.rs:29-38 | every cell becomes its draw (random) or dead; the row count and row lengths are unchanged |
| `Board.GameBoard.Set` | src/board.rs:40-44 | the board becomes `SetCell(old board, x, y, value)`: an on-board cell is set, an off-board coordinate changes nothing |
| `Board.GameBoard.NeighborCount` | src/board.rs:46-63 | for an on-board cell of a non-empty board the clamped loop returns `Neighbors`, which is at most 8, and reads only on-board cells |
| `Board.GameBoard.Update` | src/board.rs:65-81 | the board becomes `NextGen` of the old board, computed from the old board only; a board without rows is left as it is |
| `Board.ClearThenStep` | src/board.rs:29-81 | a random board cleared with `recreate(false)` and then stepped is the dead board of the same size |
| `Game.NewBoard` | src/main.rs:85-101 | `new_board` gives `game_height` rows of `game_width` cells, each the draw when `random` and dead otherwise |
| `Game.GetSurroundings` | src/main.rs:103-117 | for every (x, y), inside or outside the board, the result is `Neighbors` (so in 0..8), and only on-board cells are indexed |
| `Game.GameState.constructor` | src/main.rs:62-82 | the initial state is a random board of the configured size, not paused, no button held |
| `Game.GameState.Update` | src/main.rs:120-155 | when paused nothing changes; otherwise the board is replaced wholesale by `NextGen` of the old board; the flags are unchanged |
| `Game.GameState.MouseButtonDown` | src/main.rs:181-198 | an off-board tile changes nothing; left sets the cell live and starts a left drag, right sets it dead and starts a right drag, other buttons leave board and flags alone |
| `Game.GameState.MouseButtonUp` | src/main.rs:200-206 | releasing left clears the left drag flag, releasing right clears the right one; the board is unchanged |
| `Game.GameState.MouseMotion` | src/main.rs:208-223 | during a drag an on-board tile becomes live (left drag, which wins when both flags are set) or dead (right drag); off the board or without a drag nothing changes |
| `Game.GameState.KeyDown` | src/main.rs:232-245 | a non-repeat P toggles `paused`, R replaces the board with a random one and C with the dead board of the same size; repeats change nothing |
| `Patterns.BlinkerOscillates` | src/board.rs:65-81 | a horizontal bar of three away from the edges turns vertical in one step and back in the next |
| `Patterns.BlockIsStill` | src/board.rs:65-81 | a 2x2 block anywhere on the board is unchanged by a step, even against an edge |
| `Patterns.StillLifeForever` | src/board.rs:65-81 | a board that one step leaves unchanged stays unchanged for any number of steps |

## Left out

- `GameBoard::batch` (src/board.rs:83-97) and `draw` in src/main.rs build sprite batches and draw them; they are rendering with float pixel positions.
- src/state.rs is not part of this model. It is event-loop glue around `GameBoard`: window-size queries, float-to-tile casts and `button_pressed`.
- The pixel-to-tile conversion in the mouse handlers (a float division cast to `usize`) is not modelled. The handlers take the tile coordinates as natural numbers.
- The `slowness` delay is not modelled: the mouse wheel handler, the middle button resetting it to 0 and the `sleep` in `update`. It is floating point and only times the loop.
- `quit` on Escape, `main`, window setup and `present`/`clear` are I/O into the graphics library.
- `rand::random` is replaced by the caller's `coin`. The model makes no claim about the distribution of the draws or about the row-major order in which they are drawn.
- Integer widths are not modelled. `usize`, `u32` and `i32` are unbounded integers here, and `GameConfig`'s `i32` fields are natural numbers. They only ever hold the constants 190, 100 and 10, so no arithmetic in the core can overflow.
- Board.GameBoard.NeighborCount: requires a non-empty board and an on-board (x, y). The Rust function is private and `update` calls it only that way. On an empty board its `len() - 1` would underflow.
- The glider's period-4 translation is not proved. Each of its four steps needs a case split over every cell near the glider, and the cell-by-cell method used for the blinker and the block does not get through that split.
