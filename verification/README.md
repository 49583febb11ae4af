# Block game: a Dafny model of the board and the session state machine

`blockgame.py` is a single-player reaction game on a 3×4 board. Blocks spawn in a random
column of the top row. Each "gravity" step discards the bottom row and lets every other
row fall by one. The player presses Left, Down or Right to hit the column that holds a
block in the bottom row. A hit scores a point and advances the board. A miss counts a
mistake, and every mistake adds half a second to the 10.1-second countdown. `space`
quits a running game or restarts an ended one.

This project models two parts of that program:

- **The board** (`Boards`, with coordinates from `Blocks`). The grid is a `map<Cell, Block>` keyed
  by `(x, y)`. Every loop of `delete_row` and `move_down_rows` is a recursive function
  that follows the loop iteration by iteration, including the unchecked overwrite in
  `move_down_rows`. The well-formedness invariant says that every key lies on the board
  and every stored block's `x`/`y` equals its key.
- **The session** (`Blockgame`). `Game` holds the board, the timer, `active_game`,
  `is_restarting`, `setup_rows`, `score` and `mistakes`. Every method of `Blockgame` and
  every callback it passes to `win.after` is a pure transition. A transition returns the
  new session together with the callbacks it scheduled (`Pending = After(delayMs, callback)`).
  The clock is an integer millisecond reading `now`, and the random spawn column `col` is
  a parameter with `0 <= col < 3`.
- **The timer** (`Timers`). It is either `NotStarted`, standing for Python's sentinel
  `time == 0`, or `StartedAt(start)`. The reading is `now - start + 500 * mistakes`
  milliseconds, and the time is up at 10100 ms.
- **The callback queue** (`Scheduler`). A system is a session together with its pending
  callbacks. Any pending callback may fire next and any key may arrive at any moment,
  so every ordering the real delays allow is covered. The restart guard invariant holds
  on every such run: `is_restarting` is raised exactly while one `change_restarting` is
  pending. `set_up_board` and `animate_time` callbacks left over from an earlier restart
  may still be pending and act on a new session (`StaleSetUpTickActs`).
- **Scenario lemmas** (`GameProperties`). They combine several transitions: the setup
  phase filling the board, a first hit, the countdown expiring, the restart debounce,
  and the input gate.

Three behaviours of `blockgame.py` worth knowing:

- `add_block` silently replaces an existing block at the same cell.
- The game ends when the reading reaches 10.1 s. At 10.099 s with no mistakes the game
  is still running (`TenPointOneSecondsEndGame`).
- The timer starts at the first `animate_time`, which `restart` schedules 3 s after it
  runs.

## Model

| member | source | states |
|---|---|---|
| Blocks.MoveInverse | blockgame.py:45-54 | `Block.Move`, the model of the coordinate part of `move`: `move(dx, dy)` shifts the block's coordinates by exactly (dx, dy), keeps its colour, and moving back by (-dx, -dy) restores the block |
| Boards.AddBlock | blockgame.py:105-106 | the block's own cell becomes a key mapped to it (replacing any previous entry), every other key and value is unchanged, and no other key appears |
| Boards.AddBlockOccupies | blockgame.py:88-106 | after `add_block`, `is_block_there` is true at the block's coordinates and unchanged everywhere else; adding an on-board block keeps the board well-formed |
| Boards.StoredBlockIsThere | blockgame.py:30-43 | `IsBlockThere`, the model of `Board.is_block_there`: `Block.is_block_there` holds for every block stored on a well-formed board |
| Boards.DeleteRowUpTo | blockgame.py:108-112 | after the first n iterations of the `delete_row` loop, exactly the cells (0..n-1, y) are gone and every remaining value is untouched |
| Boards.DeleteRow | blockgame.py:108-112 | `delete_row(y)` removes exactly the keys (x, y) with 0 <= x < width; every other entry keeps its key and block |
| Boards.DeleteRowClears | blockgame.py:88-112 | after `delete_row(y)`, `is_block_there` is false along row y and unchanged elsewhere; well-formedness is kept |
| Boards.MoveRowEffect | blockgame.py:117-122 | `MoveRowUpTo` (one `MoveCell` per iteration), the model of the inner loop of `move_down_rows`: on row y it vacates the visited cells, lands each block one row lower with y+1 coordinates, keeps a block below only when nothing fell on it, and touches no other cell |
| Boards.MoveDownRowsFrame | blockgame.py:115-122 | `MoveDownRows`, the model of `move_down_rows(y_start)`, changes nothing outside columns [0, width) and rows [0, y_start+1] |
| Boards.MoveDownRowsLands | blockgame.py:115-122 | every block in rows 0..y_start ends one row lower with its coordinates advanced, whatever row y_start+1 held: a block already there is overwritten |
| Boards.MoveDownRowsOrigin | blockgame.py:115-122 | when row y_start+1 starts empty, every block left in rows 0..y_start+1 fell from the cell just above it, so nothing is duplicated and row 0 ends empty |
| Boards.UpdateBoard | blockgame.py:124-126 | the gravity step keeps the board's dimensions |
| Boards.UpdateBoardLands | blockgame.py:115-126 | after the gravity step every block above the bottom row sits one row lower, its `x`/`y` equal to its new key |
| Boards.UpdateBoardOrigin | blockgame.py:115-126 | after the gravity step every block on the board fell from the cell just above it: the old bottom row is discarded, and rows 1..height-1 hold only former blocks of rows 0..height-2 |
| Boards.UpdateBoardShifts | blockgame.py:115-126 | the gravity step keeps a board well-formed and leaves row 0 empty |
| Boards.UpdateBoardOccupancy | blockgame.py:115-126 | for 0 <= y <= height-2, cell (x, y+1) is occupied after the gravity step if and only if (x, y) was occupied before |
| Boards.UpdateBoardCount | blockgame.py:115-126 | the occupied cells after the gravity step are exactly the upper blocks' cells moved one row down, and the block count drops by exactly the size of the old bottom row, so no block is lost or duplicated |
| Timers.GetTimeAtStart | blockgame.py:178-188 | `GetTime`, `StartTime` and `ResetTime` model `get_time`, `start_time` and `reset_time`: a reset timer reads 0 whatever the clock; right after `start_time` the reading is exactly the mistakes' penalty, so 0 with no mistakes |
| Timers.GetTimeMonotone | blockgame.py:178-182 | the reading is monotone in the clock and in the mistakes, and each extra mistake adds exactly 500 ms to a running timer |
| Blockgame.Defaults | blockgame.py:246-251 | the class-attribute defaults form a valid, inactive, unguarded session with an empty board |
| Blockgame.CreateNewBlock | blockgame.py:286-287 | a new block sits in column `col` of row 0, on the board |
| Blockgame.AdvanceBoard | blockgame.py:289-292 | `update_board` keeps the dimensions, and on a well-formed board with an on-board spawn column it keeps every key inside the board (so within [0, 3)×[0, 4) for the game's board) with matching coordinates |
| Blockgame.AdvanceKeepsWellFormed | blockgame.py:289-292 | the gravity step followed by a spawn in an on-board column keeps the board well-formed |
| Blockgame.AdvanceBoardSpawns | blockgame.py:289-292 | after `update_board`, row 0 holds exactly one block, the new white block in column `col` |
| Blockgame.AdvanceBoardShiftsRows | blockgame.py:289-292 | after `update_board`, for 1 <= y < height, (x, y) is occupied if and only if (x, y-1) was occupied before |
| Blockgame.AdvanceBoardMovesBlocks | blockgame.py:289-292 | after `update_board`, every block above the bottom row is found one row lower, its coordinates advanced |
| Blockgame.AdvanceBoardCount | blockgame.py:289-292 | `update_board` adds exactly one block and loses exactly the old bottom row's blocks |
| Blockgame.UpdateGameBoard | blockgame.py:289-292 | only the board changes, and the session invariant is kept |
| Blockgame.ClearRows | blockgame.py:306-307 | after deleting rows 0..n-1 in turn, exactly the on-board cells of those rows are gone and every remaining block is untouched |
| Blockgame.EndGame | blockgame.py:302-307 | `end_game` makes the game inactive, changes nothing but the board and that flag, keeps the board's dimensions, leaves no block in rows 0..3 and every other block in place; a valid board ends up empty |
| Blockgame.ChangeRestarting | blockgame.py:310-314 | `change_restarting` flips the guard and nothing else |
| Blockgame.SetUpBoard | blockgame.py:294-300 | `set_up_board` advances the board, counts a row and reschedules itself after 1000 ms only while fewer than 4 rows are placed and the game is active; otherwise it does nothing; `setup_rows` never exceeds 4 |
| Blockgame.Restart | blockgame.py:316-331 | `restart` is a no-op while restarting; otherwise it raises the guard, activates the game, zeroes score and mistakes, resets the timer, places one setup row, and schedules `set_up_board`, `animate_time` and `change_restarting` |
| Blockgame.AnimateTime | blockgame.py:277-284 | `animate_time` starts a stopped timer; the game stays active exactly when it was active and the time is not up; it reschedules itself after 10 ms exactly when the game stays active; it wipes the board exactly when it ends the game |
| Blockgame.DoMove | blockgame.py:334-347 | an arrow key returns whether its bottom-row target is occupied; a hit advances the board and adds one point, a miss adds one mistake and changes nothing else; `space` ends the game unless restarting; other keys change nothing |
| Blockgame.KeyPressed | blockgame.py:350-355 | arrows and `space` reach `do_move` only on an active game whose time is not up; `space` on an inactive game restarts it; every other key press changes nothing |
| Blockgame.Construct | blockgame.py:253-267 | the constructor leaves a valid, active, restarting session with one setup row placed and one block on the board |
| GameProperties.AdvanceRowIs | blockgame.py:289-292 | `update_board` carries each row's content one row down and puts the new block alone in row 0 |
| GameProperties.SetUpTick | blockgame.py:294-300 | one setup tick shifts rows 0..2 into rows 1..3 and spawns into row 0 |
| GameProperties.OneBlockPerRowFixesGrid | blockgame.py:294-300 | on a well-formed 3×4 board, one block per row means the grid holds exactly those four cells |
| GameProperties.SetupFillsBoard | blockgame.py:294-331 | after `restart` and three `set_up_board` ticks, the board holds exactly 4 blocks, one per row with the oldest at the bottom; setup rows are 4, score and mistakes are 0, and a fifth tick does nothing |
| GameProperties.HitShiftsRows | blockgame.py:334-340 | with one block per row, pressing the bottom block's arrow is a hit that adds one point, keeps the mistakes, and shifts every row down under the new block |
| GameProperties.FirstHit | blockgame.py:316-340 | after setup, pressing the arrow matching the bottom block gives score 1, mistakes 0, and the four rows shifted down by one under the new block |
| GameProperties.TimeUpEndsGame | blockgame.py:270-284 | with `TimeUp` modelling `time_up` as a reading of at least 10100 ms: once the reading reaches 10100 ms, `animate_time` ends an active game, wipes the board and stops; before that it leaves the session as it is and reschedules itself after 10 ms |
| GameProperties.TenPointOneSecondsEndGame | blockgame.py:270-274 | with no mistakes the game is still active at 10099 ms and ended, with an empty board, at 10100 ms |
| GameProperties.MissBringsEndCloser | blockgame.py:341-345 | a miss adds exactly 500 ms to a running timer's reading and never turns an expired countdown back on |
| GameProperties.DoMoveChangesOneCounter | blockgame.py:334-345 | an arrow key changes exactly one counter, by exactly one: the score on a hit (and only then), the mistakes on a miss, and a miss leaves the board alone |
| GameProperties.RestartDebounced | blockgame.py:316-331 | while a restart is in flight, a second `restart` and a `space` press leave the first restart's state and schedule nothing |
| GameProperties.KeyPressedGate | blockgame.py:350-355 | a key press changes the session only via `do_move` on an active, unexpired game or via a `space` restart of an inactive, unguarded one; only that restart raises the guard or schedules callbacks |
| GameProperties.ChangeRestartingInvolution | blockgame.py:310-314 | toggling the guard twice restores the session |
| Scheduler.RunCallback | blockgame.py:277-314 | of the three scheduled callbacks only `change_restarting` flips the guard; none of them schedules a `change_restarting`; validity is kept |
| Scheduler.KeyPressedGuard | blockgame.py:350-355 | a key press never lowers the guard and schedules one `change_restarting` exactly when it raises the guard |
| Scheduler.Fire | blockgame.py:330-331 | firing a pending callback keeps the restart guard invariant |
| Scheduler.Press | blockgame.py:350-355 | a key press keeps the restart guard invariant |
| Scheduler.Apply | blockgame.py:277-355 | every event keeps the restart guard invariant |
| Scheduler.Init | blockgame.py:253-267 | the constructed game, with the callbacks its constructor scheduled, satisfies the invariant |
| Scheduler.RunKeepsInv | blockgame.py:310-331 | the invariant holds after every sequence of events |
| Scheduler.AtMostOneRestartInFlight | blockgame.py:310-331 | from construction on, whatever happens, at most one `change_restarting` is pending, and the guard is up exactly while it is |
| Scheduler.GuardReleases | blockgame.py:310-314 | firing the pending `change_restarting` lowers the guard and leaves none pending |
| Scheduler.StaleSetUpTickActs | blockgame.py:294-300 | a pending `set_up_board` acts on any active session with rows left to place, whichever restart scheduled it: it places a row and reschedules itself, so the number of pending setup ticks does not drop and a tick left over from a quit session runs alongside the new session's own |

## Left out

- Rendering is not modelled: drawing and undrawing blocks and messages, `game_over`, `undraw_game_over`, `begin_game`, `count_down`, the scoreboard's text updates, and the timer's seconds/tenths display in `update_time` and `draw_time`. These call a graphics library whose code is not part of this model.
- The pixel geometry of `Block.__init__` and the pixel offset in `Block.move` are left out. Only the integer `x`/`y` bookkeeping is modelled.
- The `current_block` attribute set by `Blockgame.update_board` is left out. It is only used for drawing.
- `time.time()` returns float seconds; the model uses an integer millisecond reading `now`. Readings that differ only below a millisecond are not distinguished, and the 10.1 threshold and the 0.5 s penalty become 10100 and 500.
- `random.randint(0, 2)` becomes the parameter `col`, which must satisfy `0 <= col < 3`.
- `win.after`, `bind_all` and `mainloop` are not modelled as such. Each scheduled call is returned as a `Pending` value, and `Scheduler` lets any pending callback fire in any order. Real delays are not modelled: properties that depend on timing, such as which of two pending callbacks fires first, are not stated.
- The module-level start-up code (`win`, `game`, `mainloop`) is left out.
