# Snake 2.0 simulation engine in Dafny

A verified model of the simulation engine of a browser Snake game (`index.js`). The
rendering, timer and browser plumbing are left out. The model keeps the program's
structure, one module per static class:

- `Grid`: headings, cells, the opposing-heading table and a single step along a heading.
- `ArenaFactory`: the `Arena` class. Its wall list grows by the perimeter cells on every
  `Build`. `ArenaBounds` derives the inclusive bounds one cell inside the walls.
- `SnakeFactory`: the `Snake` class. The body's head is its last cell. Heading requests
  wait in a FIFO queue, and each tick drains at most one of them, discarding reversals. A
  growth counter decides whether a move keeps the tail. `Valid` states that consecutive
  segments are one step apart and that the head is one step along the heading from the
  segment behind it.
- `FoodEngine`: the `Food` class. It places food on the box grid from a random draw and
  nudges it one box inward when it falls outside the range.
- `CollisionEngine`: the wall, food and self rules as pure functions, and the per-tick
  collision step.
- `GameHandler`: the `Game` class. It holds the scene (`Init`, `Loop`, `Death`), the
  score and the stored high score. `Tick` runs the current scene's body, and `KeyPress`
  handles Enter and the arrow keys.

The timer and the keyboard become a caller that invokes `Tick(kx, ky)` and
`KeyPress(key)` in sequence. `kx` and `ky` are the random draws for any food placed
during that tick.

The model keeps these behaviours of the code as written:

- `eat` overwrites the growth counter; it does not add to it.
- The death scene resets the snake and saves the high score on every tick it runs, not
  on the Enter press. An Enter that arrives before the first death tick therefore goes
  back to play without a reset and without saving the high score.
- The init scene's body runs on every tick while the title screen is shown. Each of
  those ticks appends another copy of the perimeter to the arena's wall list and places
  the food again.
- `reset` keeps the growth counter and the pending queue.

## Model

| member | source | states |
|---|---|---|
| `Grid.Opposite` | index.js:96-99 | the opposing heading differs from the heading and lies on the same axis |
| `Grid.OppositeInvolutive` | index.js:96-99 | the opposing-heading table is an involution |
| `Grid.Step` | index.js:137-156 | one move lands exactly `speed` away along one axis and keeps the other coordinate |
| `Grid.StepBack` | index.js:137-156 | stepping along the opposing heading undoes a step |
| `Grid.StepInjective` | index.js:137-156 | with non-zero speed, two headings reach the same cell iff they are equal |
| `ArenaFactory.TopBottom` | index.js:41-44 | the cells the first loop pushes from a column on; its contents are stated by `TopBottomStep`, `TopBottomOnWalls` and `TopBottomLength` |
| `ArenaFactory.LeftRight` | index.js:46-49 | the cells the second loop pushes from a row on; its contents are stated by `LeftRightStep`, `LeftRightOnWalls` and `LeftRightLength` |
| `ArenaFactory.Perimeter` | index.js:41-54 | one build appends at least the far corner, and appends it last; it appends only that corner iff both sides are non-positive, so neither loop runs |
| `ArenaFactory.TopBottomStep` | index.js:41-44 | pushing one top/bottom pair moves one column from the cells still to push to the cells pushed |
| `ArenaFactory.LeftRightStep` | index.js:46-49 | pushing one left/right pair moves one row from the cells still to push to the cells pushed |
| `ArenaFactory.PerimeterOnBorder` | index.js:41-54 | every cell one build appends lies on column 0, column `length`, row 0 or row `height` |
| `ArenaFactory.TopBottomOnWalls` | index.js:41-44 | every cell of the first build loop is on row 0 or row `height`, with a column in `[0, length)` |
| `ArenaFactory.LeftRightOnWalls` | index.js:46-49 | every cell of the second build loop is on column 0 or column `length`, with a row in `[0, height)` |
| `ArenaFactory.TopBottomLength` | index.js:41-44 | the first loop pushes exactly two cells per box column |
| `ArenaFactory.LeftRightLength` | index.js:46-49 | the second loop pushes exactly two cells per box row |
| `ArenaFactory.PerimeterLength` | index.js:41-54 | for sides that are whole numbers of boxes, one build appends 2·L/S + 2·H/S + 1 cells |
| `ArenaFactory.Arena.constructor` | index.js:28-31 | a new arena has an empty wall list and is not built |
| `ArenaFactory.Arena.Built` | index.js:62 | the guard of `draw`, an unset size refusing to draw. Its meaning comes from the members around it: false for a new arena (`Arena.constructor`), true after `Arena.Build`, equivalent to the snake being initialized (`Game.Valid`), and `Game.Tick` reports `ok` iff the scene was init or it held |
| `ArenaFactory.Arena.Build` | index.js:39-59 | appends the perimeter to the existing wall list without clearing it, and records size, length and height |
| `ArenaFactory.Arena.ArenaBounds` | index.js:68-75 | for a positive size, the walls at 0 and at `length`/`height` lie strictly outside the bounds |
| `SnakeFactory.NextHeading` | index.js:124-134 | the new heading is never the reverse of the old one; the first request is adopted iff it is not a reversal; with no request the heading is kept |
| `SnakeFactory.Drained` | index.js:124-134 | exactly the first pending request is consumed, and none when the queue is empty |
| `SnakeFactory.Moved` | index.js:136-163 | one more cell with a growth credit, the same length without; the new head is one step from the old head; the rest is the old body, minus its tail when not growing |
| `SnakeFactory.MovedChained` | index.js:136-163 | a move keeps every consecutive pair of segments one step apart |
| `SnakeFactory.MovedTrailing` | index.js:136-163 | after a move the head is one step along the heading from the segment behind it |
| `SnakeFactory.NeckAvoided` | index.js:124-156 | whatever is queued, the next head never lands on the segment just behind the current head |
| `SnakeFactory.GrowthTicks` | index.js:158-162 | of the next n moves, min(counter, n) keep the tail when the counter is positive, and none otherwise |
| `SnakeFactory.Moves` | index.js:136-163 | after n moves along a fixed heading, the length grows by the growth ticks and the head is n·speed along the heading |
| `SnakeFactory.Snake.constructor` | index.js:80-86 | a new snake has no body, an empty queue, a zero counter and is not initialized |
| `SnakeFactory.Snake.Build` | index.js:88-102 | the first call pushes the start cell and sets heading, speed and size; later calls change nothing |
| `SnakeFactory.Snake.Head` | index.js:107-108 | the head is one of the body's segments (`HeadEndsBody` shows it is the last) |
| `SnakeFactory.Snake.HeadEndsBody` | index.js:107-108 | the body is the segments behind the head followed by the head itself |
| `SnakeFactory.Snake.Eat` | index.js:111-113 | the counter is overwritten with the growth size and nothing else changes |
| `SnakeFactory.Snake.SetDirection` | index.js:120-122 | the request is appended to the queue; the heading is untouched |
| `SnakeFactory.Snake.Update` | index.js:124-134 | the heading becomes `NextHeading` of the old heading and queue, and the queue is `Drained` |
| `SnakeFactory.Snake.MoveHead` | index.js:136-163 | the body becomes `Moved` with growth iff the counter is positive, and the counter is decremented only then; the chain invariant is kept |
| `SnakeFactory.Snake.Run` | index.js:165-170 | update then move; `Valid` is kept and the new head is never the old neck segment |
| `SnakeFactory.Snake.Reset` | index.js:172-177 | the body becomes the start cell and heading, speed and size are reset; counter and queue are kept |
| `FoodEngine.JsRem` | index.js:197-198 | the remainder takes the dividend's sign, is smaller than the divisor in magnitude, and leaves a multiple when removed |
| `FoodEngine.Aligned` | index.js:197-198 | the aligned value is a multiple of the box; for a non-negative draw it is the largest such multiple not above it |
| `FoodEngine.Placed` | index.js:196-204 | for a draw in `[0, upper)` with `upper > box`, the coordinate is in `[box, upper)` on the box grid; an aligned value already in range is not moved |
| `FoodEngine.Food.constructor` | index.js:190-192 | before the first placement both coordinates and the box size are unset (0 here) |
| `FoodEngine.Food.Generate` | index.js:196-207 | both coordinates are `Placed` against the arena's current upper bounds, and the box size is recorded |
| `CollisionEngine.HitWall` | index.js:227-232 | no wall hit iff the head lies within the inclusive bounds on both axes |
| `CollisionEngine.HitFood` | index.js:234-236 | a food hit iff the head equals the food cell exactly |
| `CollisionEngine.HitSelf` | index.js:238-240 | a self hit iff the head's cell occurs among the other segments; a one-cell snake never hits itself |
| `CollisionEngine.WallBoundExact` | index.js:227-232 | a head exactly on any bound is alive, and one step beyond it is a wall hit |
| `CollisionEngine.WallsOutsideBounds` | index.js:39-75 | every wall cell that build appends is a wall hit for the bounds the arena reports |
| `CollisionEngine.FoodInsideArena` | index.js:196-207 | food placed from in-range draws with box equal to the arena size is never a wall hit and is grid-aligned |
| `CollisionEngine.FoodHitIsNotWallHit` | index.js:196-236 | a head on food placed from in-range draws, with the arena's box size, is never a wall hit |
| `CollisionEngine.AteAndBitSelf` | index.js:234-252 | a head can hit the food and the body in the same tick, inside the walls, so `ate` and `died` both hold |
| `CollisionEngine.Run` | index.js:241-252 | on a food hit the counter becomes 5 and the food is respawned; otherwise food and counter are unchanged; `died` is a wall or self hit, independent of `ate` |
| `GameHandler.HighScoreAfter` | index.js:296-299 | the score is written iff nothing is stored or it beats the stored value; afterwards the stored value is the maximum of both |
| `GameHandler.ShownHighScore` | index.js:290-294 | the overlay shows the maximum of the score and the stored value |
| `GameHandler.ShownIsSaved` | index.js:290-299 | the overlay value equals what a death at that moment would store |
| `GameHandler.RightWallScenario` | index.js:227-232 | from x = 380 heading right at speed 20, the head is alive at x = 480 after five moves and hits the wall on the sixth |
| `GameHandler.GrowthAfterFood` | index.js:158-162 | after one food, length grows by one per move for five moves, then stays fixed |
| `GameHandler.Game.constructor` | index.js:263-277 | a session starts in the init scene with score 0 and nothing built |
| `GameHandler.Game.InitTick` | index.js:304-311 | appends another perimeter to the arena, builds the snake only once, and places the food with box size 20; the snake's drawing size is 20 |
| `GameHandler.Game.LoopTick` | index.js:313-320 | advances the snake (heading `NextHeading`, queue `Drained`, body `Moved`); a food hit adds exactly 1 to the score, sets the counter to 5 and respawns the food with box size 20, otherwise the food is kept; the scene becomes death iff a wall or self hit occurred |
| `GameHandler.Game.SetHighScore` | index.js:296-299 | the stored value becomes `HighScoreAfter` of the score |
| `GameHandler.Game.DeathTick` | index.js:322-328 | the snake is reset to (100, 100) heading right with size 20, counter and queue kept, and the high score is saved |
| `GameHandler.Game.Tick` | index.js:304-332 | dispatches on the scene. Init: appends the perimeter, builds the snake only once and places the food; food box and snake size are 20. Loop: the heading is `NextHeading`, the queue `Drained`, the body `Moved`, and the counter is set to 5, decremented or kept; a food hit adds 1 to the score and respawns the food with box size 20, otherwise the food is kept; the snake's size is kept; the scene becomes death iff there is a wall or self hit. Death: the snake is reset with size 20 and counter and queue kept, and the stored value becomes `HighScoreAfter` (at least the score). Only init touches the arena and only loop changes the score |
| `GameHandler.Game.KeyPress` | index.js:334-361 | Enter moves init or death to loop with score 0 and does nothing in loop; an arrow key appends its heading to the queue and leaves scene, score, body, heading, counter, speed, size and initialization unchanged, in any scene |

## Left out

- Rendering: `CanvasHandler`, every `draw`, `drawText` and `clear` call, `buildGameScreen`, `buildDeadScreen`, and the text of `drawScore`. They change no game state. Only the high-score value `drawScore` shows is modelled (`ShownHighScore`).
- The timer (`setInterval`) and the key listener: a caller invokes `Tick` and `KeyPress` one at a time, because ticks never overlap.
- `window.localStorage`: the stored high score is an `Option<int>` field. The comparison of the score with the stored string is taken as an integer comparison.
- `Math.random`, `FoodEngine.randomize` and floating-point arithmetic. Each tick takes integer draws `kx`, `ky` standing for `floor(rnd · upper)`.
- FoodEngine.Food.Generate: does not model floating-point rounding in `rnd · upper - (rnd · upper) % box`. With an integer draw this value equals the aligned value exactly.
- FoodEngine.Food.Generate: requires a positive box size. A zero box makes the source's coordinates NaN. The game always passes 20.
- ArenaFactory.Arena.Build: requires a positive size. With a size of zero or less and a positive side, the source's loops never terminate.
- SnakeFactory.Snake.Head: requires a non-empty body. The source's `getHead` returns `undefined` on an empty body and its callers then fail. `Game.Valid` shows this never happens during play.
- The reflective scene dispatch `this[scene]()` is a `match` on `Scene`.
- The string-keyed `opposingDirs` map is the total function `Opposite`. The "invalid direction" throw in `moveHead` cannot be reached with a `Dir` value.
- The missing-callback throw in `CollisionEngine.run`: the only caller always passes the callback, so the death transition is made directly on the returned `died`.
- The "Snake has not been initialized" throw in the snake's `draw` can never fire, because the body list is always an array.
- The draw guard of the arena is modelled: `Tick` returns `ok == false` and changes nothing in the loop or death scene when the arena was never built. This happens when Enter arrives before the first init tick.
- Values the source leaves `undefined` before `build` (heading, speed, size, counter) start as `Right`, 0, 0 and 0. The food's coordinates and box size start as 0 before the first `generate`. An undefined counter behaves like 0 in `counter > 0`.
- Numbers are unbounded integers. JavaScript's loss of precision above 2^53 is not modelled.
- `SnakeFactory.Moves` covers runs of moves with no turns and no food. Longer mixed histories are covered one tick at a time by `Game.Tick`.
- Food may be placed under the snake's body, as in the source. No lemma is needed for that.
