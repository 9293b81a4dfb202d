# node-tetris game engine in Dafny

This project models the game engine of node-tetris, a Tetris that runs in a terminal. The
whole engine lives in `index.js`. The model covers these parts of it:

- **The seven pieces.** Their 0/1 matrices, how one is coloured, and how the random pick
  chooses among them (module `ShapeCatalog`).
- **Shape geometry.** Width and height of a shape, and the quarter turn `rotateShape`
  (module `Geometry`).
- **The board as a value.** The 20 x 10 board `INNER_FRAME`, and what drawing, removing and
  testing a block does to it. Clearing full rows (`scoreRow`) is described as a function
  (module `Board`).
- **The rules as functions on a game state.** A state is the board, `CURRENT_BLOCK`,
  `SCORE` and whether the game has ended. The rules are spawning a block, moving it,
  rotating it, the timer tick `drawGame`, the end of the game `endding`, and the keypress
  handler (module `Rules`).
- **The engine as the source runs it.** A class `Game` whose methods change the board array
  and the block, score and end fields in place, loop by loop as the source does. Each
  method is proved to carry out the matching rule of `Rules` (module `Engine`).

The engine's invariant is `Rules.ValidState`:

- the board is 20 x 10;
- the block lies inside the board;
- while the game runs, the block is drawn on the board.

Every rule is proved to keep this invariant. In particular the block never leaves the
board, so `checkConflict` never reads outside it.

The random draws are parameters. Each tick receives the shape name and colour of the block
it may spawn. `RandomRange` receives the value of `Math.random()` as an exact real in [0, 1), and computes its product over the reals.

The source's quirks are modelled as written:

- `checkConflict` answers true when the block can be placed.
- `moveCurrentBlock` tests the right and bottom edges with a `+ 1` for the one-cell step. For
  the unit steps its callers make, the early returns refuse exactly the moves that would take
  the block off the board (`Rules.RejectedIffLeavesBoard`).
- `rotateCurrentBlock` makes no conflict test.
- Without a block, `moveCurrentBlock` returns `undefined`; the model reads this as false.
- `endding` paints every cell with the array `[0, 0, 0]`. That array is not `0`, so a painted
  cell counts as occupied (`Rules.END_COLOR`).

## Model

| member | source | states |
|---|---|---|
| Geometry.Width | index.js:71 | The width of a well-formed shape is positive and equals the length of every row. |
| Geometry.ReverseAt | index.js:100 | `reverse` puts element `i` of a row at position `len-1-i`. |
| Geometry.Height | index.js:73 | `getShapeHeight` is the number of rows, positive for a well-formed shape. |
| Geometry.RotateShape | index.js:87-101 | `rotateShape` (transpose, then reverse each row) gives as many rows as the old width, each as long as the old height. `Geometry.RotateShapeCells` and the lemmas below state which cell goes where. |
| Geometry.RotateShapeCells | index.js:86-101 | A rotated shape is a rectangle with width and height swapped. New cell `(c, j)` is old cell `(h-1-j, c)`: a clockwise quarter turn. |
| Geometry.RotateExampleT | index.js:86-90 | Rotating the T piece gives the 3 x 2 matrix drawn in the comment above `rotateShape`. |
| Geometry.RotateTwice | index.js:86-101 | Two rotations turn the shape half a turn: same size, cell `(i, j)` comes from `(h-1-i, w-1-j)`. |
| Geometry.RotateFourTimes | index.js:86-101 | Four rotations give back the original matrix. |
| Geometry.RotateKeepsCellCount | index.js:86-101 | Rotation maps the set of non-zero cells by the quarter turn and keeps their number. |
| ShapeCatalog.Colorize | index.js:83 | The `rr ? [...color] : 0` mapping keeps the template's size. A cell is filled exactly where the template has a 1, and a filled cell holds the colour. |
| ShapeCatalog.ShapeOf | index.js:33-66 | A coloured catalogue piece is a rectangle of 1 to 3 columns and 1 to 4 rows. Each cell is empty or the given colour, and exactly four cells are filled. |
| ShapeCatalog.RandomRange | index.js:75 | `randomRange(f, t)` is at least `f`, and below `t` when `f < t`. |
| ShapeCatalog.PickName | index.js:81-82 | The pick as written never yields `T`. |
| ShapeCatalog.PickNameIntendedReachesAll | index.js:81-82 | The corrected pick yields every name, `T` included, for some value of `Math.random()`. |
| Board.EmptyGrid | index.js:140-147 | The initial board is 20 x 10. |
| Board.Stamp | index.js:151-162 | `drawShape` keeps the number and length of the rows. `Board.StampFootprint` states which cells change. |
| Board.Unstamp | index.js:164-174 | `removeShape` keeps the number and length of the rows. `Board.UnstampFootprint` states which cells change. |
| Board.Fits | index.js:246-256 | The result of `checkConflict`: every block fits on an empty board. `Board.FitsByShapeCells` ties it to the loop's cell-by-cell test. |
| Board.FootprintAt | index.js:151-158 | A board cell is under the block exactly when the shape cell over it is non-zero. |
| Board.StampFootprint | index.js:151-162 | `drawShape` keeps the board 20 x 10. Cells under the block take the shape's colour; all other cells keep theirs. |
| Board.UnstampFootprint | index.js:164-174 | `removeShape` keeps the board 20 x 10. Cells under the block become empty; all other cells keep theirs. |
| Board.StampTwice | index.js:151-162 | Drawing the same block twice is drawing it once. |
| Board.UnstampUndoesStamp | index.js:151-174 | Removing a block undoes drawing it exactly when the block fits, i.e. its cells were empty. |
| Board.RestampAfterUnstamp | index.js:151-174 | When the block is drawn on the board, removing it and drawing it again gives back the board. |
| Board.FitsAfterUnstamp | index.js:164-174 | After a block is removed, it fits where it was. |
| Board.FitsByShapeCells | index.js:246-256 | The fit test over the board's cells is equivalent to the test over the shape's cells that `checkConflict` makes. |
| Board.AllRowsFree | index.js:246-256 | The row-by-row form of the test in `checkConflict` holds for all rows exactly when every non-zero shape cell lands on an empty board cell. |
| Board.ClearFullRows | index.js:176-189 | Clearing keeps the number of rows and puts one empty row on top for each full row. `Board.ScorePassClears` ties it to the row-by-row pass. |
| Board.ClearStep | index.js:177-186 | One step of the `scoreRow` pass: a full row puts one more empty row on top of what has been cleared; any other row goes below it. |
| Board.ScorePassClears | index.js:176-189 | The row-by-row pass of `scoreRow` leaves exactly the board `ClearFullRows` describes: an empty row on top for each full row, then the other rows in order. It scores the number of full rows. |
| Board.FullCount | index.js:176-189 | Full rows plus kept rows account for every row. |
| Board.KeptRows | index.js:176-189 | Every row kept by clearing is a row of the board and is not full. |
| Board.ClearFullRowsShape | index.js:176-189 | Clearing keeps the board 20 x 10 and leaves no full row. |
| Board.FullCountIsNumberOfFullRows | index.js:180-185 | The number of rows cleared, and of points scored, is the number of full rows. |
| Board.NothingToClear | index.js:176-189 | A board with no full row is left as it is. |
| Board.ClearFullRowsIdempotent | index.js:176-189 | A second clearing finds no full row and changes nothing. |
| Board.TwoAdjacentFullRows | index.js:176-189 | Two full rows, one above the other, both go in one pass, and two empty rows come in on top. |
| Rules.FilledGrid | index.js:234-239 | The board painted by `endding` is 20 x 10. |
| Rules.InitialState | index.js:28-30 | The state after start (empty board, no block, score 0) satisfies the invariant. |
| Rules.SpawnPiece | index.js:193-201 | A new block at `x = 5, y = 0` lies inside the board. |
| Rules.Spawn | index.js:193-203 | The new block becomes `CURRENT_BLOCK` and the score stays. The game ends exactly when it had already ended or the block does not fit. `Rules.SpawnDrawsBlock` gives the board. |
| Rules.SpawnKeepsValid | index.js:192-203 | A spawn keeps the invariant and the score, and makes the new block `CURRENT_BLOCK`. The game ends exactly when it was over already or the block does not fit. |
| Rules.SpawnDrawsBlock | index.js:201-203 | A new block that fits is drawn on the board: its cells take the shape's colour, and every other cell keeps its value. |
| Rules.Move | index.js:259-283 | A move keeps the score and the end flag, never adds or removes the block, and leaves it where it was when it fails. `Rules.MoveOutcome` states when it succeeds. |
| Rules.RejectedIffLeavesBoard | index.js:262-266 | For unit steps, the four early returns refuse exactly the moves that would take the block off the board. |
| Rules.MoveKeepsValid | index.js:259-283 | A move keeps the invariant, the score and the end flag. |
| Rules.MoveRejections | index.js:262-266 | The four early returns fail and change nothing. |
| Rules.MoveOutcome | index.js:267-282 | Past the early returns, a move succeeds exactly when the shifted block fits on the board without itself. A success shifts the block; a failure leaves it, and while the game runs, the whole state, as it was. |
| Rules.MoveLandsOnEmptyCells | index.js:267-282 | After a successful move, removing the block gives the board without the block. |
| Rules.FailedMoveKeepsState | index.js:259-283 | While the game runs, a failed move changes nothing. |
| Rules.RotateBlock | index.js:286-303 | A rotation keeps the score, the end flag and the presence of the block. `Rules.RotateOutcome` states the turned block, `Rules.RotateBoard` the board. |
| Rules.RotateKeepsValid | index.js:286-303 | A rotation keeps the invariant, the score and the end flag. |
| Rules.RotateOutcome | index.js:286-303 | A block whose bottom is on the last row does not turn. Otherwise its shape turns, width and height swap, and it is pushed left and up by its overflow, ending inside the board. |
| Rules.RotateBoard | index.js:290-300 | After a turn, the turned block's cells take its colour even where locked cells were, since no conflict test is made. The old block's other cells become empty, and every other cell keeps its value. |
| Rules.Lock | index.js:206-209 | Landing empties `CURRENT_BLOCK`, raises the score, keeps the end flag and the number of rows. |
| Rules.Tick | index.js:192-215 | A tick never lowers the score and never restarts an ended game. `Rules.TickFalls`, `Rules.TickLocks` and `Rules.TickSpawnConflictEnds` state its three outcomes. |
| Rules.TickKeepsValid | index.js:192-215 | A tick keeps the invariant and never lowers the score. |
| Rules.TickSpawnConflictEnds | index.js:202 | A tick whose new block does not fit ends the game, paints the board and keeps the score. |
| Rules.TickFalls | index.js:205-214 | A tick in which the block can fall moves it down one row and keeps the score; the second drawing changes nothing. |
| Rules.TickLocks | index.js:205-210 | A tick in which a running block cannot fall locks it and spawns the next block on the cleared board. The score rises by 1 plus the number of full rows. |
| Rules.HandleKey | index.js:306-315 | A key event keeps the score and never restarts an ended game. |
| Rules.HandleKeyKeepsValid | index.js:306-315 | Every key event keeps the invariant and the score. |
| Rules.End | index.js:234-244 | `endding` sets the end flag and keeps the score and the block; the painted board is 20 x 10. |
| Rules.EndIdempotent | index.js:234-244 | Ending twice is ending once. Ending keeps the score and sets the end flag. |
| Engine.FindEmptyCell | index.js:180 | `findIndex(f => f === 0)` is -1 exactly when the row is full; otherwise it is the first empty cell. |
| Engine.Game.constructor | index.js:28-30 | A new game has an empty 20 x 10 board, no block and score 0, and satisfies the invariant. |
| Engine.Game.InitInnerFrame | index.js:140-147 | The board becomes 20 rows of 10 zeros. |
| Engine.Game.DrawShape | index.js:151-162 | The board afterwards is the board with the block drawn on it (`Board.Stamp`). |
| Engine.Game.RemoveShape | index.js:164-174 | The board afterwards is the board with the block's cells cleared (`Board.Unstamp`). |
| Engine.Game.CheckConflict | index.js:246-256 | The answer is true exactly when the block fits on the board (`Board.Fits`). |
| Engine.Game.RemoveRow | index.js:183-184 | `splice` then `unshift`: row `r` is taken out, the rows above it move down one, and an empty row comes in on top. |
| Engine.Game.ScoreRow | index.js:176-189 | The pass leaves the board with its full rows cleared (`Board.ClearFullRows`). The score rises by the number of full rows. |
| Engine.Game.ScoreOneRow | index.js:178-186 | One step of the pass: the board and the score move on as `Board.ScorePass` and `Board.ScorePassCount` describe. |
| Engine.Game.EndGame | index.js:234-239 | Every cell takes the end colour and the game is over (`Rules.End`). |
| Engine.Game.SpawnBlock | index.js:193-203 | Carries out `Rules.Spawn`. |
| Engine.Game.MoveCurrentBlock | index.js:259-283 | Keeps the invariant, and the new state and result are `Rules.Move`. |
| Engine.Game.ShiftBlock | index.js:267-282 | Past the early returns, the new state and result are `Rules.Move`. |
| Engine.Game.RotateCurrentBlock | index.js:286-303 | Keeps the invariant and carries out `Rules.RotateBlock`. |
| Engine.Game.LandBlock | index.js:206-209 | `CURRENT_BLOCK = null`, `SCORE++` and `scoreRow` carry out `Rules.Lock` and keep the invariant. |
| Engine.Game.DrawGame | index.js:192-215 | Keeps the invariant and carries out `Rules.Tick`. |
| Engine.Game.OnKeypress | index.js:306-315 | Keeps the invariant and carries out `Rules.HandleKey`. |

## Left out

- Drawing is not modelled. This covers `drawDot`, `clearDot`, `drawMatrix`, `drawFrame`, `updateInnerFrame`, the score text written by `endding`, and the cursor calls; the `axel` terminal library is not part of this model.
- The outer border matrix `FRAME` and its colour are not modelled; they are only drawn.
- The label `LABEL` is not modelled; the engine never uses it.
- The timer is not modelled: `setInterval`, `SPEED`, `clearInterval` in `end`, and `start`. Each timer tick is one call of `Engine.Game.DrawGame`.
- Standard input is not modelled: raw mode, pause and resume. Each key event is one call of `Engine.Game.OnKeypress`.
- After `endding` the source stops the timer and the keyboard. The model allows further calls; they keep the invariant.
- The random draws are parameters. `randomColor` draws each channel with `randomRange(0, 255)`, so a channel is 0 to 254. `ShapeCatalog.ShapeOf` and `Rules.Tick` accept any colour, which covers every value the source can draw.
- ShapeCatalog.RandomRange: the product `Math.random() * (t - f)` is taken over exact reals, not IEEE doubles. For a few draws, e.g. just below 1/6 with `t - f = 6`, the source's floor can differ by one. The range and the finding about `T` hold either way.
- `Rules.Tick` takes any shape name, so it covers both the pick as written and the corrected pick.
- Rows are separate arrays in the source, each built fresh by `initInnerFrame` or by the `unshift` in `scoreRow`; in the model they are `seq` values. The model cannot show that rows alias each other, and none do in the source. The board itself is an array of rows that the methods update in place.
- `CURRENT_BLOCK` is an `Option<Piece>` value that the methods reassign. In the source it is one object whose fields are updated; nothing else holds a reference to it.
- The key handler tests `if (key)` first; a key event without a key object is not modelled. Its six tests are modelled as an else-if chain. A key has one name, so at most one test succeeds.
- `Rules.Move`: only unit steps (-1, 0 or 1 in each direction) are modelled. The source's callers only pass these.
- The `if (row)` test in `scoreRow` is not modelled: on a 20-row board every row exists.

## Findings

| source | as written | input that shows it | evidently intended | confidence | as-written member | corrected member |
|---|---|---|---|---|---|---|
| index.js:82 | `randomRange(0, shapeNames.length - 1)` picks an index in 0..5, so the last name, `T`, is never drawn | any value of `Math.random()` in [0, 1); e.g. 0.99 gives index 5, `Z` | `randomRange(0, shapeNames.length)`, which reaches all seven names | not executed | ShapeCatalog.PickName | ShapeCatalog.PickNameIntendedReachesAll |
