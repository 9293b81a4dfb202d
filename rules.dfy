/** The game session as a value and the rules that move it on: spawning a block, moving
    and rotating it, the gravity tick with locking and line clearing, the end of the game
    and the key dispatch. The class Engine.Game carries out these rules in place. */
module Rules {
  import opened Geometry
  import opened ShapeCatalog
  import opened Board

  datatype Option<T> = None | Some(value: T)

  /** The board, CURRENT_BLOCK (None when a new block is due), SCORE, and whether the game
      has ended. */
  datatype State = State(grid: Grid, block: Option<Piece>, score: nat, ended: bool)

  /** INNER_FRAME_COLOR, which the end of the game paints on every cell. The game stores the
      colour array itself, which is not 0, so a painted cell counts as occupied. */
  const END_COLOR: Cell := Color(0, 0, 0)

  function FilledGrid(): (g: Grid)
    ensures IsGrid(g)
  {
    seq(BOARD_HEIGHT, _ => seq(BOARD_WIDTH, _ => END_COLOR))
  }

  /** A block the engine can hold: a well-formed piece inside the board whose sides both fit
      across the board, so that a rotated block can always be pushed back inside. */
  predicate ValidPiece(p: Piece)
  {
    PieceOk(p) && InBounds(p) && p.width <= BOARD_WIDTH && p.height <= BOARD_WIDTH
  }

  /** The engine's invariant: a 20 x 10 board, the block inside it, and, while the game runs,
      the block drawn on the board. */
  predicate ValidState(s: State)
  {
    && IsGrid(s.grid)
    && (s.block.Some? ==> ValidPiece(s.block.value))
    && (s.block.Some? && !s.ended ==> Stamp(s.grid, s.block.value) == s.grid)
  }

  /** After start: an empty board, no block, a score of 0. */
  function InitialState(): (s: State)
    ensures ValidState(s)
  {
    State(EmptyGrid(), None, 0, false)
  }

  /** A new block at x = ~~(10 / 2), y = 0. Every catalogue piece is then inside the board. */
  function SpawnPiece(n: ShapeName, red: int, green: int, blue: int): (p: Piece)
    ensures ValidPiece(p) && p.x == BOARD_WIDTH / 2 && p.y == 0
  {
    var s := ShapeOf(n, red, green, blue);
    Piece(s, BOARD_WIDTH / 2, 0, Width(s), Height(s))
  }

  /** endding: every cell painted, the game over. */
  function End(s: State): (r: State)
    ensures r.ended && r.score == s.score && r.block == s.block && IsGrid(r.grid)
  {
    s.(grid := FilledGrid(), ended := true)
  }

  /** The first branch of drawGame: the new block becomes CURRENT_BLOCK; it is drawn if it
      fits, and otherwise the game ends. */
  function Spawn(s: State, n: ShapeName, red: int, green: int, blue: int): (r: State)
    ensures r.score == s.score && r.block == Some(SpawnPiece(n, red, green, blue))
    ensures r.ended <==> s.ended || !Fits(s.grid, SpawnPiece(n, red, green, blue))
  {
    var p := SpawnPiece(n, red, green, blue);
    if Fits(s.grid, p) then s.(grid := Stamp(s.grid, p), block := Some(p))
    else End(s.(block := Some(p)))
  }

  /** The four early returns of moveCurrentBlock. */
  predicate Rejected(p: Piece, dx: int, dy: int)
  {
    || (dx < 0 && p.x == 0)
    || (dy < 0 && p.y == 0)
    || (dx > 0 && p.x + p.width + 1 > BOARD_WIDTH)
    || (dy > 0 && p.y + p.height + 1 > BOARD_HEIGHT)
  }

  function Shift(p: Piece, dx: int, dy: int): (q: Piece)
  {
    p.(x := p.x + dx, y := p.y + dy)
  }

  /** moveCurrentBlock(dx, dy): the new state and whether the block moved. Without a block
      the source returns undefined, read here as false. */
  function Move(s: State, dx: int, dy: int): (r: (State, bool))
    requires ValidState(s) && -1 <= dx <= 1 && -1 <= dy <= 1
    ensures r.0.score == s.score && r.0.ended == s.ended && r.0.block.Some? == s.block.Some?
    ensures !r.1 ==> r.0.block == s.block
  {
    if s.block.None? then (s, false)
    else
      var p := s.block.value;
      if Rejected(p, dx, dy) then (s, false)
      else
        var g := Unstamp(s.grid, p);
        var q := Shift(p, dx, dy);
        if Fits(g, q) then (s.(grid := Stamp(g, q), block := Some(q)), true)
        else (s.(grid := Stamp(g, p)), false)
  }

  /** The rotated block of rotateCurrentBlock before it is drawn: the turned shape, pushed left
      and up by exactly as much as it sticks out past the right and bottom edges. */
  function Rotated(p: Piece): (q: Piece)
    requires PieceOk(p)
  {
    RotateShapeCells(p.shape);
    var ns := RotateShape(p.shape);
    var w := Width(ns);
    var h := Height(ns);
    var x := if p.x + w > BOARD_WIDTH then p.x - ((p.x + w) - BOARD_WIDTH) else p.x;
    var y := if p.y + h > BOARD_HEIGHT then p.y - ((p.y + h) - BOARD_HEIGHT) else p.y;
    Piece(ns, x, y, w, h)
  }

  /** rotateCurrentBlock: nothing happens without a block or when the block's bottom edge is
      on the last row; otherwise the block is removed, turned, pushed back inside and drawn.
      No conflict test is made, so the turned block may cover locked cells. */
  function RotateBlock(s: State): (r: State)
    requires ValidState(s)
    ensures r.score == s.score && r.ended == s.ended && r.block.Some? == s.block.Some?
  {
    if s.block.None? then s
    else
      var p := s.block.value;
      if p.height + p.y >= BOARD_HEIGHT then s
      else
        var q := Rotated(p);
        s.(grid := Stamp(Unstamp(s.grid, p), q), block := Some(q))
  }

  /** The landing branch of drawGame: CURRENT_BLOCK = null, SCORE++, then scoreRow. */
  function Lock(t: State): (r: State)
    ensures r.block.None? && r.score > t.score && r.ended == t.ended && |r.grid| == |t.grid|
  {
    State(ClearFullRows(t.grid), None, t.score + 1 + FullCount(t.grid), t.ended)
  }

  /** drawGame, one tick of the timer. A new block is spawned when there is none. Otherwise
      the block moves one row down and is drawn again; when it cannot, it locks, full rows
      are cleared, and the tick starts over, which spawns the next block. */
  function Tick(s: State, n: ShapeName, red: int, green: int, blue: int): (r: State)
    requires ValidState(s)
    ensures r.score >= s.score && (s.ended ==> r.ended)
    decreases if s.block.None? then 0 else 1
  {
    if s.block.None? then Spawn(s, n, red, green, blue)
    else
      var m := Move(s, 0, 1);
      MoveKeepsValid(s, 0, 1);
      if m.1 then m.0.(grid := Stamp(m.0.grid, m.0.block.value))
      else
        ClearFullRowsShape(m.0.grid);
        Tick(Lock(m.0), n, red, green, blue)
  }

  /** A key event: its name and whether Ctrl was held. */
  datatype Key = Key(name: string, ctrl: bool)

  /** The keypress handler. The source tests the names one after another; a key has one name,
      so at most one test succeeds. Other keys are ignored. */
  function HandleKey(s: State, k: Key): (r: State)
    requires ValidState(s)
    ensures r.score == s.score && (s.ended ==> r.ended)
  {
    if k.name == "escape" then End(s)
    else if k.name == "c" && k.ctrl then End(s)
    else if k.name == "left" then Move(s, -1, 0).0
    else if k.name == "right" then Move(s, 1, 0).0
    else if k.name == "down" then Move(s, 0, 1).0
    else if k.name == "space" then RotateBlock(s)
    else s
  }

  // ---------------------------------------------------------------------------------------
  // Properties of the rules

  /** A spawn on a 20 x 10 board leaves a valid state, with the score unchanged; when the new
      block does not fit, the game is over. */
  lemma SpawnKeepsValid(s: State, n: ShapeName, red: int, green: int, blue: int)
    requires IsGrid(s.grid)
    ensures ValidState(Spawn(s, n, red, green, blue))
    ensures Spawn(s, n, red, green, blue).score == s.score
    ensures Spawn(s, n, red, green, blue).block == Some(SpawnPiece(n, red, green, blue))
    ensures Spawn(s, n, red, green, blue).ended <==> s.ended || !Fits(s.grid, SpawnPiece(n, red, green, blue))
  {
    var p := SpawnPiece(n, red, green, blue);
    if Fits(s.grid, p) {
      StampFootprint(s.grid, p);
      StampTwice(s.grid, p);
    }
  }

  /** A new block that fits is drawn on the board, and every other cell keeps its value. */
  lemma SpawnDrawsBlock(s: State, n: ShapeName, red: int, green: int, blue: int)
    requires IsGrid(s.grid)
    ensures var p := SpawnPiece(n, red, green, blue);
      Fits(s.grid, p) ==> forall r, c :: 0 <= r < BOARD_HEIGHT && 0 <= c < BOARD_WIDTH ==>
        Spawn(s, n, red, green, blue).grid[r][c] == if (r, c) in Footprint(p) then ShapeCellAt(p, r, c) else s.grid[r][c]
  {
    var p := SpawnPiece(n, red, green, blue);
    if Fits(s.grid, p) {
      StampFootprint(s.grid, p);
    }
  }

  /** Every move keeps the engine's invariant; in particular the block stays inside the board. */
  lemma MoveKeepsValid(s: State, dx: int, dy: int)
    requires ValidState(s) && -1 <= dx <= 1 && -1 <= dy <= 1
    ensures ValidState(Move(s, dx, dy).0)
    ensures Move(s, dx, dy).0.score == s.score && Move(s, dx, dy).0.ended == s.ended
  {
    if s.block.Some? && !Rejected(s.block.value, dx, dy) {
      var p := s.block.value;
      var g := Unstamp(s.grid, p);
      var q := Shift(p, dx, dy);
      UnstampFootprint(s.grid, p);
      var r := if Fits(g, q) then q else p;
      StampFootprint(g, r);
      StampTwice(g, r);
    }
  }

  /** The early returns: a move to the left at x = 0, up at y = 0, to the right against the
      right edge or down against the bottom edge fails and changes nothing. */
  lemma MoveRejections(s: State, dx: int, dy: int)
    requires ValidState(s) && -1 <= dx <= 1 && -1 <= dy <= 1 && s.block.Some?
    ensures dx < 0 && s.block.value.x == 0 ==> Move(s, dx, dy) == (s, false)
    ensures dy < 0 && s.block.value.y == 0 ==> Move(s, dx, dy) == (s, false)
    ensures dx > 0 && s.block.value.x + s.block.value.width + 1 > BOARD_WIDTH ==> Move(s, dx, dy) == (s, false)
    ensures dy > 0 && s.block.value.y + s.block.value.height + 1 > BOARD_HEIGHT ==> Move(s, dx, dy) == (s, false)
  {
  }

  /** For the unit steps the callers make, the early returns (the right and bottom tests with
      their 1 for the step) refuse exactly the moves that would take the block off the board. */
  lemma RejectedIffLeavesBoard(p: Piece, dx: int, dy: int)
    requires InBounds(p) && -1 <= dx <= 1 && -1 <= dy <= 1
    ensures Rejected(p, dx, dy) <==> !InBounds(Shift(p, dx, dy))
  {
  }

  /** Past the early returns, a move succeeds exactly when the shifted block fits on the board
      without itself. A failed move leaves the block where it was and, while the game runs,
      the board as it was; a successful one shifts the block by (dx, dy). */
  lemma MoveOutcome(s: State, dx: int, dy: int)
    requires ValidState(s) && -1 <= dx <= 1 && -1 <= dy <= 1
    requires s.block.Some? && !Rejected(s.block.value, dx, dy)
    ensures Move(s, dx, dy).1 <==> Fits(Unstamp(s.grid, s.block.value), Shift(s.block.value, dx, dy))
    ensures Move(s, dx, dy).1 ==> Move(s, dx, dy).0.block == Some(Shift(s.block.value, dx, dy))
    ensures !Move(s, dx, dy).1 ==> Move(s, dx, dy).0.block == s.block
    ensures !Move(s, dx, dy).1 && !s.ended ==> Move(s, dx, dy).0 == s
  {
    if !Move(s, dx, dy).1 && !s.ended {
      RestampAfterUnstamp(s.grid, s.block.value);
    }
  }

  /** A successful move draws the block where it now is, and it sat on empty cells there. */
  lemma MoveLandsOnEmptyCells(s: State, dx: int, dy: int)
    requires ValidState(s) && -1 <= dx <= 1 && -1 <= dy <= 1 && Move(s, dx, dy).1
    ensures var q := Shift(s.block.value, dx, dy);
      var g := Unstamp(s.grid, s.block.value);
      Unstamp(Move(s, dx, dy).0.grid, q) == g
  {
    var p := s.block.value;
    var q := Shift(p, dx, dy);
    var g := Unstamp(s.grid, p);
    UnstampFootprint(s.grid, p);
    UnstampUndoesStamp(g, q);
  }

  /** Every rotation keeps the engine's invariant; in particular the block stays inside the board. */
  lemma RotateKeepsValid(s: State)
    requires ValidState(s)
    ensures ValidState(RotateBlock(s))
    ensures RotateBlock(s).score == s.score && RotateBlock(s).ended == s.ended
  {
    if s.block.Some? && s.block.value.height + s.block.value.y < BOARD_HEIGHT {
      var p := s.block.value;
      var q := Rotated(p);
      RotateShapeCells(p.shape);
      UnstampFootprint(s.grid, p);
      StampFootprint(Unstamp(s.grid, p), q);
      StampTwice(Unstamp(s.grid, p), q);
    }
  }

  /** A rotation does nothing when the block's bottom edge is on the last row. Otherwise width
      and height swap, the shape turns a quarter, and the block is pushed left and up by
      exactly its overflow past the right and bottom edges. */
  lemma RotateOutcome(s: State)
    requires ValidState(s) && s.block.Some?
    ensures s.block.value.y + s.block.value.height >= BOARD_HEIGHT ==> RotateBlock(s) == s
    ensures s.block.value.y + s.block.value.height < BOARD_HEIGHT ==>
      var p := s.block.value;
      var q := RotateBlock(s).block.value;
      && RotateBlock(s).block.Some?
      && q.shape == RotateShape(p.shape)
      && q.width == p.height && q.height == p.width
      && q.x == (if p.x + q.width > BOARD_WIDTH then BOARD_WIDTH - q.width else p.x)
      && q.y == (if p.y + q.height > BOARD_HEIGHT then BOARD_HEIGHT - q.height else p.y)
      && 0 <= q.x && q.x + q.width <= BOARD_WIDTH && 0 <= q.y && q.y + q.height <= BOARD_HEIGHT
  {
    RotateKeepsValid(s);
    RotateShapeCells(s.block.value.shape);
  }

  /** The board after a turn: no conflict test is made, so the turned block's cells take its
      colour even over locked cells; the old block's other cells become empty; every other
      cell keeps its value. */
  lemma RotateBoard(s: State)
    requires ValidState(s) && s.block.Some?
    requires s.block.value.y + s.block.value.height < BOARD_HEIGHT
    ensures var p := s.block.value;
      var q := Rotated(p);
      forall r, c :: 0 <= r < BOARD_HEIGHT && 0 <= c < BOARD_WIDTH ==>
        RotateBlock(s).grid[r][c] ==
          if (r, c) in Footprint(q) then ShapeCellAt(q, r, c)
          else if (r, c) in Footprint(p) then Empty
          else s.grid[r][c]
  {
    var p := s.block.value;
    RotateShapeCells(p.shape);
    UnstampFootprint(s.grid, p);
    StampFootprint(Unstamp(s.grid, p), Rotated(p));
  }

  /** Every tick keeps the engine's invariant and never lowers the score. */
  lemma TickKeepsValid(s: State, n: ShapeName, red: int, green: int, blue: int)
    requires ValidState(s)
    ensures ValidState(Tick(s, n, red, green, blue))
    ensures Tick(s, n, red, green, blue).score >= s.score
    decreases if s.block.None? then 0 else 1
  {
    if s.block.None? {
      SpawnKeepsValid(s, n, red, green, blue);
    } else {
      var m := Move(s, 0, 1);
      MoveKeepsValid(s, 0, 1);
      if m.1 {
        StampTwice(Unstamp(s.grid, s.block.value), m.0.block.value);
      } else {
        ClearFullRowsShape(m.0.grid);
        TickKeepsValid(Lock(m.0), n, red, green, blue);
      }
    }
  }

  /** A tick whose new block does not fit ends the game and leaves the score as it was. */
  lemma TickSpawnConflictEnds(s: State, n: ShapeName, red: int, green: int, blue: int)
    requires ValidState(s) && s.block.None?
    requires !Fits(s.grid, SpawnPiece(n, red, green, blue))
    ensures Tick(s, n, red, green, blue).ended
    ensures Tick(s, n, red, green, blue).score == s.score
    ensures Tick(s, n, red, green, blue).grid == FilledGrid()
  {
  }

  /** A tick in which the block can fall moves it one row down, and the second drawing of the
      block changes nothing; the score stays. */
  lemma TickFalls(s: State, n: ShapeName, red: int, green: int, blue: int)
    requires ValidState(s) && s.block.Some? && Move(s, 0, 1).1
    ensures Tick(s, n, red, green, blue) == Move(s, 0, 1).0
    ensures Tick(s, n, red, green, blue).block == Some(Shift(s.block.value, 0, 1))
    ensures Tick(s, n, red, green, blue).score == s.score
  {
    var m := Move(s, 0, 1);
    MoveKeepsValid(s, 0, 1);
    StampTwice(Unstamp(s.grid, s.block.value), m.0.block.value);
  }

  /** A tick in which a running block cannot fall locks it where it is: the score rises by one
      for the block and by one for each full row, the full rows are cleared, and the next
      block is spawned on the cleared board in the same tick. */
  lemma TickLocks(s: State, n: ShapeName, red: int, green: int, blue: int)
    requires ValidState(s) && !s.ended && s.block.Some? && !Move(s, 0, 1).1
    ensures Tick(s, n, red, green, blue) == Spawn(Lock(s), n, red, green, blue)
    ensures Tick(s, n, red, green, blue).score == s.score + 1 + FullCount(s.grid)
    ensures Tick(s, n, red, green, blue).block == Some(SpawnPiece(n, red, green, blue))
  {
    FailedMoveKeepsState(s, 0, 1);
    ClearFullRowsShape(s.grid);
    var cleared := Lock(s);
    assert Tick(s, n, red, green, blue) == Tick(cleared, n, red, green, blue);
    assert Tick(cleared, n, red, green, blue) == Spawn(cleared, n, red, green, blue);
    SpawnKeepsValid(cleared, n, red, green, blue);
  }

  /** While the game runs, a move that fails, early or on a conflict, changes nothing. */
  lemma FailedMoveKeepsState(s: State, dx: int, dy: int)
    requires ValidState(s) && -1 <= dx <= 1 && -1 <= dy <= 1 && !s.ended && !Move(s, dx, dy).1
    ensures Move(s, dx, dy).0 == s
  {
    if s.block.Some? && !Rejected(s.block.value, dx, dy) {
      MoveOutcome(s, dx, dy);
    }
  }

  /** Every key event keeps the engine's invariant and leaves the score alone. */
  lemma HandleKeyKeepsValid(s: State, k: Key)
    requires ValidState(s)
    ensures ValidState(HandleKey(s, k))
    ensures HandleKey(s, k).score == s.score
  {
    if k.name == "escape" || (k.name == "c" && k.ctrl) {
    } else if k.name == "left" {
      MoveKeepsValid(s, -1, 0);
    } else if k.name == "right" {
      MoveKeepsValid(s, 1, 0);
    } else if k.name == "down" {
      MoveKeepsValid(s, 0, 1);
    } else if k.name == "space" {
      RotateKeepsValid(s);
    }
  }

  /** Ending twice is ending once: the board, the score and the flag stay the same. */
  lemma EndIdempotent(s: State)
    ensures End(End(s)) == End(s)
    ensures End(s).score == s.score && End(s).ended
  {
  }
}
