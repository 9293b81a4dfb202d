/** The engine as the game runs it: one object holding the board INNER_FRAME, the falling
    block CURRENT_BLOCK, SCORE and the end flag, all changed in place. Each method is proved
    to carry out the matching rule of module Rules, and to keep the invariant Rules.ValidState,
    so the block never leaves the board and checkConflict never indexes outside it. */
module Engine {
  import opened Geometry
  import opened ShapeCatalog
  import opened Board
  import opened Rules

  /** row.findIndex(f => f === 0): the first empty cell of a row, or -1 when the row is full. */
  method FindEmptyCell(row: seq<Cell>) returns (k: int)
    ensures k == -1 <==> Full(row)
    ensures k != -1 ==> 0 <= k < |row| && row[k] == Empty && forall j :: 0 <= j < k ==> row[j] != Empty
  {
    k := 0;
    while k < |row|
      invariant 0 <= k <= |row|
      invariant forall j :: 0 <= j < k ==> row[j] != Empty
    {
      if row[k] == Empty {
        return;
      }
      k := k + 1;
    }
    k := -1;
  }

  class Game {
    /** INNER_FRAME: BOARD_HEIGHT rows, each a row of BOARD_WIDTH cells. */
    const rows: array<seq<Cell>>
    /** CURRENT_BLOCK, None while a new block is due. */
    var block: Option<Piece>
    /** SCORE. */
    var score: nat
    /** Set once the game has ended; the timer and the key handler are then released. */
    var ended: bool

    /** The session as a value, for the rules of module Rules. */
    ghost function Snapshot(): State
      reads this, rows
    {
      State(rows[..], block, score, ended)
    }

    ghost predicate Valid()
      reads this, rows
    {
      rows.Length == BOARD_HEIGHT && ValidState(Snapshot())
    }

    /** The state part of start: an empty board, no block, a score of 0. */
    constructor ()
      ensures Valid() && fresh(rows)
      ensures Snapshot() == InitialState()
    {
      rows := new seq<Cell>[BOARD_HEIGHT];
      block := None;
      score := 0;
      ended := false;
      new;
      InitInnerFrame();
    }

    /** initInnerFrame: every row becomes BOARD_WIDTH zeros. */
    method InitInnerFrame()
      requires rows.Length == BOARD_HEIGHT
      modifies rows
      ensures rows[..] == EmptyGrid()
    {
      var i := 0;
      while i < rows.Length
        invariant 0 <= i <= rows.Length
        invariant forall k :: 0 <= k < i ==> rows[k] == EmptyRow()
      {
        rows[i] := [];
        var j := 0;
        while j < BOARD_WIDTH
          invariant 0 <= j <= BOARD_WIDTH
          invariant rows[i] == seq(j, _ => Empty)
          invariant forall k :: 0 <= k < i ==> rows[k] == EmptyRow()
        {
          rows[i] := rows[i] + [Empty];
          j := j + 1;
        }
        i := i + 1;
      }
    }

    /** drawShape: a pass over the whole board that copies each non-zero shape cell inside the
        block's bounding box onto the board. */
    method DrawShape(p: Piece)
      requires rows.Length == BOARD_HEIGHT && IsGrid(rows[..]) && PieceOk(p)
      modifies rows
      ensures rows[..] == Stamp(old(rows[..]), p)
    {
      ghost var g := rows[..];
      var r := 0;
      while r < rows.Length
        invariant 0 <= r <= rows.Length
        invariant forall i :: 0 <= i < r ==> rows[i] == Stamp(g, p)[i]
        invariant forall i :: r <= i < rows.Length ==> rows[i] == g[i]
      {
        var c := 0;
        while c < |rows[r]|
          invariant 0 <= c <= |rows[r]| == |g[r]|
          invariant forall j :: 0 <= j < c ==> rows[r][j] == Stamp(g, p)[r][j]
          invariant forall j :: c <= j < |rows[r]| ==> rows[r][j] == g[r][j]
          invariant forall i :: 0 <= i < r ==> rows[i] == Stamp(g, p)[i]
          invariant forall i :: r < i < rows.Length ==> rows[i] == g[i]
        {
          if r >= p.y && r < p.y + p.height && c >= p.x && c < p.x + p.width {
            if p.shape[r - p.y][c - p.x] != Empty {
              rows[r] := rows[r][c := p.shape[r - p.y][c - p.x]];
            }
          }
          c := c + 1;
        }
        assert rows[r] == Stamp(g, p)[r];
        r := r + 1;
      }
    }

    /** removeShape: the same pass, writing 0 under each non-zero shape cell. */
    method RemoveShape(p: Piece)
      requires rows.Length == BOARD_HEIGHT && IsGrid(rows[..]) && PieceOk(p)
      modifies rows
      ensures rows[..] == Unstamp(old(rows[..]), p)
    {
      ghost var g := rows[..];
      var r := 0;
      while r < rows.Length
        invariant 0 <= r <= rows.Length
        invariant forall i :: 0 <= i < r ==> rows[i] == Unstamp(g, p)[i]
        invariant forall i :: r <= i < rows.Length ==> rows[i] == g[i]
      {
        var c := 0;
        while c < |rows[r]|
          invariant 0 <= c <= |rows[r]| == |g[r]|
          invariant forall j :: 0 <= j < c ==> rows[r][j] == Unstamp(g, p)[r][j]
          invariant forall j :: c <= j < |rows[r]| ==> rows[r][j] == g[r][j]
          invariant forall i :: 0 <= i < r ==> rows[i] == Unstamp(g, p)[i]
          invariant forall i :: r < i < rows.Length ==> rows[i] == g[i]
        {
          if r >= p.y && r < p.y + p.height && c >= p.x && c < p.x + p.width {
            if p.shape[r - p.y][c - p.x] != Empty {
              rows[r] := rows[r][c := Empty];
            }
          }
          c := c + 1;
        }
        assert rows[r] == Unstamp(g, p)[r];
        r := r + 1;
      }
    }

    /** checkConflict: true (moveable) exactly when the block fits, that is, when no non-zero
        cell of its shape lies on an occupied board cell. The block must lie inside the board,
        since the source indexes the board without a bounds check. */
    method CheckConflict(p: Piece) returns (moveable: bool)
      requires rows.Length == BOARD_HEIGHT && IsGrid(rows[..]) && PieceOk(p) && InBounds(p)
      ensures moveable <==> Fits(rows[..], p)
    {
      ghost var g := rows[..];
      moveable := true;
      var r := 0;
      while r < p.height
        invariant 0 <= r <= p.height
        invariant moveable == RowsFree(g, p, r)
      {
        var c := 0;
        while c < p.width
          invariant 0 <= c <= p.width
          invariant moveable == (RowsFree(g, p, r) && RowCellsFree(g, p, r, c))
        {
          if p.shape[r][c] != Empty {
            if rows[p.y + r][p.x + c] != Empty {
              moveable := false;
            }
          }
          c := c + 1;
        }
        r := r + 1;
      }
      AllRowsFree(g, p);
      FitsByShapeCells(g, p);
    }

    /** INNER_FRAME.splice(r, 1) followed by INNER_FRAME.unshift(a row of zeros): the rows
        above row r move down by one and an empty row comes in on top. */
    method RemoveRow(r: int)
      requires 0 <= r < rows.Length
      modifies rows
      ensures rows[..] == [EmptyRow()] + old(rows[..r]) + old(rows[r + 1..])
    {
      var j := r;
      while j > 0
        invariant 0 <= j <= r
        invariant forall i :: 0 <= i <= j ==> rows[i] == old(rows[i])
        invariant forall i :: j < i <= r ==> rows[i] == old(rows[i - 1])
        invariant forall i :: r < i < rows.Length ==> rows[i] == old(rows[i])
      {
        rows[j] := rows[j - 1];
        j := j - 1;
      }
      rows[0] := EmptyRow();
    }

    /** scoreRow: one pass from the top row to the bottom; each full row is taken out, an empty
        row is put on top, and SCORE goes up by one. A row taken out only moves rows that were
        already passed, so the pass misses none, and adjacent full rows all go. */
    method ScoreRow()
      requires rows.Length == BOARD_HEIGHT && IsGrid(rows[..])
      modifies this`score, rows
      ensures rows[..] == ClearFullRows(old(rows[..]))
      ensures score == old(score) + FullCount(old(rows[..]))
    {
      ghost var g := rows[..];
      var r := 0;
      while r < rows.Length
        invariant 0 <= r <= rows.Length
        invariant rows[..] == ScorePass(g, r) + g[r..]
        invariant score == old(score) + ScorePassCount(g, r)
      {
        ScoreOneRow(r, g);
        r := r + 1;
      }
      assert rows[..] == ScorePass(g, |g|) by {
        assert g[|g|..] == [];
      }
      assert ScorePass(g, |g|) == ClearFullRows(g) && ScorePassCount(g, |g|) == FullCount(g) by {
        assert g[..|g|] == g;
        ScorePassClears(g, |g|);
      }
    }

    /** The body of the scoreRow loop for row r: a full row is taken out, an empty row is put
        on top, and SCORE goes up by one. */
    method ScoreOneRow(r: int, ghost g: Grid)
      requires 0 <= r < rows.Length == |g|
      requires rows[..] == ScorePass(g, r) + g[r..]
      modifies this`score, rows
      ensures rows[..] == ScorePass(g, r + 1) + g[r + 1..]
      ensures score == old(score) + (if Full(g[r]) then 1 else 0)
    {
      ghost var done := ScorePass(g, r);
      assert g[r..] == [g[r]] + g[r + 1..];
      assert rows[..r] == done && rows[r] == g[r] && rows[r + 1..] == g[r + 1..];
      var row := rows[r];
      var k := FindEmptyCell(row);
      if k == -1 {
        RemoveRow(r);
        score := score + 1;
      } else {
        assert rows[..] == done + [g[r]] + g[r + 1..];
      }
    }

    /** endding, for the board and the flag: every cell takes INNER_FRAME_COLOR and the game is
        over. The score message and the release of the timer and the keyboard are output. */
    method EndGame()
      requires rows.Length == BOARD_HEIGHT && IsGrid(rows[..])
      modifies this`ended, rows
      ensures Snapshot() == End(old(Snapshot()))
    {
      var r := 0;
      while r < rows.Length
        invariant 0 <= r <= rows.Length
        invariant forall i :: 0 <= i < r ==> rows[i] == FilledGrid()[i]
        invariant forall i :: r <= i < rows.Length ==> rows[i] == old(rows[i])
      {
        var c := 0;
        while c < |rows[r]|
          invariant 0 <= c <= |rows[r]| == BOARD_WIDTH
          invariant forall j :: 0 <= j < c ==> rows[r][j] == END_COLOR
          invariant forall i :: 0 <= i < r ==> rows[i] == FilledGrid()[i]
          invariant forall i :: r < i < rows.Length ==> rows[i] == old(rows[i])
        {
          rows[r] := rows[r][c := END_COLOR];
          c := c + 1;
        }
        assert rows[r] == FilledGrid()[r];
        r := r + 1;
      }
      ended := true;
    }

    /** The first branch of drawGame: a block of the drawn shape and colour at x = ~~(10 / 2),
        y = 0 becomes CURRENT_BLOCK; if it does not fit, the game ends, otherwise it is drawn. */
    method SpawnBlock(n: ShapeName, red: int, green: int, blue: int)
      requires rows.Length == BOARD_HEIGHT && IsGrid(rows[..])
      modifies this, rows
      ensures Snapshot() == Spawn(old(Snapshot()), n, red, green, blue)
    {
      var shape := ShapeOf(n, red, green, blue);
      block := Some(Piece(shape, BOARD_WIDTH / 2, 0, Width(shape), Height(shape)));
      var fits := CheckConflict(block.value);
      if !fits {
        EndGame();
      } else {
        DrawShape(block.value);
      }
    }

    /** moveCurrentBlock(dx, dy): the early returns, then remove the block, shift it, test it,
        shift it back if it conflicts, and draw it again. */
    method MoveCurrentBlock(dx: int, dy: int) returns (moved: bool)
      requires Valid() && -1 <= dx <= 1 && -1 <= dy <= 1
      modifies this, rows
      ensures Valid()
      ensures (Snapshot(), moved) == Move(old(Snapshot()), dx, dy)
    {
      ghost var s := Snapshot();
      MoveKeepsValid(s, dx, dy);
      if block.None? {
        return false;
      }
      var p := block.value;
      if dx < 0 && p.x == 0 {
        return false;
      }
      if dy < 0 && p.y == 0 {
        return false;
      }
      // the extra 1 keeps room for the shifted block
      if dx > 0 && p.x + p.width + 1 > BOARD_WIDTH {
        return false;
      }
      if dy > 0 && p.y + p.height + 1 > BOARD_HEIGHT {
        return false;
      }
      moved := ShiftBlock(p, dx, dy);
    }

    /** moveCurrentBlock past its early returns: remove the block, shift it, test it, shift it
        back if it conflicts, and draw it again. */
    method ShiftBlock(p: Piece, dx: int, dy: int) returns (moved: bool)
      requires Valid() && -1 <= dx <= 1 && -1 <= dy <= 1
      requires block == Some(p) && !Rejected(p, dx, dy)
      modifies this, rows
      ensures (Snapshot(), moved) == Move(old(Snapshot()), dx, dy)
    {
      ghost var s := Snapshot();
      ghost var g := Unstamp(s.grid, p);
      ghost var q := Shift(p, dx, dy);
      assert IsGrid(g) by { UnstampFootprint(s.grid, p); }
      RemoveShape(p);
      var b := p.(x := p.x + dx, y := p.y + dy);
      assert b == q;
      moved := CheckConflict(b);
      if !moved {
        b := b.(x := b.x - dx, y := b.y - dy);
        assert b == p;
      }
      block := Some(b);
      DrawShape(b);
      assert Move(s, dx, dy) == (if moved then s.(grid := Stamp(g, q), block := Some(q)) else s.(grid := Stamp(g, p)), moved);
    }

    /** rotateCurrentBlock: when the block's bottom edge is above the last row, remove it, turn
        its shape, record the new width and height, push it back inside the right and bottom
        edges, and draw it. */
    method RotateCurrentBlock()
      requires Valid()
      modifies this, rows
      ensures Valid()
      ensures Snapshot() == RotateBlock(old(Snapshot()))
    {
      ghost var s := Snapshot();
      if block.Some? {
        var p := block.value;
        if p.height + p.y < BOARD_HEIGHT {
          ghost var g := Unstamp(s.grid, p);
          assert IsGrid(g) by { UnstampFootprint(s.grid, p); }
          RemoveShape(p);
          var newShape := RotateShape(p.shape);
          assert WellFormed(newShape) by { RotateShapeCells(p.shape); }
          var b := p.(shape := newShape, width := Width(newShape), height := Height(newShape));
          // step back when the turned block sticks out
          if p.x + b.width > BOARD_WIDTH {
            b := b.(x := b.x - ((p.x + b.width) - BOARD_WIDTH));
          }
          if p.y + b.height > BOARD_HEIGHT {
            b := b.(y := b.y - ((p.y + b.height) - BOARD_HEIGHT));
          }
          assert b == Rotated(p);
          block := Some(b);
          DrawShape(b);
          assert Snapshot() == RotateBlock(s);
        }
      }
      assert Valid() by { RotateKeepsValid(s); }
    }

    /** The landing branch of drawGame, before it runs again: CURRENT_BLOCK = null, SCORE++
        and scoreRow. */
    method LandBlock()
      requires Valid()
      modifies this, rows
      ensures Valid() && block.None?
      ensures Snapshot() == Lock(old(Snapshot()))
    {
      ghost var s := Snapshot();
      block := None;
      score := score + 1;
      assert IsGrid(ClearFullRows(s.grid)) by { ClearFullRowsShape(s.grid); }
      ScoreRow();
    }

    /** drawGame, one tick of the timer; the shape and colour drawn for a new block are passed
        in. When the block cannot fall it is dropped, SCORE goes up by one, full rows are
        cleared, and drawGame runs again, which spawns the next block. */
    method DrawGame(n: ShapeName, red: int, green: int, blue: int)
      requires Valid()
      modifies this, rows
      ensures Valid()
      ensures Snapshot() == Tick(old(Snapshot()), n, red, green, blue)
      decreases if block.None? then 0 else 1
    {
      ghost var s := Snapshot();
      if block.None? {
        SpawnBlock(n, red, green, blue);
        assert Valid() by { SpawnKeepsValid(s, n, red, green, blue); }
      } else {
        var moved := MoveCurrentBlock(0, 1);
        ghost var m := Snapshot();
        assert (m, moved) == Move(s, 0, 1);
        if !moved {
          LandBlock();
          assert Tick(s, n, red, green, blue) == Tick(Lock(m), n, red, green, blue);
          DrawGame(n, red, green, blue);
        } else {
          DrawShape(block.value);
          assert Snapshot() == m by { StampTwice(Unstamp(s.grid, s.block.value), m.block.value); }
          assert Tick(s, n, red, green, blue) == m by { TickFalls(s, n, red, green, blue); }
        }
      }
    }

    /** The keypress handler: Escape and Ctrl+C end the game, the arrow keys move the block
        left, right and down, Space rotates it. */
    method OnKeypress(k: Key)
      requires Valid()
      modifies this, rows
      ensures Valid()
      ensures Snapshot() == HandleKey(old(Snapshot()), k)
    {
      HandleKeyKeepsValid(Snapshot(), k);
      if k.name == "escape" {
        EndGame();
      } else if k.name == "c" && k.ctrl {
        EndGame();
      } else if k.name == "left" {
        var moved := MoveCurrentBlock(-1, 0);
      } else if k.name == "right" {
        var moved := MoveCurrentBlock(1, 0);
      } else if k.name == "down" {
        var moved := MoveCurrentBlock(0, 1);
      } else if k.name == "space" {
        RotateCurrentBlock();
      }
    }
  }
}
