/** The playfield as a value: a 20 x 10 grid of cells, the piece placed on it, and the
    functions that describe drawShape, removeShape, checkConflict and scoreRow. */
module Board {
  import opened Geometry

  /** The decorative border, and the playfield inside it. */
  const FRAME_WIDTH: int := 12
  const FRAME_HEIGHT: int := 22
  const BOARD_WIDTH: int := FRAME_WIDTH - 2
  const BOARD_HEIGHT: int := FRAME_HEIGHT - 2

  type Grid = seq<seq<Cell>>

  predicate IsGrid(g: Grid)
  {
    |g| == BOARD_HEIGHT && forall r :: 0 <= r < |g| ==> |g[r]| == BOARD_WIDTH
  }

  /** A row of zeros, as initInnerFrame and scoreRow build it. */
  function EmptyRow(): seq<Cell>
  {
    seq(BOARD_WIDTH, _ => Empty)
  }

  function EmptyGrid(): (g: Grid)
    ensures IsGrid(g)
  {
    seq(BOARD_HEIGHT, _ => EmptyRow())
  }

  /** The falling block: its shape, the board position of its top-left corner, and the
      width and height it records for its shape. */
  datatype Piece = Piece(shape: Shape, x: int, y: int, width: int, height: int)

  predicate PieceOk(p: Piece)
  {
    WellFormed(p.shape) && p.width == Width(p.shape) && p.height == Height(p.shape)
  }

  /** The bounding box lies inside the board. */
  predicate InBounds(p: Piece)
  {
    0 <= p.x && p.x + p.width <= BOARD_WIDTH && 0 <= p.y && p.y + p.height <= BOARD_HEIGHT
  }

  /** The shape cell that lies over board cell (r, c), or Empty outside the bounding box. */
  function ShapeCellAt(p: Piece, r: int, c: int): Cell
    requires PieceOk(p)
  {
    if p.y <= r < p.y + p.height && p.x <= c < p.x + p.width then p.shape[r - p.y][c - p.x] else Empty
  }

  /** The board cells under the non-zero cells of the piece. */
  function Footprint(p: Piece): set<(int, int)>
    requires PieceOk(p)
  {
    set q | q in Occupied(p.shape) :: (p.y + q.0, p.x + q.1)
  }

  lemma FootprintAt(p: Piece, r: int, c: int)
    requires PieceOk(p)
    ensures (r, c) in Footprint(p) <==> ShapeCellAt(p, r, c) != Empty
  {
    if ShapeCellAt(p, r, c) != Empty {
      assert (r - p.y, c - p.x) in Occupied(p.shape);
    }
  }

  /** drawShape: every board cell under a non-zero shape cell takes that cell. */
  function Stamp(g: Grid, p: Piece): (h: Grid)
    requires PieceOk(p)
    ensures |h| == |g| && forall r :: 0 <= r < |g| ==> |h[r]| == |g[r]|
  {
    seq(|g|, r requires 0 <= r < |g| =>
      seq(|g[r]|, c requires 0 <= c < |g[r]| =>
        if ShapeCellAt(p, r, c) != Empty then ShapeCellAt(p, r, c) else g[r][c]))
  }

  /** removeShape: every board cell under a non-zero shape cell becomes 0. */
  function Unstamp(g: Grid, p: Piece): (h: Grid)
    requires PieceOk(p)
    ensures |h| == |g| && forall r :: 0 <= r < |g| ==> |h[r]| == |g[r]|
  {
    seq(|g|, r requires 0 <= r < |g| =>
      seq(|g[r]|, c requires 0 <= c < |g[r]| =>
        if ShapeCellAt(p, r, c) != Empty then Empty else g[r][c]))
  }

  /** checkConflict returning true: no board cell under the piece is occupied. */
  predicate Fits(g: Grid, p: Piece)
    requires PieceOk(p)
    ensures g == EmptyGrid() ==> Fits(g, p)
  {
    forall r, c :: 0 <= r < |g| && 0 <= c < |g[r]| && (r, c) in Footprint(p) ==> g[r][c] == Empty
  }

  /** Stamping writes the piece's colours on its footprint and leaves every other cell alone. */
  lemma StampFootprint(g: Grid, p: Piece)
    requires IsGrid(g) && PieceOk(p)
    ensures IsGrid(Stamp(g, p))
    ensures forall r, c :: 0 <= r < BOARD_HEIGHT && 0 <= c < BOARD_WIDTH ==>
      if (r, c) in Footprint(p) then Stamp(g, p)[r][c] == ShapeCellAt(p, r, c) != Empty
      else Stamp(g, p)[r][c] == g[r][c]
  {
    forall r, c | 0 <= r < BOARD_HEIGHT && 0 <= c < BOARD_WIDTH {
      FootprintAt(p, r, c);
    }
  }

  /** Unstamping empties the piece's footprint and leaves every other cell alone. */
  lemma UnstampFootprint(g: Grid, p: Piece)
    requires IsGrid(g) && PieceOk(p)
    ensures IsGrid(Unstamp(g, p))
    ensures forall r, c :: 0 <= r < BOARD_HEIGHT && 0 <= c < BOARD_WIDTH ==>
      Unstamp(g, p)[r][c] == if (r, c) in Footprint(p) then Empty else g[r][c]
  {
    forall r, c | 0 <= r < BOARD_HEIGHT && 0 <= c < BOARD_WIDTH {
      FootprintAt(p, r, c);
    }
  }

  /** Stamping twice is stamping once. */
  lemma StampTwice(g: Grid, p: Piece)
    requires IsGrid(g) && PieceOk(p)
    ensures Stamp(Stamp(g, p), p) == Stamp(g, p)
  {
    StampFootprint(g, p);
    StampFootprint(Stamp(g, p), p);
    GridsEqual(Stamp(Stamp(g, p), p), Stamp(g, p));
  }

  /** Removing a piece right after drawing it gives back the board exactly when the piece
      fitted, that is, when its footprint was empty before. */
  lemma UnstampUndoesStamp(g: Grid, p: Piece)
    requires IsGrid(g) && PieceOk(p)
    ensures Unstamp(Stamp(g, p), p) == g <==> Fits(g, p)
  {
    StampFootprint(g, p);
    UnstampFootprint(Stamp(g, p), p);
    var h := Unstamp(Stamp(g, p), p);
    if Fits(g, p) {
      GridsEqual(h, g);
    }
    if h == g {
      forall r, c | 0 <= r < |g| && 0 <= c < |g[r]| && (r, c) in Footprint(p)
        ensures g[r][c] == Empty
      {
        assert h[r][c] == Empty;
      }
    }
  }

  /** A board on which the piece is drawn is unchanged by removing and redrawing it. */
  lemma RestampAfterUnstamp(g: Grid, p: Piece)
    requires IsGrid(g) && PieceOk(p) && Stamp(g, p) == g
    ensures Stamp(Unstamp(g, p), p) == g
  {
    StampFootprint(g, p);
    UnstampFootprint(g, p);
    StampFootprint(Unstamp(g, p), p);
    GridsEqual(Stamp(Unstamp(g, p), p), g);
  }

  /** Once a piece is removed it fits where it was. */
  lemma FitsAfterUnstamp(g: Grid, p: Piece)
    requires IsGrid(g) && PieceOk(p)
    ensures Fits(Unstamp(g, p), p)
  {
    UnstampFootprint(g, p);
  }

  /** The loop of checkConflict: every non-zero shape cell lands on an empty board cell. */
  predicate ShapeCellsFree(g: Grid, p: Piece)
    requires IsGrid(g) && PieceOk(p) && InBounds(p)
  {
    forall i, j :: 0 <= i < p.height && 0 <= j < p.width && p.shape[i][j] != Empty ==>
      g[p.y + i][p.x + j] == Empty
  }

  /** The cells of shape row i before column c land on empty board cells. */
  predicate RowCellsFree(g: Grid, p: Piece, i: int, c: int)
    requires IsGrid(g) && PieceOk(p) && InBounds(p) && 0 <= i < p.height && c <= p.width
  {
    forall j :: 0 <= j < c && p.shape[i][j] != Empty ==> g[p.y + i][p.x + j] == Empty
  }

  /** The shape rows before row r land on empty board cells. */
  predicate RowsFree(g: Grid, p: Piece, r: int)
    requires IsGrid(g) && PieceOk(p) && InBounds(p) && r <= p.height
  {
    forall i :: 0 <= i < r ==> RowCellsFree(g, p, i, p.width)
  }

  lemma AllRowsFree(g: Grid, p: Piece)
    requires IsGrid(g) && PieceOk(p) && InBounds(p)
    ensures RowsFree(g, p, p.height) <==> ShapeCellsFree(g, p)
  {
    if RowsFree(g, p, p.height) {
      forall i, j | 0 <= i < p.height && 0 <= j < p.width && p.shape[i][j] != Empty
        ensures g[p.y + i][p.x + j] == Empty
      {
        assert RowCellsFree(g, p, i, p.width);
      }
    }
  }

  /** For a piece inside the board, fitting is exactly the test checkConflict makes. */
  lemma FitsByShapeCells(g: Grid, p: Piece)
    requires IsGrid(g) && PieceOk(p) && InBounds(p)
    ensures Fits(g, p) <==> ShapeCellsFree(g, p)
  {
    if Fits(g, p) {
      FitsGivesShapeCellsFree(g, p);
    }
    if ShapeCellsFree(g, p) {
      forall r, c | 0 <= r < |g| && 0 <= c < |g[r]| && (r, c) in Footprint(p)
        ensures g[r][c] == Empty
      {
        FootprintAt(p, r, c);
        assert p.shape[r - p.y][c - p.x] != Empty;
      }
    }
  }

  lemma FitsGivesShapeCellsFree(g: Grid, p: Piece)
    requires IsGrid(g) && PieceOk(p) && InBounds(p) && Fits(g, p)
    ensures ShapeCellsFree(g, p)
  {
    forall i, j | 0 <= i < p.height && 0 <= j < p.width && p.shape[i][j] != Empty
      ensures g[p.y + i][p.x + j] == Empty
    {
      FootprintAt(p, p.y + i, p.x + j);
    }
  }

  lemma GridsEqual(a: Grid, b: Grid)
    requires IsGrid(a) && IsGrid(b)
    requires forall r, c :: 0 <= r < BOARD_HEIGHT && 0 <= c < BOARD_WIDTH ==> a[r][c] == b[r][c]
    ensures a == b
  {
    forall r | 0 <= r < BOARD_HEIGHT
      ensures a[r] == b[r]
    {
    }
  }

  /** A row with no 0 in it. */
  predicate Full(row: seq<Cell>)
  {
    forall c :: 0 <= c < |row| ==> row[c] != Empty
  }

  /** The rows that are not full, top to bottom. */
  function Kept(g: Grid): (k: Grid)
  {
    if |g| == 0 then [] else Kept(g[..|g| - 1]) + (if Full(g[|g| - 1]) then [] else [g[|g| - 1]])
  }

  /** How many rows are full; with the kept rows they account for every row. */
  function FullCount(g: Grid): (n: nat)
    ensures n + |Kept(g)| == |g|
  {
    if |g| == 0 then 0 else FullCount(g[..|g| - 1]) + (if Full(g[|g| - 1]) then 1 else 0)
  }

  function EmptyRows(k: nat): Grid
  {
    seq(k, _ => EmptyRow())
  }

  /** What a top-to-bottom pass of scoreRow leaves: one empty row on top for every full
      row taken out, then the other rows in their order. */
  function ClearFullRows(g: Grid): (h: Grid)
    ensures |h| == |g|
    ensures forall r :: 0 <= r < FullCount(g) ==> h[r] == EmptyRow()
  {
    EmptyRows(FullCount(g)) + Kept(g)
  }

  /** One step of the top-to-bottom pass: with row r a full row adds an empty row on top,
      and any other row is kept at the bottom of what has been passed. */
  lemma ClearStep(g: Grid, r: int)
    requires 0 <= r < |g|
    ensures |ClearFullRows(g[..r])| == r
    ensures FullCount(g[..r + 1]) == FullCount(g[..r]) + (if Full(g[r]) then 1 else 0)
    ensures Full(g[r]) ==> ClearFullRows(g[..r + 1]) == [EmptyRow()] + ClearFullRows(g[..r])
    ensures !Full(g[r]) ==> ClearFullRows(g[..r + 1]) == ClearFullRows(g[..r]) + [g[r]]
  {
    var front := g[..r + 1];
    assert front[..r] == g[..r] && front[r] == g[r];
    var k := FullCount(g[..r]);
    var kept := Kept(g[..r]);
    if Full(g[r]) {
      assert FullCount(front) == k + 1 && Kept(front) == kept;
      assert EmptyRows(k + 1) == [EmptyRow()] + EmptyRows(k);
    } else {
      assert FullCount(front) == k && Kept(front) == kept + [g[r]];
    }
  }

  /** The first r steps of the scoreRow pass, as the loop makes them: a full row goes and an
      empty row comes in on top; any other row stays below the rows already passed. */
  function ScorePass(g: Grid, r: int): (d: Grid)
    requires 0 <= r <= |g|
    ensures |d| == r
  {
    if r == 0 then []
    else if Full(g[r - 1]) then [EmptyRow()] + ScorePass(g, r - 1)
    else ScorePass(g, r - 1) + [g[r - 1]]
  }

  /** The points the first r steps of the pass score: one per full row. */
  function ScorePassCount(g: Grid, r: int): (n: nat)
    requires 0 <= r <= |g|
  {
    if r == 0 then 0 else ScorePassCount(g, r - 1) + (if Full(g[r - 1]) then 1 else 0)
  }

  /** The pass, row by row, leaves what ClearFullRows describes: empty rows for the full rows
      on top, the other rows below in their order; and it scores the number of full rows. */
  lemma {:induction false} ScorePassClears(g: Grid, r: int)
    requires 0 <= r <= |g|
    ensures ScorePass(g, r) == ClearFullRows(g[..r])
    ensures ScorePassCount(g, r) == FullCount(g[..r])
  {
    if r > 0 {
      ScorePassClears(g, r - 1);
      ClearStep(g, r - 1);
    }
  }

  lemma {:induction false} KeptRows(g: Grid)
    ensures forall i :: 0 <= i < |Kept(g)| ==> !Full(Kept(g)[i]) && Kept(g)[i] in g
  {
    if |g| > 0 {
      KeptRows(g[..|g| - 1]);
    }
  }

  /** Clearing keeps a 20 x 10 board and leaves no full row. */
  lemma ClearFullRowsShape(g: Grid)
    requires IsGrid(g)
    ensures IsGrid(ClearFullRows(g))
    ensures forall r :: 0 <= r < BOARD_HEIGHT ==> !Full(ClearFullRows(g)[r])
  {
    KeptRows(g);
    var h := ClearFullRows(g);
    var k := FullCount(g);
    forall r | 0 <= r < BOARD_HEIGHT
      ensures |h[r]| == BOARD_WIDTH && !Full(h[r])
    {
      if r < k {
        assert h[r] == EmptyRow() && h[r][0] == Empty;
      } else {
        assert h[r] == Kept(g)[r - k];
      }
    }
  }

  /** The row numbers of the full rows. */
  function FullRowsOf(g: Grid): set<int>
  {
    set r | 0 <= r < |g| && Full(g[r])
  }

  /** The count is the number of full rows. */
  lemma {:induction false} FullCountIsNumberOfFullRows(g: Grid)
    ensures FullCount(g) == |FullRowsOf(g)|
  {
    if |g| > 0 {
      var n := |g| - 1;
      var front := g[..n];
      FullCountIsNumberOfFullRows(front);
      forall i | 0 <= i < n
        ensures front[i] == g[i]
      {
      }
      if Full(g[n]) {
        assert FullRowsOf(g) == FullRowsOf(front) + {n};
      } else {
        assert FullRowsOf(g) == FullRowsOf(front);
      }
    } else {
      assert FullRowsOf(g) == {};
    }
  }

  /** A board without full rows is left as it is. */
  lemma {:induction false} NothingToClear(g: Grid)
    requires forall r :: 0 <= r < |g| ==> !Full(g[r])
    ensures FullCount(g) == 0 && Kept(g) == g && ClearFullRows(g) == g
  {
    if |g| > 0 {
      NothingToClear(g[..|g| - 1]);
      assert g[..|g| - 1] + [g[|g| - 1]] == g;
    }
  }

  /** A second clearing finds nothing to do. */
  lemma ClearFullRowsIdempotent(g: Grid)
    requires IsGrid(g)
    ensures FullCount(ClearFullRows(g)) == 0
    ensures ClearFullRows(ClearFullRows(g)) == ClearFullRows(g)
  {
    ClearFullRowsShape(g);
    NothingToClear(ClearFullRows(g));
  }

  /** Two full rows, one above the other, and no other: both go in one clearing. */
  lemma TwoAdjacentFullRows(g: Grid, r: int)
    requires IsGrid(g) && 0 <= r && r + 1 < BOARD_HEIGHT
    requires Full(g[r]) && Full(g[r + 1])
    requires forall i :: 0 <= i < BOARD_HEIGHT && i != r && i != r + 1 ==> !Full(g[i])
    ensures FullCount(g) == 2
    ensures ClearFullRows(g)[..2] == [EmptyRow(), EmptyRow()]
  {
    FullCountIsNumberOfFullRows(g);
    assert FullRowsOf(g) == {r, r + 1};
  }
}
