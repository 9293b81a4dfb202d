/** Cells and shape matrices: measuring a shape and turning it a quarter turn clockwise. */
module Geometry {

  /** A cell of a shape or of the board: `0` in the game, or an RGB colour. */
  datatype Cell = Empty | Color(r: int, g: int, b: int)

  /** A shape matrix, row by row. */
  type Shape = seq<seq<Cell>>

  /** Every shape in the game is a non-empty rectangle. */
  predicate WellFormed(s: Shape)
  {
    |s| > 0 && |s[0]| > 0 && forall r :: 0 <= r < |s| ==> |s[r]| == |s[0]|
  }

  /** getShapeWidth: the length of the first row, which is the length of every row. */
  function Width(s: Shape): (w: nat)
    requires WellFormed(s)
    ensures w > 0 && forall r :: 0 <= r < |s| ==> |s[r]| == w
  {
    |s[0]|
  }

  /** getShapeHeight: the number of rows. */
  function Height(s: Shape): (h: nat)
    ensures WellFormed(s) ==> h > 0
  {
    |s|
  }

  /** The nested loops of rotateShape: new row `c` holds old column `c`, top to bottom. */
  function Transpose(s: Shape): (t: Shape)
    requires WellFormed(s)
  {
    seq(Width(s), c requires 0 <= c < Width(s) =>
      seq(Height(s), r requires 0 <= r < Height(s) => s[r][c]))
  }

  /** Array.prototype.reverse on one row. */
  function Reverse(row: seq<Cell>): (v: seq<Cell>)
    ensures |v| == |row|
  {
    if |row| == 0 then [] else [row[|row| - 1]] + Reverse(row[..|row| - 1])
  }

  lemma {:induction false} ReverseAt(row: seq<Cell>, i: int)
    requires 0 <= i < |row|
    ensures Reverse(row)[i] == row[|row| - 1 - i]
  {
    if i > 0 {
      ReverseAt(row[..|row| - 1], i - 1);
    }
  }

  /** rotateShape: transpose, then reverse every row. */
  function RotateShape(s: Shape): (t: Shape)
    requires WellFormed(s)
    ensures |t| == Width(s) && forall c :: 0 <= c < |t| ==> |t[c]| == Height(s)
  {
    var m := Transpose(s);
    seq(|m|, c requires 0 <= c < |m| => Reverse(m[c]))
  }

  /** A rotated shape is a rectangle with the sides swapped, and its cell (c, j) is the
      old cell (h-1-j, c): a clockwise quarter turn. */
  lemma RotateShapeCells(s: Shape)
    requires WellFormed(s)
    ensures WellFormed(RotateShape(s))
    ensures Width(RotateShape(s)) == Height(s) && Height(RotateShape(s)) == Width(s)
    ensures forall c, j :: 0 <= c < Width(s) && 0 <= j < Height(s) ==>
      RotateShape(s)[c][j] == s[Height(s) - 1 - j][c]
  {
    var t := RotateShape(s);
    forall c, j | 0 <= c < Width(s) && 0 <= j < Height(s)
      ensures t[c][j] == s[Height(s) - 1 - j][c]
    {
      ReverseAt(Transpose(s)[c], j);
    }
  }

  /** The T piece of the comment above rotateShape, in colour `k`. */
  lemma RotateExampleT(k: Cell)
    requires k != Empty
    ensures RotateShape([[k, k, k], [Empty, k, Empty]]) == [[Empty, k], [k, k], [Empty, k]]
  {
    var s := [[k, k, k], [Empty, k, Empty]];
    RotateShapeCells(s);
    var t := RotateShape(s);
    assert |t| == 3 && |t[0]| == 2;
    assert t[0] == [Empty, k] && t[1] == [k, k] && t[2] == [Empty, k];
  }

  /** Two quarter turns are a half turn. */
  lemma RotateTwice(s: Shape)
    requires WellFormed(s)
    ensures WellFormed(RotateShape(RotateShape(s)))
    ensures Width(RotateShape(RotateShape(s))) == Width(s)
    ensures Height(RotateShape(RotateShape(s))) == Height(s)
    ensures forall i, j :: 0 <= i < Height(s) && 0 <= j < Width(s) ==>
      RotateShape(RotateShape(s))[i][j] == s[Height(s) - 1 - i][Width(s) - 1 - j]
  {
    RotateShapeCells(s);
    RotateShapeCells(RotateShape(s));
  }

  /** Four quarter turns give back the original matrix. */
  lemma RotateFourTimes(s: Shape)
    requires WellFormed(s)
    ensures RotateShape(RotateShape(RotateShape(RotateShape(s)))) == s
  {
    var u := RotateShape(RotateShape(s));
    RotateTwice(s);
    RotateTwice(u);
    var v := RotateShape(RotateShape(u));
    assert |v| == |s|;
    forall i | 0 <= i < |s|
      ensures v[i] == s[i]
    {
      assert |v[i]| == |s[i]|;
    }
  }

  /** The positions of the non-zero cells of a shape. */
  function Occupied(s: Shape): set<(int, int)>
  {
    set r, c | 0 <= r < |s| && 0 <= c < |s[r]| && s[r][c] != Empty :: (r, c)
  }

  /** Where a quarter turn of a shape with `h` rows sends position (r, c). */
  function QuarterTurn(q: (int, int), h: int): (int, int)
  {
    (q.1, h - 1 - q.0)
  }

  function TurnAll(a: set<(int, int)>, h: int): set<(int, int)>
  {
    set q | q in a :: QuarterTurn(q, h)
  }

  lemma {:induction false} TurnAllSize(a: set<(int, int)>, h: int)
    ensures |TurnAll(a, h)| == |a|
    decreases |a|
  {
    if a == {} {
      assert TurnAll(a, h) == {};
    } else {
      var q :| q in a;
      var rest := a - {q};
      TurnAllSize(rest, h);
      assert TurnAll(a, h) == TurnAll(rest, h) + {QuarterTurn(q, h)};
      assert QuarterTurn(q, h) !in TurnAll(rest, h);
    }
  }

  /** A rotation moves every non-zero cell and keeps their number. */
  lemma RotateKeepsCellCount(s: Shape)
    requires WellFormed(s)
    ensures Occupied(RotateShape(s)) == TurnAll(Occupied(s), Height(s))
    ensures |Occupied(RotateShape(s))| == |Occupied(s)|
  {
    var t := RotateShape(s);
    var h := Height(s);
    RotateShapeCells(s);
    forall p | p in Occupied(t)
      ensures p in TurnAll(Occupied(s), h)
    {
      var q := (h - 1 - p.1, p.0);
      assert q in Occupied(s);
      assert QuarterTurn(q, h) == p;
    }
    forall q | q in Occupied(s)
      ensures QuarterTurn(q, h) in Occupied(t)
    {
      assert t[q.1][h - 1 - q.0] == s[q.0][q.1];
    }
    TurnAllSize(Occupied(s), h);
  }
}
