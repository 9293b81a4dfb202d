/** The seven piece templates, their colouring, and the random choice among them. */
module ShapeCatalog {
  import opened Geometry

  datatype ShapeName = O | L | J | I | S | Z | T

  /** The names in the order in which the catalogue object lists them. */
  const NAMES: seq<ShapeName> := [O, L, J, I, S, Z, T]

  /** The 0/1 matrix of each piece. */
  function Template(n: ShapeName): seq<seq<int>>
  {
    match n
    case O => [[1, 1], [1, 1]]
    case L => [[1, 0], [1, 0], [1, 1]]
    case J => [[0, 1], [0, 1], [1, 1]]
    case I => [[1], [1], [1], [1]]
    case S => [[0, 1, 1], [1, 1, 0]]
    case Z => [[1, 1, 0], [0, 1, 1]]
    case T => [[1, 1, 1], [0, 1, 0]]
  }

  /** The mapping in randomShape: a 1 becomes a copy of the colour, a 0 stays empty. */
  function Colorize(t: seq<seq<int>>, red: int, green: int, blue: int): (s: Shape)
    ensures |s| == |t| && forall i :: 0 <= i < |t| ==> |s[i]| == |t[i]|
    ensures forall i, j :: 0 <= i < |t| && 0 <= j < |t[i]| ==>
      (s[i][j] != Empty <==> t[i][j] != 0) && (s[i][j] == Empty || s[i][j] == Color(red, green, blue))
  {
    seq(|t|, i requires 0 <= i < |t| =>
      seq(|t[i]|, j requires 0 <= j < |t[i]| => if t[i][j] != 0 then Color(red, green, blue) else Empty))
  }

  /** The piece randomShape builds once the name and the colour are drawn. Every piece is a
      rectangle of at most 3 columns and 4 rows, every cell is empty or the given colour, and
      every piece has exactly four cells. */
  function ShapeOf(n: ShapeName, red: int, green: int, blue: int): (s: Shape)
    ensures WellFormed(s) && 1 <= Width(s) <= 3 && 1 <= Height(s) <= 4
    ensures forall i, j :: 0 <= i < |s| && 0 <= j < |s[i]| ==>
      s[i][j] == Empty || s[i][j] == Color(red, green, blue)
    ensures |Occupied(s)| == 4
  {
    var s := Colorize(Template(n), red, green, blue);
    FourCells(n, s, Color(red, green, blue));
    s
  }

  lemma FourCells(n: ShapeName, s: Shape, k: Cell)
    requires k != Empty
    requires s == Colorize(Template(n), k.r, k.g, k.b)
    ensures |Occupied(s)| == 4
  {
    match n
    case O =>
      assert |s| == 2 && s[0] == [k, k] && s[1] == [k, k];
      assert s == [[k, k], [k, k]];
      FourCellsO(k);
    case L =>
      assert |s| == 3 && s[0] == [k, Empty] && s[1] == [k, Empty] && s[2] == [k, k];
      assert s == [[k, Empty], [k, Empty], [k, k]];
      FourCellsL(k);
    case J =>
      assert |s| == 3 && s[0] == [Empty, k] && s[1] == [Empty, k] && s[2] == [k, k];
      assert s == [[Empty, k], [Empty, k], [k, k]];
      FourCellsJ(k);
    case I =>
      assert |s| == 4 && s[0] == [k] && s[1] == [k] && s[2] == [k] && s[3] == [k];
      assert s == [[k], [k], [k], [k]];
      FourCellsI(k);
    case S =>
      assert |s| == 2 && s[0] == [Empty, k, k] && s[1] == [k, k, Empty];
      assert s == [[Empty, k, k], [k, k, Empty]];
      FourCellsS(k);
    case Z =>
      assert |s| == 2 && s[0] == [k, k, Empty] && s[1] == [Empty, k, k];
      assert s == [[k, k, Empty], [Empty, k, k]];
      FourCellsZ(k);
    case T =>
      assert |s| == 2 && s[0] == [k, k, k] && s[1] == [Empty, k, Empty];
      assert s == [[k, k, k], [Empty, k, Empty]];
      FourCellsT(k);
  }

  lemma FourCellsO(k: Cell)
    requires k != Empty
    ensures |Occupied([[k, k], [k, k]])| == 4
  {
    var s := [[k, k], [k, k]];
    forall p | p in Occupied(s)
      ensures p in {(0, 0), (0, 1), (1, 0), (1, 1)}
    {
      assert 0 <= p.0 < |s|;
    }
    assert (0, 0) in Occupied(s);
    assert (0, 1) in Occupied(s);
    assert (1, 0) in Occupied(s);
    assert (1, 1) in Occupied(s);
    assert Occupied(s) == {(0, 0), (0, 1), (1, 0), (1, 1)};
  }

  lemma FourCellsL(k: Cell)
    requires k != Empty
    ensures |Occupied([[k, Empty], [k, Empty], [k, k]])| == 4
  {
    var s := [[k, Empty], [k, Empty], [k, k]];
    forall p | p in Occupied(s)
      ensures p in {(0, 0), (1, 0), (2, 0), (2, 1)}
    {
      if p.0 == 0 { assert p.1 != 1; } else if p.0 == 1 { assert p.1 != 1; }
    }
    assert (0, 0) in Occupied(s);
    assert (1, 0) in Occupied(s);
    assert (2, 0) in Occupied(s);
    assert (2, 1) in Occupied(s);
    assert Occupied(s) == {(0, 0), (1, 0), (2, 0), (2, 1)};
  }

  lemma FourCellsJ(k: Cell)
    requires k != Empty
    ensures |Occupied([[Empty, k], [Empty, k], [k, k]])| == 4
  {
    var s := [[Empty, k], [Empty, k], [k, k]];
    forall p | p in Occupied(s)
      ensures p in {(0, 1), (1, 1), (2, 0), (2, 1)}
    {
      if p.0 == 0 { assert p.1 != 0; } else if p.0 == 1 { assert p.1 != 0; }
    }
    assert (0, 1) in Occupied(s);
    assert (1, 1) in Occupied(s);
    assert (2, 0) in Occupied(s);
    assert (2, 1) in Occupied(s);
    assert Occupied(s) == {(0, 1), (1, 1), (2, 0), (2, 1)};
  }

  lemma FourCellsI(k: Cell)
    requires k != Empty
    ensures |Occupied([[k], [k], [k], [k]])| == 4
  {
    var s := [[k], [k], [k], [k]];
    forall p | p in Occupied(s)
      ensures p in {(0, 0), (1, 0), (2, 0), (3, 0)}
    {
      assert 0 <= p.0 < |s|;
    }
    assert (0, 0) in Occupied(s);
    assert (1, 0) in Occupied(s);
    assert (2, 0) in Occupied(s);
    assert (3, 0) in Occupied(s);
    assert Occupied(s) == {(0, 0), (1, 0), (2, 0), (3, 0)};
  }

  lemma FourCellsS(k: Cell)
    requires k != Empty
    ensures |Occupied([[Empty, k, k], [k, k, Empty]])| == 4
  {
    var s := [[Empty, k, k], [k, k, Empty]];
    forall p | p in Occupied(s)
      ensures p in {(0, 1), (0, 2), (1, 0), (1, 1)}
    {
      if p.0 == 0 { assert p.1 != 0; } else if p.0 == 1 { assert p.1 != 2; }
    }
    assert (0, 1) in Occupied(s);
    assert (0, 2) in Occupied(s);
    assert (1, 0) in Occupied(s);
    assert (1, 1) in Occupied(s);
    assert Occupied(s) == {(0, 1), (0, 2), (1, 0), (1, 1)};
  }

  lemma FourCellsZ(k: Cell)
    requires k != Empty
    ensures |Occupied([[k, k, Empty], [Empty, k, k]])| == 4
  {
    var s := [[k, k, Empty], [Empty, k, k]];
    forall p | p in Occupied(s)
      ensures p in {(0, 0), (0, 1), (1, 1), (1, 2)}
    {
      if p.0 == 0 { assert p.1 != 2; } else if p.0 == 1 { assert p.1 != 0; }
    }
    assert (0, 0) in Occupied(s);
    assert (0, 1) in Occupied(s);
    assert (1, 1) in Occupied(s);
    assert (1, 2) in Occupied(s);
    assert Occupied(s) == {(0, 0), (0, 1), (1, 1), (1, 2)};
  }

  lemma FourCellsT(k: Cell)
    requires k != Empty
    ensures |Occupied([[k, k, k], [Empty, k, Empty]])| == 4
  {
    var s := [[k, k, k], [Empty, k, Empty]];
    forall p | p in Occupied(s)
      ensures p in {(0, 0), (0, 1), (0, 2), (1, 1)}
    {
      if p.0 == 1 { assert p.1 != 0 && p.1 != 2; }
    }
    assert (0, 0) in Occupied(s);
    assert (0, 1) in Occupied(s);
    assert (0, 2) in Occupied(s);
    assert (1, 1) in Occupied(s);
    assert Occupied(s) == {(0, 0), (0, 1), (0, 2), (1, 1)};
  }

  /** randomRange(f, t) = f + ~~(Math.random() * (t - f)), with the draw of Math.random
      passed in as `u`. For a non-negative product `~~` is the floor. */
  function RandomRange(f: int, t: int, u: real): (n: int)
    requires f <= t && 0.0 <= u < 1.0
    ensures f <= n && (f < t ==> n < t)
  {
    var k := (t - f) as real;
    assert 0.0 <= u * k;
    assert f < t ==> u * k < k;
    f + (u * k).Floor
  }

  /** The pick in randomShape as written: randomRange(0, names.length - 1). It never
      reaches the last name, T. */
  function PickName(u: real): (n: ShapeName)
    requires 0.0 <= u < 1.0
    ensures n != T
  {
    NAMES[RandomRange(0, |NAMES| - 1, u)]
  }

  /** The pick as evidently intended: randomRange(0, names.length). */
  function PickNameIntended(u: real): (n: ShapeName)
    requires 0.0 <= u < 1.0
  {
    NAMES[RandomRange(0, |NAMES|, u)]
  }

  /** Every name, T included, is drawn by some value of Math.random under the intended pick. */
  lemma PickNameIntendedReachesAll(n: ShapeName)
    ensures exists u :: 0.0 <= u < 1.0 && PickNameIntended(u) == n
  {
    var i := match n case O => 0 case L => 1 case J => 2 case I => 3 case S => 4 case Z => 5 case T => 6;
    var u := i as real / 7.0;
    assert u * 7.0 == i as real;
    assert PickNameIntended(u) == NAMES[i];
  }
}
