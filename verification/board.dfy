/**
 * The Go board as a value. The source keeps `stones[x][y]`, a square array of
 * `Stone` objects or `null`; here a board is a square sequence of rows whose
 * cells are optional stones. Group analysis only ever looks at the colours,
 * so most of the model works on the colour view `Grid` of a board.
 */
module GoBoard {
  import opened Wrappers

  datatype Color = Black | White

  /** The colour of the other player (`color === 'black' ? 'white' : 'black'`). */
  function Opposite(c: Color): (r: Color)
    ensures r != c
    ensures c == Black <==> r == White
  {
    if c == Black then White else Black
  }

  /** A stone: its colour and the liberty count (`qi`) last written onto it. */
  datatype Stone = Stone(color: Color, qi: int)

  type Board = seq<seq<Option<Stone>>>

  /** The occupancy of a board: which colour, if any, holds each cell. */
  type Grid = seq<seq<Option<Color>>>

  /** A point `(i, j)` of the board, addressing `stones[i][j]`. */
  datatype Pos = Pos(i: int, j: int)

  predicate IsSquare<T>(b: seq<seq<T>>)
  {
    forall r :: 0 <= r < |b| ==> |b[r]| == |b|
  }

  predicate InBounds(n: int, p: Pos)
  {
    0 <= p.i < n && 0 <= p.j < n
  }

  function At(g: Grid, p: Pos): Option<Color>
    requires IsSquare(g) && InBounds(|g|, p)
  {
    g[p.i][p.j]
  }

  function ColourOf(cell: Option<Stone>): Option<Color>
  {
    match cell
    case None => None
    case Some(s) => Some(s.color)
  }

  /** The colour view of a board. */
  function Colours(b: Board): (g: Grid)
    ensures |g| == |b|
    ensures forall r :: 0 <= r < |b| ==> |g[r]| == |b[r]|
    ensures forall r, c :: 0 <= r < |b| && 0 <= c < |b[r]| ==> g[r][c] == ColourOf(b[r][c])
    ensures IsSquare(b) ==> IsSquare(g)
  {
    seq(|b|, r requires 0 <= r < |b| => seq(|b[r]|, c requires 0 <= c < |b[r]| => ColourOf(b[r][c])))
  }

  /** The empty n-by-n board. */
  function EmptyGrid(n: nat): (g: Grid)
    ensures |g| == n && IsSquare(g)
    ensures forall p :: InBounds(n, p) ==> At(g, p) == None
  {
    seq(n, _ => seq(n, _ => None))
  }

  /**
   * The four orthogonal directions in the order the source scans them:
   * `[0, 1]`, `[1, 0]`, `[0, -1]`, `[-1, 0]`, added to `(i, j)`.
   */
  function Step(p: Pos, k: int): (q: Pos)
    ensures 0 <= k < 4 ==> Adjacent(p, q)
  {
    if k == 0 then Pos(p.i, p.j + 1)
    else if k == 1 then Pos(p.i + 1, p.j)
    else if k == 2 then Pos(p.i, p.j - 1)
    else Pos(p.i - 1, p.j)
  }

  predicate Adjacent(p: Pos, q: Pos)
  {
    || (p.i == q.i && (q.j == p.j + 1 || q.j == p.j - 1))
    || (p.j == q.j && (q.i == p.i + 1 || q.i == p.i - 1))
  }

  /** The direction index that leads from `p` to an adjacent `q`. */
  function DirectionTo(p: Pos, q: Pos): (k: int)
    requires Adjacent(p, q)
    ensures 0 <= k < 4 && Step(p, k) == q
  {
    if q == Pos(p.i, p.j + 1) then 0
    else if q == Pos(p.i + 1, p.j) then 1
    else if q == Pos(p.i, p.j - 1) then 2
    else 3
  }

  /** Row-major order: row first, then column. */
  predicate RowMajorLess(p: Pos, q: Pos)
  {
    p.i < q.i || (p.i == q.i && p.j < q.j)
  }

  /** `q` comes at or after `(x, y)` in row-major order. */
  predicate AtOrAfter(q: Pos, x: int, y: int)
  {
    !RowMajorLess(q, Pos(x, y))
  }

  /** Every point of an n-by-n board. */
  function AllCells(n: nat): (s: set<Pos>)
    ensures forall p :: p in s <==> InBounds(n, p)
  {
    var s := set i, j | 0 <= i < n && 0 <= j < n :: Pos(i, j);
    assert forall p :: InBounds(n, p) ==> p in s by {
      forall p | InBounds(n, p) ensures p in s {
        assert p == Pos(p.i, p.j);
      }
    }
    s
  }

  /** The empty points of a square grid. */
  function EmptyCells(g: Grid): (s: set<Pos>)
    requires IsSquare(g)
    ensures forall p :: p in s <==> InBounds(|g|, p) && At(g, p) == None
  {
    set p | p in AllCells(|g|) && At(g, p) == None
  }

  /** Overwrites one cell of a board. */
  function SetCell(b: Board, p: Pos, cell: Option<Stone>): (r: Board)
    requires IsSquare(b) && InBounds(|b|, p)
    ensures |r| == |b| && IsSquare(r)
    ensures r[p.i][p.j] == cell
    ensures forall q :: InBounds(|b|, q) && q != p ==> r[q.i][q.j] == b[q.i][q.j]
  {
    b[p.i := b[p.i][p.j := cell]]
  }

  /** Overwrites one cell of a grid. */
  function SetGridCell(g: Grid, p: Pos, cell: Option<Color>): (r: Grid)
    requires IsSquare(g) && InBounds(|g|, p)
    ensures |r| == |g| && IsSquare(r)
    ensures At(r, p) == cell
    ensures forall q :: InBounds(|g|, q) && q != p ==> At(r, q) == At(g, q)
  {
    g[p.i := g[p.i][p.j := cell]]
  }

  /** Two square grids of one size that agree at every point are equal. */
  lemma GridExt(g: Grid, h: Grid)
    requires IsSquare(g) && IsSquare(h) && |g| == |h|
    requires forall p :: InBounds(|g|, p) ==> At(g, p) == At(h, p)
    ensures g == h
  {
    forall r | 0 <= r < |g| ensures g[r] == h[r] {
      forall c | 0 <= c < |g| ensures g[r][c] == h[r][c] {
        assert At(g, Pos(r, c)) == At(h, Pos(r, c));
      }
    }
  }

  /** Writing a cell of a board writes the same colour into its colour view. */
  lemma ColoursSetCell(b: Board, p: Pos, cell: Option<Stone>)
    requires IsSquare(b) && InBounds(|b|, p)
    ensures Colours(SetCell(b, p, cell)) == SetGridCell(Colours(b), p, ColourOf(cell))
  {
    GridExt(Colours(SetCell(b, p, cell)), SetGridCell(Colours(b), p, ColourOf(cell)));
  }

  /** Filling an empty point removes exactly that point from the empty cells. */
  lemma FillShrinksEmptyCells(g: Grid, p: Pos, c: Color)
    requires IsSquare(g) && InBounds(|g|, p) && At(g, p) == None
    ensures EmptyCells(SetGridCell(g, p, Some(c))) == EmptyCells(g) - {p}
    ensures |EmptyCells(SetGridCell(g, p, Some(c)))| < |EmptyCells(g)|
  {
    assert EmptyCells(SetGridCell(g, p, Some(c))) == EmptyCells(g) - {p};
  }

  lemma SubsetCard<T>(a: set<T>, b: set<T>)
    requires a <= b
    ensures |a| <= |b|
  {
    assert b == a + (b - a);
  }
}
