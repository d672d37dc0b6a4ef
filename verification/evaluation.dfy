/**
 * `evaluateBoard` (src/ai.js): the static score of a board from one
 * colour's point of view. Each own stone adds its `qi` and a positional
 * term (-100 on a corner, -70 on the rest of the edge, +20 inside); each
 * opposing stone subtracts its `qi`.
 */
module Evaluation {
  import opened Wrappers
  import opened GoBoard
  import opened Liberties

  /** The positional term of an own stone on an `n`-by-`n` board. */
  function PositionBonus(n: int, p: Pos): int
  {
    if IsCorner(n, p) then -100
    else if IsEdge(n, p) then -70
    else 20
  }

  /** What one cell adds to the score of colour `c`. */
  function CellScore(n: int, p: Pos, cell: Option<Stone>, c: Color): int
  {
    match cell
    case None => 0
    case Some(s) => if s.color == c then s.qi + PositionBonus(n, p) else -s.qi
  }

  /** The sum of `f` over row `i` from column `j` on. */
  function RowSum(b: Board, f: (Pos, Option<Stone>) -> int, i: nat, j: nat): int
    requires IsSquare(b) && i < |b| && j <= |b|
    decreases |b| - j
  {
    if j == |b| then 0 else f(Pos(i, j), b[i][j]) + RowSum(b, f, i, j + 1)
  }

  /** The sum of `f` over every cell, row by row from row `i` on (the two `forEach` loops). */
  function BoardSum(b: Board, f: (Pos, Option<Stone>) -> int, i: nat): int
    requires IsSquare(b) && i <= |b|
    decreases |b| - i
  {
    if i == |b| then 0 else RowSum(b, f, i, 0) + BoardSum(b, f, i + 1)
  }

  function ScoreFor(n: int, c: Color): (Pos, Option<Stone>) -> int
  {
    (p, cell) => CellScore(n, p, cell, c)
  }

  /** `evaluateBoard`. */
  function EvaluateBoard(b: Board, c: Color): int
    requires IsSquare(b)
  {
    BoardSum(b, ScoreFor(|b|, c), 0)
  }

  /** Two sums agree when their terms agree cell by cell, even across two boards of one size. */
  lemma {:induction false} RowSumTransfer(b: Board, f: (Pos, Option<Stone>) -> int, b': Board, f': (Pos, Option<Stone>) -> int, i: nat, j: nat)
    requires IsSquare(b) && IsSquare(b') && |b'| == |b| && i < |b| && j <= |b|
    requires forall y :: 0 <= y < |b| ==> f'(Pos(i, y), b'[i][y]) == f(Pos(i, y), b[i][y])
    ensures RowSum(b', f', i, j) == RowSum(b, f, i, j)
    decreases |b| - j
  {
    if j < |b| {
      RowSumTransfer(b, f, b', f', i, j + 1);
    }
  }

  lemma {:induction false} BoardSumTransfer(b: Board, f: (Pos, Option<Stone>) -> int, b': Board, f': (Pos, Option<Stone>) -> int, i: nat)
    requires IsSquare(b) && IsSquare(b') && |b'| == |b| && i <= |b|
    requires forall x, y :: 0 <= x < |b| && 0 <= y < |b| ==> f'(Pos(x, y), b'[x][y]) == f(Pos(x, y), b[x][y])
    ensures BoardSum(b', f', i) == BoardSum(b, f, i)
    decreases |b| - i
  {
    if i < |b| {
      RowSumTransfer(b, f, b', f', i, 0);
      BoardSumTransfer(b, f, b', f', i + 1);
    }
  }

  /** A sum of cell-wise sums is the sum of the sums. */
  lemma {:induction false} RowSumAdd(b: Board, f: (Pos, Option<Stone>) -> int, h: (Pos, Option<Stone>) -> int, k: (Pos, Option<Stone>) -> int, i: nat, j: nat)
    requires IsSquare(b) && i < |b| && j <= |b|
    requires forall y :: 0 <= y < |b| ==> k(Pos(i, y), b[i][y]) == f(Pos(i, y), b[i][y]) + h(Pos(i, y), b[i][y])
    ensures RowSum(b, k, i, j) == RowSum(b, f, i, j) + RowSum(b, h, i, j)
    decreases |b| - j
  {
    if j < |b| {
      RowSumAdd(b, f, h, k, i, j + 1);
    }
  }

  lemma {:induction false} BoardSumAdd(b: Board, f: (Pos, Option<Stone>) -> int, h: (Pos, Option<Stone>) -> int, k: (Pos, Option<Stone>) -> int, i: nat)
    requires IsSquare(b) && i <= |b|
    requires forall x, y :: 0 <= x < |b| && 0 <= y < |b| ==> k(Pos(x, y), b[x][y]) == f(Pos(x, y), b[x][y]) + h(Pos(x, y), b[x][y])
    ensures BoardSum(b, k, i) == BoardSum(b, f, i) + BoardSum(b, h, i)
    decreases |b| - i
  {
    if i < |b| {
      RowSumAdd(b, f, h, k, i, 0);
      BoardSumAdd(b, f, h, k, i + 1);
    }
  }

  /** A sum whose every term is zero is zero. */
  lemma {:induction false} RowSumZero(b: Board, f: (Pos, Option<Stone>) -> int, i: nat, j: nat)
    requires IsSquare(b) && i < |b| && j <= |b|
    requires forall y :: 0 <= y < |b| ==> f(Pos(i, y), b[i][y]) == 0
    ensures RowSum(b, f, i, j) == 0
    decreases |b| - j
  {
    if j < |b| {
      RowSumZero(b, f, i, j + 1);
    }
  }

  lemma {:induction false} BoardSumZero(b: Board, f: (Pos, Option<Stone>) -> int, i: nat)
    requires IsSquare(b) && i <= |b|
    requires forall x, y :: 0 <= x < |b| && 0 <= y < |b| ==> f(Pos(x, y), b[x][y]) == 0
    ensures BoardSum(b, f, i) == 0
    decreases |b| - i
  {
    if i < |b| {
      RowSumZero(b, f, i, 0);
      BoardSumZero(b, f, i + 1);
    }
  }

  /** An empty board scores 0 for either colour. */
  lemma EvaluateEmpty(b: Board, c: Color)
    requires IsSquare(b)
    requires forall x, y :: 0 <= x < |b| && 0 <= y < |b| ==> b[x][y].None?
    ensures EvaluateBoard(b, c) == 0
  {
    BoardSumZero(b, ScoreFor(|b|, c), 0);
  }

  function SwapCell(cell: Option<Stone>): Option<Stone>
  {
    match cell
    case None => None
    case Some(s) => Some(Stone(Opposite(s.color), s.qi))
  }

  /** The same stones and liberty counts with every colour exchanged. */
  function SwapColours(b: Board): (r: Board)
    requires IsSquare(b)
    ensures IsSquare(r) && |r| == |b|
    ensures forall x, y :: 0 <= x < |b| && 0 <= y < |b| ==> r[x][y] == SwapCell(b[x][y])
  {
    seq(|b|, x requires 0 <= x < |b| => seq(|b|, y requires 0 <= y < |b| => SwapCell(b[x][y])))
  }

  /** The score depends on the stones only through "own" and "opposing": swapping both sides changes nothing. */
  lemma EvaluateSwapColours(b: Board, c: Color)
    requires IsSquare(b)
    ensures EvaluateBoard(SwapColours(b), Opposite(c)) == EvaluateBoard(b, c)
  {
    var s := SwapColours(b);
    forall x, y | 0 <= x < |b| && 0 <= y < |b|
      ensures ScoreFor(|b|, Opposite(c))(Pos(x, y), s[x][y]) == ScoreFor(|b|, c)(Pos(x, y), b[x][y])
    {
      if b[x][y].Some? {
        assert b[x][y].value.color == c <==> Opposite(b[x][y].value.color) == Opposite(c);
      }
    }
    BoardSumTransfer(b, ScoreFor(|b|, c), s, ScoreFor(|b|, Opposite(c)), 0);
  }

  /** The positional terms of every stone on the board, whatever its colour. */
  function StoneBonus(n: int): (Pos, Option<Stone>) -> int
  {
    (p, cell: Option<Stone>) => if cell.Some? then PositionBonus(n, p) else 0
  }

  /**
   * The `qi` terms cancel between the two points of view: the two colours'
   * scores add up to the positional terms of all the stones.
   */
  lemma EvaluateBothSides(b: Board, c: Color)
    requires IsSquare(b)
    ensures EvaluateBoard(b, c) + EvaluateBoard(b, Opposite(c)) == BoardSum(b, StoneBonus(|b|), 0)
  {
    BoardSumAdd(b, ScoreFor(|b|, c), ScoreFor(|b|, Opposite(c)), StoneBonus(|b|), 0);
  }
}
