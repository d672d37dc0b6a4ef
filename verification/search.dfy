/**
 * The game-tree search of src/ai.js: `minimax` with alpha-beta pruning and a
 * transposition table, `getMinimaxMove` and `iterativeDeepening`. The
 * table, a module-level `Map` in the source that outlives every call, is
 * threaded through the functions as a value.
 */
module Search {
  import opened Wrappers
  import opened GoBoard
  import opened Settle
  import opened Liberties
  import opened Serialization
  import opened Legality
  import opened Ordering
  import opened Evaluation

  /** The integers with JavaScript's `-Infinity` and `Infinity`. */
  datatype ExtInt = NegInf | Fin(v: int) | PosInf

  predicate AtLeast(a: ExtInt, b: ExtInt)
  {
    match (a, b)
    case (PosInf, _) => true
    case (_, NegInf) => true
    case (Fin(x), Fin(y)) => x >= y
    case _ => false
  }

  function Max(a: ExtInt, b: ExtInt): (r: ExtInt)
    ensures AtLeast(r, a) && AtLeast(r, b) && (r == a || r == b)
  {
    if AtLeast(a, b) then a else b
  }

  function Min(a: ExtInt, b: ExtInt): (r: ExtInt)
    ensures AtLeast(a, r) && AtLeast(b, r) && (r == a || r == b)
  {
    if AtLeast(a, b) then b else a
  }

  /** The transposition table: serialized board to value. */
  type Table = map<string, int>

  /** Every entry of `t` is still in `t'` with the same value. */
  ghost predicate Extends(t: Table, t': Table)
  {
    forall k :: k in t ==> k in t' && t'[k] == t[k]
  }

  /** The moves a search node tries: empty points of the board. */
  ghost predicate OnEmptyPoints(b: Board, moves: seq<Pos>)
    requires IsSquare(b)
  {
    forall m :: m in moves ==> InBounds(|b|, m) && b[m.i][m.j].None?
  }

  /** The board after the search puts a stone of colour `c` on `m` and settles the liberty counts. */
  function Child(b: Board, m: Pos, c: Color): (r: Board)
    requires IsSquare(b) && InBounds(|b|, m)
    ensures IsSquare(r) && |r| == |b|
    ensures Colours(r) == SetGridCell(Colours(b), m, Some(c))
    ensures Settled(r)
  {
    UpdateQi(Place(b, m, c))
  }

  /** A child has one stone more, so one empty point fewer: the measure the search descends on. */
  lemma ChildShrinks(b: Board, m: Pos, c: Color)
    requires IsSquare(b) && InBounds(|b|, m) && b[m.i][m.j].None?
    ensures |EmptyCells(Colours(Child(b, m, c)))| < |EmptyCells(Colours(b))|
  {
    assert Colours(Child(b, m, c)) == SetGridCell(Colours(b), m, Some(c));
    assert Colours(b)[m.i][m.j] == ColourOf(b[m.i][m.j]);
    FillShrinksEmptyCells(Colours(b), m, c);
  }

  /** The moves `minimax` tries are empty points. */
  lemma OrderedMovesEmpty(b: Board, c: Color, ko: seq<string>)
    requires IsSquare(b)
    ensures OnEmptyPoints(b, MoveOrdering(Colours(b), LegalMoves(b, c, ko)))
  {
    var legal := LegalMoves(b, c, ko);
    var moves := MoveOrdering(Colours(b), legal);
    forall m | m in moves ensures InBounds(|b|, m) && b[m.i][m.j].None? {
      assert m in multiset(moves);
      assert m in multiset(legal);
      assert IsLegalEmpty(b, m, c, ko);
    }
  }

  /**
   * `minimax`. A board already in the table returns the stored value and
   * leaves the table alone; otherwise the value is computed (the static
   * evaluation at depth 0 or without legal moves, else the pruned search
   * over the ordered moves) and stored under the board's key. Entries
   * already present are never changed.
   */
  function Minimax(b: Board, depth: int, alpha: ExtInt, beta: ExtInt, maximizing: bool, c: Color,
                   ko: seq<string>, t: Table): (r: (int, Table))
    requires IsSquare(b)
    ensures Extends(t, r.1)
    ensures Serialize(b) in r.1 && r.1[Serialize(b)] == r.0
    ensures Serialize(b) in t ==> r == (t[Serialize(b)], t)
    decreases |EmptyCells(Colours(b))|, 1, 0
  {
    var key := Serialize(b);
    if key in t then (t[key], t)
    else if depth == 0 then
      var e := EvaluateBoard(b, c);
      (e, t[key := e])
    else
      var moves := MoveOrdering(Colours(b), LegalMoves(b, c, ko));
      if |moves| == 0 then
        var e := EvaluateBoard(b, c);
        (e, t[key := e])
      else
        OrderedMovesEmpty(b, c, ko);
        var loop := if maximizing then MaxLoop(b, depth, alpha, beta, c, ko, moves, 0, NegInf, t)
                    else MinLoop(b, depth, alpha, beta, c, ko, moves, 0, PosInf, t);
        var value := loop.0.v;
        (value, loop.1[key := value])
  }

  /** A board not in the table at depth 0, or without a legal move, gets its static evaluation, which is stored. */
  lemma MinimaxLeaf(b: Board, depth: int, alpha: ExtInt, beta: ExtInt, maximizing: bool, c: Color, ko: seq<string>, t: Table)
    requires IsSquare(b) && Serialize(b) !in t
    requires depth == 0 || |LegalMoves(b, c, ko)| == 0
    ensures Minimax(b, depth, alpha, beta, maximizing, c, ko, t) == (EvaluateBoard(b, c), t[Serialize(b) := EvaluateBoard(b, c)])
  {
    if depth != 0 {
      assert |MoveOrdering(Colours(b), LegalMoves(b, c, ko))| == 0;
    }
  }

  /**
   * The maximising `for` loop of `minimax` from move `idx` on: each child
   * gets the mover's stone and is searched as a minimising node of the
   * other colour; the loop stops once `alpha >= beta`.
   */
  function MaxLoop(b: Board, depth: int, alpha: ExtInt, beta: ExtInt, c: Color, ko: seq<string>,
                   moves: seq<Pos>, idx: nat, value: ExtInt, t: Table): (r: (ExtInt, Table))
    requires IsSquare(b) && idx <= |moves| && OnEmptyPoints(b, moves) && value != PosInf
    ensures Extends(t, r.1)
    ensures idx < |moves| || value.Fin? ==> r.0.Fin?
    ensures AtLeast(r.0, value)
    decreases |EmptyCells(Colours(b))|, 0, |moves| - idx
  {
    if idx == |moves| then (value, t)
    else
      var m := moves[idx];
      ChildShrinks(b, m, c);
      var sub := Minimax(Child(b, m, c), depth - 1, alpha, beta, false, Opposite(c), ko, t);
      var value' := Max(value, Fin(sub.0));
      var alpha' := Max(alpha, value');
      if AtLeast(alpha', beta) then (value', sub.1)
      else MaxLoop(b, depth, alpha', beta, c, ko, moves, idx + 1, value', sub.1)
  }

  /**
   * The minimising `for` loop of `minimax`: each child gets the opposing
   * colour's stone and is searched as a maximising node of colour `c`.
   */
  function MinLoop(b: Board, depth: int, alpha: ExtInt, beta: ExtInt, c: Color, ko: seq<string>,
                   moves: seq<Pos>, idx: nat, value: ExtInt, t: Table): (r: (ExtInt, Table))
    requires IsSquare(b) && idx <= |moves| && OnEmptyPoints(b, moves) && value != NegInf
    ensures Extends(t, r.1)
    ensures idx < |moves| || value.Fin? ==> r.0.Fin?
    ensures AtLeast(value, r.0)
    decreases |EmptyCells(Colours(b))|, 0, |moves| - idx
  {
    if idx == |moves| then (value, t)
    else
      var m := moves[idx];
      ChildShrinks(b, m, Opposite(c));
      var sub := Minimax(Child(b, m, Opposite(c)), depth - 1, alpha, beta, true, c, ko, t);
      var value' := Min(value, Fin(sub.0));
      var beta' := Min(beta, value');
      if AtLeast(alpha, beta') then (value', sub.1)
      else MinLoop(b, depth, alpha, beta', c, ko, moves, idx + 1, value', sub.1)
  }

  /** Every move lies on the board. */
  ghost predicate OnBoard(b: Board, moves: seq<Pos>)
    requires IsSquare(b)
  {
    forall m :: m in moves ==> InBounds(|b|, m)
  }

  lemma LegalMovesOnBoard(b: Board, c: Color, ko: seq<string>)
    requires IsSquare(b)
    ensures OnBoard(b, LegalMoves(b, c, ko))
  {
    forall m | m in LegalMoves(b, c, ko) ensures InBounds(|b|, m) {
      assert IsLegalEmpty(b, m, c, ko);
    }
  }

  /**
   * One iteration's work in `getMinimaxMove` as a value: the search of the
   * child that a move produces, taking and returning the table.
   */
  type Probe<!T> = (Pos, T) -> (int, T)

  /**
   * The probe of `getMinimaxMove`: put the mover's stone on the move, settle
   * the liberty counts, and search the child as a minimising node of the
   * other colour with the full window. (Moves always lie on the board; the
   * guard only makes the probe total.)
   */
  function SearchChild(b: Board, c: Color, depth: int, ko: seq<string>): Probe<Table>
    requires IsSquare(b)
  {
    (m: Pos, t: Table) =>
      if InBounds(|b|, m) then Minimax(Child(b, m, c), depth - 1, NegInf, PosInf, false, Opposite(c), ko, t) else (0, t)
  }

  /** The table key of the child a move produces. */
  function ChildKey(b: Board, c: Color): Pos -> string
    requires IsSquare(b)
  {
    m => if InBounds(|b|, m) then Serialize(Child(b, m, c)) else ""
  }

  /** For the moves of `moves`, the probe keeps every entry and records the value it returns under the move's key. */
  ghost predicate Records(f: Probe<Table>, key: Pos -> string, moves: seq<Pos>)
  {
    forall m, t :: m in moves ==> Extends(t, f(m, t).1) && key(m) in f(m, t).1 && f(m, t).1[key(m)] == f(m, t).0
  }

  /** For the moves of `moves`, a key already in the table is answered from it, the table untouched. */
  ghost predicate Caches(f: Probe<Table>, key: Pos -> string, moves: seq<Pos>)
  {
    forall m, t :: m in moves && key(m) in t ==> f(m, t) == (t[key(m)], t)
  }

  /** The child searches of `getMinimaxMove` behave as `minimax`'s contract says. */
  lemma SearchChildIsTabled(b: Board, c: Color, depth: int, ko: seq<string>, moves: seq<Pos>)
    requires IsSquare(b) && OnBoard(b, moves)
    ensures Records(SearchChild(b, c, depth, ko), ChildKey(b, c), moves)
    ensures Caches(SearchChild(b, c, depth, ko), ChildKey(b, c), moves)
  {
  }

  /** The values the probe returns for the moves from `idx` on, the table passed from one probe to the next. */
  function ChildValues<T>(f: Probe<T>, moves: seq<Pos>, idx: nat, t: T): (r: (seq<int>, T))
    requires idx <= |moves|
    ensures |r.0| == |moves| - idx
    decreases |moves| - idx
  {
    if idx == |moves| then ([], t)
    else
      var sub := f(moves[idx], t);
      var rest := ChildValues(f, moves, idx + 1, sub.1);
      ([sub.0] + rest.0, rest.1)
  }

  /** With a recording probe, the table keeps its entries and ends holding every move's value under its key. */
  lemma {:induction false} ChildValuesRecorded(f: Probe<Table>, key: Pos -> string, moves: seq<Pos>, idx: nat, t: Table)
    requires idx <= |moves| && Records(f, key, moves)
    ensures var cv := ChildValues(f, moves, idx, t);
            && Extends(t, cv.1)
            && forall j :: idx <= j < |moves| ==> key(moves[j]) in cv.1 && cv.1[key(moves[j])] == cv.0[j - idx]
    decreases |moves| - idx
  {
    if idx < |moves| {
      var sub := f(moves[idx], t);
      assert moves[idx] in moves;
      ChildValuesRecorded(f, key, moves, idx + 1, sub.1);
    }
  }

  /** With a caching probe and every move's key already in the table, the values are read back and the table is untouched. */
  lemma {:induction false} ChildValuesCached(f: Probe<Table>, key: Pos -> string, moves: seq<Pos>, idx: nat, t: Table, vals: seq<int>)
    requires idx <= |moves| && Caches(f, key, moves) && |vals| == |moves| - idx
    requires forall j :: idx <= j < |moves| ==> key(moves[j]) in t && t[key(moves[j])] == vals[j - idx]
    ensures ChildValues(f, moves, idx, t) == (vals, t)
    decreases |moves| - idx
  {
    if idx < |moves| {
      assert moves[idx] in moves;
      assert f(moves[idx], t) == (vals[0], t);
      ChildValuesCached(f, key, moves, idx + 1, t, vals[1..]);
      assert vals == [vals[0]] + vals[1..];
    }
  }

  /**
   * A probe that, from any table satisfying `inv`, returns `g` of the move
   * and a table still satisfying `inv` makes the values exactly `g` of the
   * moves.
   */
  lemma {:induction false} ChildValuesAnswer<T>(f: Probe<T>, g: Pos -> int, inv: T -> bool, moves: seq<Pos>, idx: nat, t: T)
    requires idx <= |moves| && inv(t)
    requires forall m, s :: m in moves && inv(s) ==> f(m, s).0 == g(m) && inv(f(m, s).1)
    ensures var cv := ChildValues(f, moves, idx, t);
            && inv(cv.1)
            && forall j :: idx <= j < |moves| ==> cv.0[j - idx] == g(moves[j])
    decreases |moves| - idx
  {
    if idx < |moves| {
      assert moves[idx] in moves;
      ChildValuesAnswer(f, g, inv, moves, idx + 1, f(moves[idx], t).1);
    }
  }

  /** The scan for the best value from index `i` on, `bi` the best so far; only a strictly larger value replaces it. */
  function ArgMaxFrom(vals: seq<int>, i: nat, bi: nat): (r: nat)
    requires bi < i <= |vals|
    requires forall k :: 0 <= k < i ==> vals[k] <= vals[bi]
    requires forall k :: 0 <= k < bi ==> vals[k] < vals[bi]
    ensures r < |vals|
    ensures forall k :: 0 <= k < |vals| ==> vals[k] <= vals[r]
    ensures forall k :: 0 <= k < r ==> vals[k] < vals[r]
    decreases |vals| - i
  {
    if i == |vals| then bi
    else if vals[i] > vals[bi] then ArgMaxFrom(vals, i + 1, i)
    else ArgMaxFrom(vals, i + 1, bi)
  }

  /** The first position of the largest value. */
  function FirstMaxIndex(vals: seq<int>): (r: nat)
    requires |vals| > 0
    ensures r < |vals|
    ensures forall k :: 0 <= k < |vals| ==> vals[k] <= vals[r]
    ensures forall k :: 0 <= k < r ==> vals[k] < vals[r]
  {
    ArgMaxFrom(vals, 1, 0)
  }

  /** The `for` loop of `getMinimaxMove` from move `idx` on, `best` and `bestValue` as the loop holds them. */
  function MoveLoop<T>(f: Probe<T>, moves: seq<Pos>, idx: nat, best: Option<Pos>, bestValue: ExtInt, t: T): (r: (Option<Pos>, T))
    requires idx <= |moves|
    ensures r.1 == ChildValues(f, moves, idx, t).1
    decreases |moves| - idx
  {
    if idx == |moves| then (best, t)
    else
      var sub := f(moves[idx], t);
      if !AtLeast(bestValue, Fin(sub.0)) then
        MoveLoop(f, moves, idx + 1, Some(moves[idx]), Fin(sub.0), sub.1)
      else
        MoveLoop(f, moves, idx + 1, best, bestValue, sub.1)
  }

  /** Once a first move is held, the loop ends on the move the value scan picks. */
  lemma {:induction false} MoveLoopFollowsScan<T>(f: Probe<T>, moves: seq<Pos>, idx: nat, bi: nat, all: seq<int>, t: T)
    requires bi < idx <= |moves| == |all|
    requires ChildValues(f, moves, idx, t).0 == all[idx..]
    requires forall k :: 0 <= k < idx ==> all[k] <= all[bi]
    requires forall k :: 0 <= k < bi ==> all[k] < all[bi]
    ensures MoveLoop(f, moves, idx, Some(moves[bi]), Fin(all[bi]), t).0 == Some(moves[ArgMaxFrom(all, idx, bi)])
    decreases |moves| - idx
  {
    if idx < |moves| {
      var sub := f(moves[idx], t);
      var rest := ChildValues(f, moves, idx + 1, sub.1);
      assert all[idx..] == [sub.0] + rest.0;
      assert all[idx] == sub.0 && all[idx + 1..] == rest.0;
      if all[idx] > all[bi] {
        MoveLoopFollowsScan(f, moves, idx + 1, idx, all, sub.1);
      } else {
        MoveLoopFollowsScan(f, moves, idx + 1, bi, all, sub.1);
      }
    }
  }

  /** The whole loop: no move for no moves, else the first move with the largest value; the table as the probes leave it. */
  lemma MoveLoopPicksFirstMax<T>(f: Probe<T>, moves: seq<Pos>, t: T)
    ensures var cv := ChildValues(f, moves, 0, t);
            var r := MoveLoop(f, moves, 0, None, NegInf, t);
            && r.1 == cv.1
            && (|moves| == 0 ==> r.0 == None)
            && (|moves| > 0 ==> r.0 == Some(moves[FirstMaxIndex(cv.0)]))
  {
    if |moves| > 0 {
      var cv := ChildValues(f, moves, 0, t);
      var sub := f(moves[0], t);
      assert cv.0[1..] == ChildValues(f, moves, 1, sub.1).0;
      MoveLoopFollowsScan(f, moves, 1, 0, cv.0, sub.1);
    }
  }

  /** The values `g` gives the moves, in move order. */
  function Scores(g: Pos -> int, moves: seq<Pos>): (r: seq<int>)
    ensures |r| == |moves|
    ensures forall j :: 0 <= j < |moves| ==> r[j] == g(moves[j])
  {
    seq(|moves|, j requires 0 <= j < |moves| => g(moves[j]))
  }

  /**
   * A probe that answers with `g` while the table satisfies `inv`, and keeps
   * `inv`, makes the move loop pick the first move with the largest `g`.
   */
  lemma LoopAnswers<T>(f: Probe<T>, g: Pos -> int, inv: T -> bool, moves: seq<Pos>, t: T)
    requires inv(t)
    requires forall m, s :: m in moves && inv(s) ==> f(m, s).0 == g(m) && inv(f(m, s).1)
    ensures var r := MoveLoop(f, moves, 0, None, NegInf, t);
            && inv(r.1)
            && r.0 == if |moves| == 0 then None else Some(moves[FirstMaxIndex(Scores(g, moves))])
  {
    var cv := ChildValues(f, moves, 0, t);
    ChildValuesAnswer(f, g, inv, moves, 0, t);
    assert cv.0 == Scores(g, moves) by {
      forall j | 0 <= j < |moves| ensures cv.0[j] == Scores(g, moves)[j] {
        assert cv.0[j - 0] == g(moves[j]);
      }
    }
    MoveLoopPicksFirstMax(f, moves, t);
  }

  /**
   * `getMinimaxMove`: the first legal move, in row-major order, whose child
   * value is the largest; none when there is no legal move. The table ends
   * as the child searches leave it.
   */
  function GetMinimaxMove(b: Board, c: Color, depth: int, ko: seq<string>, t: Table): (r: (Option<Pos>, Table))
    requires IsSquare(b)
    ensures var moves := LegalMoves(b, c, ko);
            var cv := ChildValues(SearchChild(b, c, depth, ko), moves, 0, t);
            && r.1 == cv.1
            && (r.0.None? <==> |moves| == 0)
            && (|moves| > 0 ==> r.0 == Some(moves[FirstMaxIndex(cv.0)]))
  {
    MoveLoopPicksFirstMax(SearchChild(b, c, depth, ko), LegalMoves(b, c, ko), t);
    MoveLoop(SearchChild(b, c, depth, ko), LegalMoves(b, c, ko), 0, None, NegInf, t)
  }

  /** The loop of `iterativeDeepening` from `depth` on: each pass replaces the move of the previous one. */
  function DeepenFrom(b: Board, c: Color, depth: int, maxDepth: int, ko: seq<string>, best: Option<Pos>, t: Table): (r: (Option<Pos>, Table))
    requires IsSquare(b)
    ensures depth > maxDepth ==> r == (best, t)
    ensures depth <= maxDepth ==> (r.0.None? <==> |LegalMoves(b, c, ko)| == 0)
    decreases maxDepth - depth
  {
    if depth > maxDepth then (best, t)
    else
      var pass := GetMinimaxMove(b, c, depth, ko, t);
      DeepenFrom(b, c, depth + 1, maxDepth, ko, pass.0, pass.1)
  }

  /** `iterativeDeepening`: no move when `maxDepth < 1` or when there is no legal move. */
  function IterativeDeepening(b: Board, c: Color, maxDepth: int, ko: seq<string>, t: Table): (r: (Option<Pos>, Table))
    requires IsSquare(b)
    ensures maxDepth < 1 ==> r == (None, t)
    ensures maxDepth >= 1 ==> (r.0.None? <==> |LegalMoves(b, c, ko)| == 0)
  {
    DeepenFrom(b, c, 1, maxDepth, ko, None, t)
  }

  /**
   * A pass of `getMinimaxMove` run on the table another pass left behind
   * finds every child's key there, whatever its own depth, so it returns the
   * earlier pass's move and leaves the table as it was.
   */
  lemma PassRepeats(b: Board, c: Color, depth1: int, depth: int, ko: seq<string>, t: Table)
    requires IsSquare(b)
    ensures var first := GetMinimaxMove(b, c, depth1, ko, t);
            GetMinimaxMove(b, c, depth, ko, first.1) == first
  {
    var moves := LegalMoves(b, c, ko);
    LegalMovesOnBoard(b, c, ko);
    SearchChildIsTabled(b, c, depth1, ko, moves);
    SearchChildIsTabled(b, c, depth, ko, moves);
    var cv := ChildValues(SearchChild(b, c, depth1, ko), moves, 0, t);
    ChildValuesRecorded(SearchChild(b, c, depth1, ko), ChildKey(b, c), moves, 0, t);
    ChildValuesCached(SearchChild(b, c, depth, ko), ChildKey(b, c), moves, 0, cv.1, cv.0);
  }

  lemma {:induction false} DeepenRepeats(b: Board, c: Color, depth1: int, depth: int, maxDepth: int, ko: seq<string>, t: Table)
    requires IsSquare(b)
    ensures var first := GetMinimaxMove(b, c, depth1, ko, t);
            DeepenFrom(b, c, depth, maxDepth, ko, first.0, first.1) == first
    decreases maxDepth - depth
  {
    if depth <= maxDepth {
      PassRepeats(b, c, depth1, depth, ko, t);
      DeepenRepeats(b, c, depth1, depth + 1, maxDepth, ko, t);
    }
  }

  /**
   * `iterativeDeepening` as written returns exactly what the depth-1 pass
   * returns, table included, for every `maxDepth >= 1`: the deeper passes
   * never search below the first ply.
   */
  lemma DeepeningRepeatsFirstPly(b: Board, c: Color, maxDepth: int, ko: seq<string>, t: Table)
    requires IsSquare(b) && maxDepth >= 1
    ensures IterativeDeepening(b, c, maxDepth, ko, t) == GetMinimaxMove(b, c, 1, ko, t)
  {
    DeepenRepeats(b, c, 1, 2, maxDepth, ko, t);
  }
}
