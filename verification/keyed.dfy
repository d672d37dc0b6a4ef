/**
 * The search of src/ai.js with the transposition table keyed by everything
 * the value of `minimax` depends on (board, depth, window, role and
 * colour) instead of by the serialized board alone. With that key a stored
 * value is always the value the same search would compute, so the table
 * only saves work: the move chosen is that of the plain alpha-beta search,
 * and each pass of iterative deepening searches to its own depth.
 */
module KeyedSearch {
  import opened Wrappers
  import opened GoBoard
  import opened Legality
  import opened Ordering
  import opened Evaluation
  import opened Search

  /** `minimax` without a table: the reference the keyed search is measured against. */
  function AlphaBeta(b: Board, depth: int, alpha: ExtInt, beta: ExtInt, maximizing: bool, c: Color, ko: seq<string>): int
    requires IsSquare(b)
    decreases |EmptyCells(Colours(b))|, 1, 0
  {
    if depth == 0 then EvaluateBoard(b, c)
    else
      var moves := MoveOrdering(Colours(b), LegalMoves(b, c, ko));
      if |moves| == 0 then EvaluateBoard(b, c)
      else
        OrderedMovesEmpty(b, c, ko);
        if maximizing then AlphaBetaMax(b, depth, alpha, beta, c, ko, moves, 0, NegInf).v
        else AlphaBetaMin(b, depth, alpha, beta, c, ko, moves, 0, PosInf).v
  }

  function AlphaBetaMax(b: Board, depth: int, alpha: ExtInt, beta: ExtInt, c: Color, ko: seq<string>,
                        moves: seq<Pos>, idx: nat, value: ExtInt): (r: ExtInt)
    requires IsSquare(b) && idx <= |moves| && OnEmptyPoints(b, moves) && value != PosInf
    ensures idx < |moves| || value.Fin? ==> r.Fin?
    decreases |EmptyCells(Colours(b))|, 0, |moves| - idx
  {
    if idx == |moves| then value
    else
      var m := moves[idx];
      ChildShrinks(b, m, c);
      var value' := Max(value, Fin(AlphaBeta(Child(b, m, c), depth - 1, alpha, beta, false, Opposite(c), ko)));
      var alpha' := Max(alpha, value');
      if AtLeast(alpha', beta) then value'
      else AlphaBetaMax(b, depth, alpha', beta, c, ko, moves, idx + 1, value')
  }

  function AlphaBetaMin(b: Board, depth: int, alpha: ExtInt, beta: ExtInt, c: Color, ko: seq<string>,
                        moves: seq<Pos>, idx: nat, value: ExtInt): (r: ExtInt)
    requires IsSquare(b) && idx <= |moves| && OnEmptyPoints(b, moves) && value != NegInf
    ensures idx < |moves| || value.Fin? ==> r.Fin?
    decreases |EmptyCells(Colours(b))|, 0, |moves| - idx
  {
    if idx == |moves| then value
    else
      var m := moves[idx];
      ChildShrinks(b, m, Opposite(c));
      var value' := Min(value, Fin(AlphaBeta(Child(b, m, Opposite(c)), depth - 1, alpha, beta, true, c, ko)));
      var beta' := Min(beta, value');
      if AtLeast(alpha, beta') then value'
      else AlphaBetaMin(b, depth, alpha, beta', c, ko, moves, idx + 1, value')
  }

  /** Everything a call of `minimax` depends on, the Ko history aside (it is the same for the whole search). */
  datatype SearchKey = SearchKey(board: Board, depth: int, alpha: ExtInt, beta: ExtInt, maximizing: bool, color: Color)

  type KeyedTable = map<SearchKey, int>

  /** Every entry holds the value the plain search gives for its key. */
  ghost predicate Sound(t: KeyedTable, ko: seq<string>)
  {
    forall k :: k in t ==> IsSquare(k.board) && t[k] == AlphaBeta(k.board, k.depth, k.alpha, k.beta, k.maximizing, k.color, ko)
  }

  /** Storing the plain search's value under its key keeps a table sound. */
  lemma SoundStore(t: KeyedTable, key: SearchKey, v: int, ko: seq<string>)
    ensures Sound(t, ko) && IsSquare(key.board) && v == AlphaBeta(key.board, key.depth, key.alpha, key.beta, key.maximizing, key.color, ko)
            ==> Sound(t[key := v], ko)
  {
  }

  /**
   * `minimax` with the full key. From a sound table it returns the plain
   * search's value and leaves the table sound.
   */
  function KeyedMinimax(b: Board, depth: int, alpha: ExtInt, beta: ExtInt, maximizing: bool, c: Color,
                        ko: seq<string>, t: KeyedTable): (r: (int, KeyedTable))
    requires IsSquare(b)
    ensures Sound(t, ko) ==> r.0 == AlphaBeta(b, depth, alpha, beta, maximizing, c, ko) && Sound(r.1, ko)
    decreases |EmptyCells(Colours(b))|, 1, 0
  {
    var key := SearchKey(b, depth, alpha, beta, maximizing, c);
    if key in t then (t[key], t)
    else if depth == 0 then
      var e := EvaluateBoard(b, c);
      SoundStore(t, key, e, ko);
      (e, t[key := e])
    else
      var moves := MoveOrdering(Colours(b), LegalMoves(b, c, ko));
      if |moves| == 0 then
        var e := EvaluateBoard(b, c);
        SoundStore(t, key, e, ko);
        (e, t[key := e])
      else
        OrderedMovesEmpty(b, c, ko);
        var loop := if maximizing then KeyedMaxLoop(b, depth, alpha, beta, c, ko, moves, 0, NegInf, t)
                    else KeyedMinLoop(b, depth, alpha, beta, c, ko, moves, 0, PosInf, t);
        var value := loop.0.v;
        SoundStore(loop.1, key, value, ko);
        (value, loop.1[key := value])
  }

  function KeyedMaxLoop(b: Board, depth: int, alpha: ExtInt, beta: ExtInt, c: Color, ko: seq<string>,
                        moves: seq<Pos>, idx: nat, value: ExtInt, t: KeyedTable): (r: (ExtInt, KeyedTable))
    requires IsSquare(b) && idx <= |moves| && OnEmptyPoints(b, moves) && value != PosInf
    ensures idx < |moves| || value.Fin? ==> r.0.Fin?
    ensures Sound(t, ko) ==> r.0 == AlphaBetaMax(b, depth, alpha, beta, c, ko, moves, idx, value) && Sound(r.1, ko)
    decreases |EmptyCells(Colours(b))|, 0, |moves| - idx
  {
    if idx == |moves| then (value, t)
    else
      var m := moves[idx];
      ChildShrinks(b, m, c);
      var sub := KeyedMinimax(Child(b, m, c), depth - 1, alpha, beta, false, Opposite(c), ko, t);
      var value' := Max(value, Fin(sub.0));
      var alpha' := Max(alpha, value');
      if AtLeast(alpha', beta) then (value', sub.1)
      else KeyedMaxLoop(b, depth, alpha', beta, c, ko, moves, idx + 1, value', sub.1)
  }

  function KeyedMinLoop(b: Board, depth: int, alpha: ExtInt, beta: ExtInt, c: Color, ko: seq<string>,
                        moves: seq<Pos>, idx: nat, value: ExtInt, t: KeyedTable): (r: (ExtInt, KeyedTable))
    requires IsSquare(b) && idx <= |moves| && OnEmptyPoints(b, moves) && value != NegInf
    ensures idx < |moves| || value.Fin? ==> r.0.Fin?
    ensures Sound(t, ko) ==> r.0 == AlphaBetaMin(b, depth, alpha, beta, c, ko, moves, idx, value) && Sound(r.1, ko)
    decreases |EmptyCells(Colours(b))|, 0, |moves| - idx
  {
    if idx == |moves| then (value, t)
    else
      var m := moves[idx];
      ChildShrinks(b, m, Opposite(c));
      var sub := KeyedMinimax(Child(b, m, Opposite(c)), depth - 1, alpha, beta, true, c, ko, t);
      var value' := Min(value, Fin(sub.0));
      var beta' := Min(beta, value');
      if AtLeast(alpha, beta') then (value', sub.1)
      else KeyedMinLoop(b, depth, alpha, beta', c, ko, moves, idx + 1, value', sub.1)
  }

  /** The plain search's value of the child a move produces, as `getMinimaxMove` asks for it. */
  function ChildValue(b: Board, c: Color, depth: int, ko: seq<string>, m: Pos): int
    requires IsSquare(b)
  {
    if InBounds(|b|, m) then AlphaBeta(Child(b, m, c), depth - 1, NegInf, PosInf, false, Opposite(c), ko) else 0
  }

  function ChildValueOf(b: Board, c: Color, depth: int, ko: seq<string>): Pos -> int
    requires IsSquare(b)
  {
    m => ChildValue(b, c, depth, ko, m)
  }

  /** The move the plain search picks at `depth`: the first legal move with the largest child value. */
  function PlainMove(b: Board, c: Color, depth: int, ko: seq<string>): Option<Pos>
    requires IsSquare(b)
  {
    var moves := LegalMoves(b, c, ko);
    if |moves| == 0 then None
    else Some(moves[FirstMaxIndex(Scores(ChildValueOf(b, c, depth, ko), moves))])
  }

  ghost function SoundIn(ko: seq<string>): KeyedTable -> bool
  {
    t => Sound(t, ko)
  }

  /** The probe of `getMinimaxMove` on the keyed table. */
  function KeyedChild(b: Board, c: Color, depth: int, ko: seq<string>): Probe<KeyedTable>
    requires IsSquare(b)
  {
    (m: Pos, t: KeyedTable) =>
      if InBounds(|b|, m) then KeyedMinimax(Child(b, m, c), depth - 1, NegInf, PosInf, false, Opposite(c), ko, t) else (0, t)
  }

  /** From a sound table, a probe returns the plain value and leaves the table sound. */
  lemma KeyedChildAnswers(b: Board, c: Color, depth: int, ko: seq<string>)
    requires IsSquare(b)
    ensures forall m, t :: Sound(t, ko) ==>
              KeyedChild(b, c, depth, ko)(m, t).0 == ChildValueOf(b, c, depth, ko)(m) && Sound(KeyedChild(b, c, depth, ko)(m, t).1, ko)
  {
  }

  /** The loop of `getMinimaxMove` on the keyed table, run from a sound table, picks the plain search's move. */
  lemma KeyedLoopIsPlain(b: Board, c: Color, depth: int, ko: seq<string>, t: KeyedTable)
    requires IsSquare(b)
    ensures var r := MoveLoop(KeyedChild(b, c, depth, ko), LegalMoves(b, c, ko), 0, None, NegInf, t);
            && (r.0.None? <==> |LegalMoves(b, c, ko)| == 0)
            && (Sound(t, ko) ==> r.0 == PlainMove(b, c, depth, ko) && Sound(r.1, ko))
  {
    var f := KeyedChild(b, c, depth, ko);
    var moves := LegalMoves(b, c, ko);
    MoveLoopPicksFirstMax(f, moves, t);
    if Sound(t, ko) {
      KeyedChildAnswers(b, c, depth, ko);
      LoopAnswers(f, ChildValueOf(b, c, depth, ko), SoundIn(ko), moves, t);
    }
  }

  /**
   * `getMinimaxMove` on the keyed table: from a sound table, the move of
   * the plain search at `depth`, whatever the table already holds.
   */
  function KeyedGetMinimaxMove(b: Board, c: Color, depth: int, ko: seq<string>, t: KeyedTable): (r: (Option<Pos>, KeyedTable))
    requires IsSquare(b)
    ensures r.0.None? <==> |LegalMoves(b, c, ko)| == 0
    ensures Sound(t, ko) ==> r.0 == PlainMove(b, c, depth, ko) && Sound(r.1, ko)
  {
    KeyedLoopIsPlain(b, c, depth, ko, t);
    MoveLoop(KeyedChild(b, c, depth, ko), LegalMoves(b, c, ko), 0, None, NegInf, t)
  }

  /** The loop of `iterativeDeepening` on the keyed table, from `depth` on. */
  function KeyedDeepenFrom(b: Board, c: Color, depth: int, maxDepth: int, ko: seq<string>, best: Option<Pos>, t: KeyedTable): (r: (Option<Pos>, KeyedTable))
    requires IsSquare(b)
    ensures depth > maxDepth ==> r == (best, t)
    ensures depth <= maxDepth && Sound(t, ko) ==> r.0 == PlainMove(b, c, maxDepth, ko) && Sound(r.1, ko)
    decreases maxDepth - depth
  {
    if depth > maxDepth then (best, t)
    else
      var pass := KeyedGetMinimaxMove(b, c, depth, ko, t);
      KeyedDeepenFrom(b, c, depth + 1, maxDepth, ko, pass.0, pass.1)
  }

  /**
   * `iterativeDeepening` on the keyed table: from a sound table (the empty
   * one, say), the move of the plain search at `maxDepth`.
   */
  function KeyedIterativeDeepening(b: Board, c: Color, maxDepth: int, ko: seq<string>, t: KeyedTable): (r: (Option<Pos>, KeyedTable))
    requires IsSquare(b)
    ensures maxDepth < 1 ==> r == (None, t)
    ensures maxDepth >= 1 && Sound(t, ko) ==> r.0 == PlainMove(b, c, maxDepth, ko)
  {
    KeyedDeepenFrom(b, c, 1, maxDepth, ko, None, t)
  }

  lemma EmptyTableIsSound(ko: seq<string>)
    ensures Sound(map[], ko)
  {
  }
}
