/**
 * The move choice the game calls (`getStrategicMove` and `getBestMove` in
 * src/ai.js). `Math.random()` is replaced by a caller-supplied `roll`; the
 * index `Math.floor(Math.random() * k)` becomes `roll % k`, which reaches
 * every index in `0..k-1`.
 */
module Strategy {
  import opened Wrappers
  import opened GoBoard
  import opened Legality
  import opened Search

  /** The band the strategic filter keeps: both coordinates in 3..n-4, off the first three lines. */
  predicate Central(n: int, m: Pos)
  {
    m.i > 2 && m.i < n - 3 && m.j > 2 && m.j < n - 3
  }

  /** `legalMoves.filter(...)` with the band test, order kept. */
  function CentralMoves(n: int, s: seq<Pos>): (r: seq<Pos>)
    ensures |r| <= |s|
    ensures forall q :: q in r <==> q in s && Central(n, q)
  {
    if |s| == 0 then []
    else (if Central(n, s[0]) then [s[0]] else []) + CentralMoves(n, s[1..])
  }

  lemma {:induction false} NoCentralMoves(n: int, s: seq<Pos>)
    requires forall q :: q in s ==> !Central(n, q)
    ensures CentralMoves(n, s) == []
  {
    if |s| > 0 {
      assert s[0] in s;
      NoCentralMoves(n, s[1..]);
    }
  }

  /**
   * The body of `getStrategicMove` once the legal moves are known: a random
   * central move if there is one, else a random legal move.
   */
  function PickStrategic(n: int, legal: seq<Pos>, roll: nat): (r: Option<Pos>)
    ensures r.None? <==> |legal| == 0
    ensures r.Some? ==> r.value in legal
    ensures r.Some? && (exists q :: q in legal && Central(n, q)) ==> Central(n, r.value)
  {
    if |legal| == 0 then None
    else
      var central := CentralMoves(n, legal);
      if |central| > 0 then
        assert central[roll % |central|] in central;
        Some(central[roll % |central|])
      else
        assert forall q :: q in legal ==> !Central(n, q);
        Some(legal[roll % |legal|])
  }

  /** Every central candidate is drawn for some roll. */
  lemma PickReachesCentral(n: int, legal: seq<Pos>, m: Pos)
    requires m in legal && Central(n, m)
    ensures exists roll: nat :: PickStrategic(n, legal, roll) == Some(m)
  {
    var central := CentralMoves(n, legal);
    assert m in central;
    var k :| 0 <= k < |central| && central[k] == m;
    assert k % |central| == k;
    assert PickStrategic(n, legal, k) == Some(m);
  }

  /** With no central candidate, every candidate is drawn for some roll. */
  lemma PickReachesAny(n: int, legal: seq<Pos>, m: Pos)
    requires m in legal
    requires forall q :: q in legal ==> !Central(n, q)
    ensures exists roll: nat :: PickStrategic(n, legal, roll) == Some(m)
  {
    NoCentralMoves(n, legal);
    var k :| 0 <= k < |legal| && legal[k] == m;
    assert k % |legal| == k;
    assert PickStrategic(n, legal, k) == Some(m);
  }

  /**
   * `getStrategicMove`: no move exactly when there is no legal move;
   * otherwise a legal move, taken from the central band whenever the band
   * holds a legal move.
   */
  function GetStrategicMove(b: Board, c: Color, ko: seq<string>, roll: nat): (r: Option<Pos>)
    requires IsSquare(b)
    ensures r.None? <==> |LegalMoves(b, c, ko)| == 0
    ensures r.Some? ==> r.value in LegalMoves(b, c, ko)
    ensures r.Some? && (exists q :: q in LegalMoves(b, c, ko) && Central(|b|, q)) ==> Central(|b|, r.value)
  {
    PickStrategic(|b|, LegalMoves(b, c, ko), roll)
  }

  /**
   * The draw is fair in reach: every central legal move is the strategic
   * move for some roll, and so is every legal move when none is central.
   */
  lemma StrategicRollReaches(b: Board, c: Color, ko: seq<string>, m: Pos)
    requires IsSquare(b) && m in LegalMoves(b, c, ko)
    ensures Central(|b|, m) ==> exists roll: nat :: GetStrategicMove(b, c, ko, roll) == Some(m)
    ensures (forall q :: q in LegalMoves(b, c, ko) ==> !Central(|b|, q)) ==>
              exists roll: nat :: GetStrategicMove(b, c, ko, roll) == Some(m)
  {
    var legal := LegalMoves(b, c, ko);
    if Central(|b|, m) {
      PickReachesCentral(|b|, legal, m);
      var roll: nat :| PickStrategic(|b|, legal, roll) == Some(m);
      assert GetStrategicMove(b, c, ko, roll) == Some(m);
    }
    if forall q :: q in legal ==> !Central(|b|, q) {
      PickReachesAny(|b|, legal, m);
      var roll: nat :| PickStrategic(|b|, legal, roll) == Some(m);
      assert GetStrategicMove(b, c, ko, roll) == Some(m);
    }
  }

  /**
   * `getBestMove`: the strategic move, falling back on `getMinimaxMove`
   * (with the board-keyed table `iterativeDeepening` also uses) when there
   * is none. The fallback only runs when there is no legal move, so it never
   * supplies a move and never changes the table.
   */
  function GetBestMove(b: Board, c: Color, depth: int, ko: seq<string>, roll: nat, t: Table): (r: (Option<Pos>, Table))
    requires IsSquare(b)
    ensures r == (GetStrategicMove(b, c, ko, roll), t)
  {
    var strategic := GetStrategicMove(b, c, ko, roll);
    if strategic.Some? then (strategic, t)
    else
      assert MoveLoop(SearchChild(b, c, depth, ko), LegalMoves(b, c, ko), 0, None, NegInf, t) == (None, t);
      GetMinimaxMove(b, c, depth, ko, t)
  }
}
