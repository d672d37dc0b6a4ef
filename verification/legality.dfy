/**
 * Move legality for the search (`isEyePoint`, `isMoveLegal` and
 * `getLegalMoves` in src/ai.js). The Ko history, a global array in the
 * source that nothing shown ever appends to, is a parameter here.
 */
module Legality {
  import opened Wrappers
  import opened GoBoard
  import opened Liberties
  import opened Groups
  import opened Settle
  import opened Serialization
  import opened Resolve

  /** The direction loop of `isEyePoint` from direction `k` on; it stops at the first failing neighbour. */
  function EyeFrom(g: Grid, p: Pos, c: Color, k: nat): (r: bool)
    requires IsSquare(g) && k <= 4
    ensures r <==> forall k' :: k <= k' < 4 ==> InBounds(|g|, Step(p, k')) && At(g, Step(p, k')) == Some(c)
    decreases 4 - k
  {
    if k == 4 then true
    else
      var n := Step(p, k);
      if InBounds(|g|, n) && At(g, n) == Some(c) then EyeFrom(g, p, c, k + 1) else false
  }

  /**
   * `isEyePoint`: all four neighbours lie on the board and hold stones of
   * colour `c`. A point on the edge never qualifies.
   */
  function IsEyePoint(g: Grid, p: Pos, c: Color): (r: bool)
    requires IsSquare(g)
    ensures r <==> forall k :: 0 <= k < 4 ==> InBounds(|g|, Step(p, k)) && At(g, Step(p, k)) == Some(c)
    ensures InBounds(|g|, p) && IsEdge(|g|, p) ==> !r
  {
    EyeFrom(g, p, c, 0)
  }

  /** A group with no liberty leaves none to any of its stones either. */
  lemma GroupLibertiesCoverStone(g: Grid, p: Pos)
    requires IsSquare(g) && InBounds(|g|, p) && At(g, p).Some?
    ensures GroupLibertyCount(g, p) == 0 ==> StoneLiberties(g, p) == 0
  {
    var c := At(g, p).value;
    ConnectedRefl(g, c, p);
    assert p in Component(g, c, p);
    assert LibertySet(g, {p}) <= LibertySet(g, Component(g, c, p));
    StoneLibertiesIsLibertySet(g, p);
  }

  /** The group `findGroup` returns from a fresh start has exactly its component's liberty count. */
  lemma FoundGroupQi(g: Grid, p: Pos)
    requires IsSquare(g) && InBounds(|g|, p) && At(g, p).Some?
    ensures GroupQi(g, FindGroup(g, p, {}).0) == GroupLibertyCount(g, p)
  {
    FindGroupIsComponent(g, p, {});
  }

  /** On a settled board the capture scan comes back empty exactly when nothing is captured. */
  lemma NoCaptureScan(b: Board, c: Color)
    requires IsSquare(b) && Settled(b)
    ensures |CapturedStones(b, c)| == 0 <==> !CapturesSomething(Colours(b), c)
  {
    CapturedStonesOfSettled(b, c);
    if CapturesSomething(Colours(b), c) {
      var q :| Captured(Colours(b), c, q);
      assert q in CapturedStones(b, c);
    }
    if |CapturedStones(b, c)| > 0 {
      assert Captured(Colours(b), c, CapturedStones(b, c)[0]);
    }
  }

  /**
   * The suicide test of `isMoveLegal` (single-stone count 0, then group
   * count 0, then no opposing stone with `qi <= 0`) is exactly the suicide
   * rule the click handler applies.
   */
  lemma SuicideTestIsSuicide(b: Board, p: Pos, c: Color)
    requires IsSquare(b) && InBounds(|b|, p)
    ensures var temp := UpdateQi(Place(b, p, c));
            var g := Colours(temp);
            At(g, p) == Some(c) &&
            ((StoneLiberties(g, p) == 0 && GroupQi(g, FindGroup(g, p, {}).0) == 0 && |CapturedStones(temp, c)| == 0)
              <==> IsSuicide(Colours(b), p, c))
  {
    var temp := UpdateQi(Place(b, p, c));
    var g := Colours(temp);
    assert g == PlacedGrid(Colours(b), p, c);
    FoundGroupQi(g, p);
    GroupLibertiesCoverStone(g, p);
    NoCaptureScan(temp, c);
  }

  /**
   * `isMoveLegal`: not one of the mover's own eyes, not a suicide, and the
   * board with the stone placed (captured stones still on it) is not in the
   * Ko history. The input board is a value and is left as it was.
   */
  function IsMoveLegal(b: Board, p: Pos, c: Color, koHistory: seq<string>): (r: bool)
    requires IsSquare(b) && InBounds(|b|, p)
    ensures r <==> && !IsEyePoint(Colours(b), p, c)
                   && !IsSuicide(Colours(b), p, c)
                   && Serialize(Place(b, p, c)) !in koHistory
  {
    if IsEyePoint(Colours(b), p, c) then false
    else
      var temp := UpdateQi(Place(b, p, c));
      var g := Colours(temp);
      SuicideTestIsSuicide(b, p, c);
      if StoneLiberties(g, p) == 0 && GroupQi(g, FindGroup(g, p, {}).0) == 0 && |CapturedStones(temp, c)| == 0 then false
      else if Serialize(temp) in koHistory then false
      else true
  }

  predicate IsLegalEmpty(b: Board, q: Pos, c: Color, koHistory: seq<string>)
    requires IsSquare(b)
  {
    InBounds(|b|, q) && b[q.i][q.j].None? && IsMoveLegal(b, q, c, koHistory)
  }

  predicate RowMajorSorted(s: seq<Pos>)
  {
    forall a, b :: 0 <= a < b < |s| ==> RowMajorLess(s[a], s[b])
  }

  lemma ConsSorted(p: Pos, rest: seq<Pos>)
    requires RowMajorSorted(rest)
    requires forall q :: q in rest ==> RowMajorLess(p, q)
    ensures RowMajorSorted([p] + rest)
  {
    var r := [p] + rest;
    forall a, d | 0 <= a < d < |r| ensures RowMajorLess(r[a], r[d]) {
      assert r[d] == rest[d - 1];
      if a > 0 {
        assert r[a] == rest[a - 1];
      }
    }
  }

  /** One cell of a row-major scan that keeps the cells satisfying `keep`. */
  lemma ScanStep(keep: Pos -> bool, x: int, y: int, rest: seq<Pos>, here: bool)
    requires here == keep(Pos(x, y))
    requires forall q :: q in rest <==> AtOrAfter(q, x, y + 1) && keep(q)
    requires RowMajorSorted(rest)
    ensures var r := if here then [Pos(x, y)] + rest else rest;
            && (forall q :: q in r <==> AtOrAfter(q, x, y) && keep(q))
            && RowMajorSorted(r)
  {
    assert forall q :: AtOrAfter(q, x, y) <==> q == Pos(x, y) || AtOrAfter(q, x, y + 1);
    if here {
      ConsSorted(Pos(x, y), rest);
    }
  }

  function LegalAt(b: Board, c: Color, koHistory: seq<string>): Pos -> bool
    requires IsSquare(b)
  {
    q => IsLegalEmpty(b, q, c, koHistory)
  }

  /** The nested loops of `getLegalMoves`, from cell `(x, y)` on. */
  function LegalScan(b: Board, c: Color, koHistory: seq<string>, x: int, y: int): (r: seq<Pos>)
    requires IsSquare(b) && 0 <= x && 0 <= y
    ensures forall q :: q in r <==> AtOrAfter(q, x, y) && IsLegalEmpty(b, q, c, koHistory)
    ensures RowMajorSorted(r)
    decreases |b| - x, |b| - y
  {
    if x >= |b| then []
    else if y >= |b| then LegalScan(b, c, koHistory, x + 1, 0)
    else
      var rest := LegalScan(b, c, koHistory, x, y + 1);
      var here := b[x][y].None? && IsMoveLegal(b, Pos(x, y), c, koHistory);
      ScanStep(LegalAt(b, c, koHistory), x, y, rest, here);
      if here then [Pos(x, y)] + rest else rest
  }

  /**
   * `getLegalMoves`: the empty points where `isMoveLegal` holds, each once,
   * in row-major order.
   */
  function LegalMoves(b: Board, c: Color, koHistory: seq<string>): (r: seq<Pos>)
    requires IsSquare(b)
    ensures forall q :: q in r <==> IsLegalEmpty(b, q, c, koHistory)
    ensures RowMajorSorted(r)
    ensures Distinct(r)
  {
    LegalScan(b, c, koHistory, 0, 0)
  }
}
