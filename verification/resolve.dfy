/**
 * The move resolver inside the board's click handler (src/main.js): place a
 * stone, settle the liberty counts, remove the opposing stones left without
 * liberties, settle again, and reject a suicide. The handler's global state
 * (`lastCapturedPosition`, whose turn it is) is threaded explicitly.
 */
module Resolve {
  import opened Wrappers
  import opened GoBoard
  import opened Liberties
  import opened Groups
  import opened Settle

  /** Rejected moves leave the board, the turn and the last capture as they were. */
  datatype Outcome = Rejected | Accepted(board: Board, lastCaptured: Option<Pos>, next: Color)

  /** The colours after a stone of colour `c` is put on `p`. */
  function PlacedGrid(g: Grid, p: Pos, c: Color): Grid
    requires IsSquare(g) && InBounds(|g|, p)
  {
    SetGridCell(g, p, Some(c))
  }

  /** A stone that a move of colour `c` captures: an opposing stone whose group has no liberty. */
  ghost predicate Captured(g: Grid, c: Color, q: Pos)
    requires IsSquare(g)
  {
    InBounds(|g|, q) && At(g, q).Some? && At(g, q).value != c && GroupLibertyCount(g, q) == 0
  }

  ghost predicate CapturesSomething(g: Grid, c: Color)
    requires IsSquare(g)
  {
    exists q :: Captured(g, c, q)
  }

  /** Putting `c` on `p` leaves its own group without liberties and captures nothing. */
  ghost predicate IsSuicide(g: Grid, p: Pos, c: Color)
    requires IsSquare(g) && InBounds(|g|, p)
  {
    var placed := PlacedGrid(g, p, c);
    GroupLibertyCount(placed, p) == 0 && !CapturesSomething(placed, c)
  }

  /** The Ko pre-check: the click is on the recorded point and a lone stone there would have one liberty. */
  predicate KoBlocked(b: Board, p: Pos, lastCaptured: Option<Pos>)
    requires IsSquare(b)
  {
    lastCaptured == Some(p) && StoneLiberties(Colours(b), p) == 1
  }

  predicate IsCaptureCandidate(cell: Option<Stone>, c: Color)
  {
    cell.Some? && cell.value.qi <= 0 && cell.value.color != c
  }

  /** The row-major scan that collects `capturedStones`, from cell `(x, y)` on. */
  function CaptureScan(b: Board, c: Color, x: int, y: int): (r: seq<Pos>)
    requires IsSquare(b) && 0 <= x && 0 <= y
    ensures forall q :: q in r <==> InBounds(|b|, q) && AtOrAfter(q, x, y) && IsCaptureCandidate(b[q.i][q.j], c)
    decreases |b| - x, |b| - y
  {
    if x >= |b| then []
    else if y >= |b| then CaptureScan(b, c, x + 1, 0)
    else
      (if IsCaptureCandidate(b[x][y], c) then [Pos(x, y)] else []) + CaptureScan(b, c, x, y + 1)
  }

  /**
   * `capturedStones`: every stone not of colour `c` whose `qi` is at most 0.
   */
  function CapturedStones(b: Board, c: Color): (r: seq<Pos>)
    requires IsSquare(b)
    ensures forall q :: q in r <==> InBounds(|b|, q) && IsCaptureCandidate(b[q.i][q.j], c)
  {
    CaptureScan(b, c, 0, 0)
  }

  /** `capturedStones.forEach(pos => stones[pos.x][pos.y] = null)`. */
  function RemoveStones(b: Board, ps: seq<Pos>): (r: Board)
    requires IsSquare(b) && forall q :: q in ps ==> InBounds(|b|, q)
    ensures IsSquare(r) && |r| == |b|
    ensures forall q :: InBounds(|b|, q) ==> r[q.i][q.j] == if q in ps then None else b[q.i][q.j]
    decreases |ps|
  {
    if |ps| == 0 then b
    else
      assert ps[0] in ps;
      RemoveStones(SetCell(b, ps[0], None), ps[1..])
  }

  /** On a settled board, the capture scan finds exactly the captured stones. */
  lemma CapturedStonesOfSettled(b: Board, c: Color)
    requires IsSquare(b) && Settled(b)
    ensures forall q :: q in CapturedStones(b, c) <==> Captured(Colours(b), c, q)
  {
    forall q | InBounds(|b|, q)
      ensures IsCaptureCandidate(b[q.i][q.j], c) <==> Captured(Colours(b), c, q)
    {
      assert Colours(b)[q.i][q.j] == ColourOf(b[q.i][q.j]);
    }
  }

  /** On a settled board, the capture scan finds exactly the stones the move captures, never the mover's own stone. */
  lemma SettledCaptures(settled: Board, placed: Grid, p: Pos, c: Color)
    requires IsSquare(settled) && Settled(settled) && Colours(settled) == placed
    requires InBounds(|placed|, p) && At(placed, p) == Some(c)
    ensures forall q :: q in CapturedStones(settled, c) <==> Captured(placed, c, q)
    ensures p !in CapturedStones(settled, c)
    ensures |CapturedStones(settled, c)| > 0 <==> CapturesSomething(placed, c)
  {
    var captured := CapturedStones(settled, c);
    CapturedStonesOfSettled(settled, c);
    if CapturesSomething(placed, c) {
      var q :| Captured(placed, c, q);
      assert q in captured;
    }
    if |captured| > 0 {
      assert Captured(placed, c, captured[0]);
    }
  }

  /** Removing the captured stones and settling again empties exactly the captured points. */
  lemma AfterRemoval(settled: Board, placed: Grid, c: Color)
    requires IsSquare(settled) && Colours(settled) == placed
    requires forall q :: q in CapturedStones(settled, c) <==> Captured(placed, c, q)
    ensures var after := UpdateQi(RemoveStones(settled, CapturedStones(settled, c)));
            forall q :: InBounds(|settled|, q) ==> At(Colours(after), q) == if Captured(placed, c, q) then None else At(placed, q)
  {
    var removed := RemoveStones(settled, CapturedStones(settled, c));
    var after := UpdateQi(removed);
    forall q | InBounds(|settled|, q)
      ensures At(Colours(after), q) == if Captured(placed, c, q) then None else At(placed, q)
    {
      assert Colours(removed)[q.i][q.j] == ColourOf(removed[q.i][q.j]);
      assert Colours(settled)[q.i][q.j] == ColourOf(settled[q.i][q.j]);
    }
  }

  /** The new stone survives its own move; when nothing is captured its `qi` is its group's liberty count. */
  lemma PlacedStoneAfter(after: Board, placed: Grid, p: Pos, c: Color, nothingCaptured: bool)
    requires IsSquare(after) && IsSquare(placed) && |after| == |placed| && InBounds(|placed|, p) && Settled(after)
    requires At(placed, p) == Some(c) && At(Colours(after), p) == Some(c)
    requires nothingCaptured ==> forall q :: InBounds(|placed|, q) ==> At(Colours(after), q) == At(placed, q)
    ensures after[p.i][p.j].Some?
    ensures nothingCaptured ==> after[p.i][p.j].value.qi == GroupLibertyCount(placed, p)
  {
    assert Colours(after)[p.i][p.j] == ColourOf(after[p.i][p.j]);
    if nothingCaptured {
      GridExt(Colours(after), placed);
    }
  }

  /** The state of the board at each stage of a move that passed the occupancy and Ko checks. */
  lemma ResolveStages(b: Board, p: Pos, c: Color)
    requires IsSquare(b) && InBounds(|b|, p)
    ensures var placed := PlacedGrid(Colours(b), p, c);
            var settled := UpdateQi(Place(b, p, c));
            var captured := CapturedStones(settled, c);
            var after := UpdateQi(RemoveStones(settled, captured));
            && Colours(settled) == placed
            && (forall q :: q in captured <==> Captured(placed, c, q))
            && p !in captured
            && (|captured| > 0 <==> CapturesSomething(placed, c))
            && (forall q :: InBounds(|b|, q) ==> At(Colours(after), q) == if Captured(placed, c, q) then None else At(placed, q))
            && after[p.i][p.j].Some?
            && (|captured| == 0 ==> after[p.i][p.j].value.qi == GroupLibertyCount(placed, p))
  {
    var placed := PlacedGrid(Colours(b), p, c);
    var settled := UpdateQi(Place(b, p, c));
    var captured := CapturedStones(settled, c);
    var after := UpdateQi(RemoveStones(settled, captured));
    SettledCaptures(settled, placed, p, c);
    AfterRemoval(settled, placed, c);
    assert !Captured(placed, c, p);
    PlacedStoneAfter(after, placed, p, c, |captured| == 0);
  }

  /**
   * The click handler on the empty-or-occupied cell `p` for the player `c`:
   * `Rejected` when nothing changes, otherwise the new board, the new
   * `lastCapturedPosition` and the colour to move next.
   */
  function ResolveMove(b: Board, p: Pos, c: Color, lastCaptured: Option<Pos>): (r: Outcome)
    requires IsSquare(b) && InBounds(|b|, p)
    ensures b[p.i][p.j].Some? ==> r == Rejected
    ensures r.Rejected? <==> b[p.i][p.j].Some? || KoBlocked(b, p, lastCaptured) || IsSuicide(Colours(b), p, c)
    ensures r.Accepted? ==>
              var placed := PlacedGrid(Colours(b), p, c);
              && IsSquare(r.board) && |r.board| == |b| && Settled(r.board)
              && (forall q :: InBounds(|b|, q) ==>
                    At(Colours(r.board), q) == if Captured(placed, c, q) then None else At(placed, q))
              && (forall q :: InBounds(|b|, q) && At(placed, q) == Some(c) ==> At(Colours(r.board), q) == Some(c))
              && r.next == Opposite(c)
              && (r.lastCaptured == Some(p) <==> CapturesSomething(placed, c))
              && (r.lastCaptured.None? <==> !CapturesSomething(placed, c))
  {
    if b[p.i][p.j].Some? then Rejected
    else if lastCaptured == Some(p) && StoneLiberties(Colours(b), p) == 1 then Rejected
    else
      var settled := UpdateQi(Place(b, p, c));
      var captured := CapturedStones(settled, c);
      var after := UpdateQi(RemoveStones(settled, captured));
      ResolveStages(b, p, c);
      if after[p.i][p.j].value.qi <= 0 && |captured| == 0 then Rejected
      else Accepted(after, if |captured| > 0 then Some(p) else None, Opposite(c))
  }

  /**
   * The Ko pre-check never fires on the move after an accepted one: the
   * recorded point is the capturing stone's own point, which is occupied, so
   * the next click there is turned away by the occupancy test first, and a
   * click anywhere else is decided by the suicide rule alone.
   */
  lemma KoCheckNeverFiresNext(b: Board, p: Pos, c: Color, lastCaptured: Option<Pos>, q: Pos)
    requires IsSquare(b) && InBounds(|b|, p) && InBounds(|b|, q)
    requires ResolveMove(b, p, c, lastCaptured).Accepted?
    ensures var r := ResolveMove(b, p, c, lastCaptured);
            (ResolveMove(r.board, q, r.next, r.lastCaptured).Rejected?
             <==> r.board[q.i][q.j].Some? || IsSuicide(Colours(r.board), q, r.next))
  {
    var r := ResolveMove(b, p, c, lastCaptured);
    if r.lastCaptured == Some(q) {
      assert At(Colours(r.board), q) == Some(c);
      assert Colours(r.board)[q.i][q.j] == ColourOf(r.board[q.i][q.j]);
    }
  }
}
