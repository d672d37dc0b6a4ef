/**
 * `updateQiForAllGroups` (src/main.js): finds every group once, in row-major
 * order of its first stone, and writes the group's liberty count onto each
 * of its stones.
 */
module Settle {
  import opened Wrappers
  import opened GoBoard
  import opened Liberties
  import opened Groups

  /** The liberty count of the group holding the stone at `p`; 0 on an empty point. */
  ghost function GroupLibertyCount(g: Grid, p: Pos): nat
    requires IsSquare(g) && InBounds(|g|, p)
  {
    match At(g, p)
    case None => 0
    case Some(c) => |LibertySet(g, Component(g, c, p))|
  }

  /** Every stone of the board carries its group's liberty count as its `qi`. */
  ghost predicate Settled(b: Board)
    requires IsSquare(b)
  {
    forall i, j :: 0 <= i < |b| && 0 <= j < |b| && b[i][j].Some?
      ==> b[i][j].value.qi == GroupLibertyCount(Colours(b), Pos(i, j))
  }

  /** `for (const s of group) s.qi = totalQi`. */
  function WriteQi(b: Board, group: seq<Pos>, qi: int): (r: Board)
    requires IsSquare(b)
    requires forall p :: p in group ==> InBounds(|b|, p) && b[p.i][p.j].Some?
    ensures |r| == |b| && IsSquare(r) && Colours(r) == Colours(b)
    ensures forall p :: InBounds(|b|, p) && p in group ==> r[p.i][p.j] == Some(Stone(b[p.i][p.j].value.color, qi))
    ensures forall p :: InBounds(|b|, p) && p !in group ==> r[p.i][p.j] == b[p.i][p.j]
    decreases |group|
  {
    if |group| == 0 then b
    else
      var p := group[0];
      assert p in group;
      assert InBounds(|b|, p) && |b[p.i]| == |b|;
      var cell := Some(Stone(b[p.i][p.j].value.color, qi));
      ColoursSetCell(b, p, cell);
      GridExt(SetGridCell(Colours(b), p, ColourOf(cell)), Colours(b));
      WriteQi(SetCell(b, p, cell), group[1..], qi)
  }

  /** `p` comes strictly before `(x, y)` in row-major order: the scan has passed it. */
  predicate Before(p: Pos, x: int, y: int)
  {
    RowMajorLess(p, Pos(x, y))
  }

  /** Every marked point holds a stone whose whole group is marked and already carries its count. */
  ghost predicate MarkedSettled(g: Grid, acc: Board, visited: set<Pos>)
    requires IsSquare(g) && IsSquare(acc) && |acc| == |g|
  {
    forall p :: p in visited ==>
      && InBounds(|g|, p) && At(g, p).Some? && acc[p.i][p.j].Some?
      && Component(g, At(g, p).value, p) <= visited
      && acc[p.i][p.j].value.qi == GroupLibertyCount(g, p)
  }

  /** Every stone before `(x, y)` in row-major order is marked. */
  ghost predicate MarkedBefore(g: Grid, x: int, y: int, visited: set<Pos>)
    requires IsSquare(g)
  {
    forall p :: InBounds(|g|, p) && At(g, p).Some? && Before(p, x, y) ==> p in visited
  }

  /** What holds each time the nested `for` loops reach cell `(x, y)`. */
  ghost predicate SettleInv(g: Grid, acc: Board, x: int, y: int, visited: set<Pos>)
  {
    && IsSquare(g) && IsSquare(acc) && Colours(acc) == g
    && 0 <= x && 0 <= y
    && MarkedSettled(g, acc, visited)
    && MarkedBefore(g, x, y, visited)
  }

  /** A stone not yet marked shares no point of its group with the marked ones. */
  lemma UnvisitedGroupIsFresh(g: Grid, acc: Board, x: int, y: int, visited: set<Pos>, s: Pos)
    requires SettleInv(g, acc, x, y, visited)
    requires InBounds(|g|, s) && At(g, s).Some? && s !in visited
    ensures forall q :: q in visited ==> !Connected(g, At(g, s).value, s, q)
  {
    var c := At(g, s).value;
    forall q | q in visited ensures !Connected(g, c, s, q) {
      if Connected(g, c, s, q) {
        ConnectedEnds(g, c, s, q);
        ConnectedSym(g, c, s, q);
      }
    }
  }

  /** The stones of the group just found all end up with the group's count. */
  lemma NewGroupSettled(g: Grid, acc: Board, c: Color, s: Pos, group: seq<Pos>, qi: int)
    requires IsSquare(g) && IsSquare(acc) && |acc| == |g|
    requires InBounds(|g|, s) && At(g, s) == Some(c)
    requires (set q | q in group) == Component(g, c, s)
    requires qi == |LibertySet(g, Component(g, c, s))|
    requires forall p :: p in group ==> InBounds(|g|, p) && At(g, p) == Some(c) && Connected(g, c, s, p)
    requires forall p :: p in group ==> acc[p.i][p.j].Some? && acc[p.i][p.j].value.qi == qi
    ensures forall p :: p in group ==>
              && At(g, p).Some? && Component(g, At(g, p).value, p) <= (set q | q in group)
              && acc[p.i][p.j].value.qi == GroupLibertyCount(g, p)
  {
    forall p | p in group
      ensures At(g, p).Some? && Component(g, At(g, p).value, p) <= (set q | q in group)
      ensures acc[p.i][p.j].value.qi == GroupLibertyCount(g, p)
    {
      ComponentOfMember(g, c, s, p);
    }
  }

  lemma SettleStep(g: Grid, acc: Board, x: int, y: int, visited: set<Pos>, group: seq<Pos>, v: set<Pos>)
    requires SettleInv(g, acc, x, y, visited)
    requires InBounds(|g|, Pos(x, y)) && At(g, Pos(x, y)).Some? && Pos(x, y) !in visited
    requires (group, v) == FindGroup(g, Pos(x, y), visited)
    ensures forall p :: p in group ==> InBounds(|acc|, p) && acc[p.i][p.j].Some?
    ensures SettleInv(g, WriteQi(acc, group, GroupQi(g, group)), x, y + 1, v)
  {
    var s := Pos(x, y);
    var c := At(g, s).value;
    UnvisitedGroupIsFresh(g, acc, x, y, visited, s);
    FindGroupIsComponent(g, s, visited);
    var qi := GroupQi(g, group);
    forall p | p in group ensures InBounds(|acc|, p) && acc[p.i][p.j].Some? {
      assert Colours(acc)[p.i][p.j] == ColourOf(acc[p.i][p.j]);
    }
    var acc': Board := WriteQi(acc, group, qi);
    NewGroupSettled(g, acc', c, s, group, qi);
    forall p | p in visited ensures p !in group {
      assert !Connected(g, c, s, p);
    }
    forall p | p in v
      ensures && InBounds(|g|, p) && At(g, p).Some? && acc'[p.i][p.j].Some?
              && Component(g, At(g, p).value, p) <= v
              && acc'[p.i][p.j].value.qi == GroupLibertyCount(g, p)
    {
      if p in group {
        assert Component(g, At(g, p).value, p) <= (set q | q in group);
      } else {
        assert p in visited;
        assert acc'[p.i][p.j] == acc[p.i][p.j];
      }
    }
    assert s in group;
    MarkedNextCell(g, x, y, visited, v);
    assert MarkedSettled(g, acc', v);
  }

  /** The nested loops of `updateQiForAllGroups`, from cell `(x, y)` on. */
  function SettleFrom(g: Grid, acc: Board, x: int, y: int, visited: set<Pos>): (r: Board)
    requires SettleInv(g, acc, x, y, visited)
    ensures IsSquare(r) && Colours(r) == g
    ensures forall p :: InBounds(|g|, p) && At(g, p).Some? ==>
              r[p.i][p.j].Some? && r[p.i][p.j].value.qi == GroupLibertyCount(g, p)
    decreases |g| - x, |g| - y
  {
    if x >= |g| then
      MarkedAtEnd(g, x, y, visited);
      acc
    else if y >= |g| then
      MarkedNextRow(g, x, y, visited);
      SettleFrom(g, acc, x + 1, 0, visited)
    else if At(g, Pos(x, y)).Some? && Pos(x, y) !in visited then
      var r := FindGroup(g, Pos(x, y), visited);
      SettleStep(g, acc, x, y, visited, r.0, r.1);
      SettleFrom(g, WriteQi(acc, r.0, GroupQi(g, r.0)), x, y + 1, r.1)
    else
      MarkedNextCell(g, x, y, visited, visited);
      SettleFrom(g, acc, x, y + 1, visited)
  }

  /** Once the scan has passed the last row, every stone is marked. */
  lemma MarkedAtEnd(g: Grid, x: int, y: int, visited: set<Pos>)
    requires IsSquare(g) && x >= |g| && MarkedBefore(g, x, y, visited)
    ensures forall p :: InBounds(|g|, p) && At(g, p).Some? ==> p in visited
  {
    forall p | InBounds(|g|, p) && At(g, p).Some? ensures p in visited {
      assert Before(p, x, y);
    }
  }

  /** Past the end of a row, the points before the next row's start are the points already passed. */
  lemma MarkedNextRow(g: Grid, x: int, y: int, visited: set<Pos>)
    requires IsSquare(g) && y >= |g| && MarkedBefore(g, x, y, visited)
    ensures MarkedBefore(g, x + 1, 0, visited)
  {
    forall p | InBounds(|g|, p) && At(g, p).Some? && Before(p, x + 1, 0) ensures p in visited {
      assert Before(p, x, y);
    }
  }

  /** Marks that grow to cover the stone at `(x, y)`, if any, cover every stone up to the next cell. */
  lemma MarkedNextCell(g: Grid, x: int, y: int, visited: set<Pos>, v: set<Pos>)
    requires IsSquare(g) && MarkedBefore(g, x, y, visited) && visited <= v
    requires InBounds(|g|, Pos(x, y)) && At(g, Pos(x, y)).Some? ==> Pos(x, y) in v
    ensures MarkedBefore(g, x, y + 1, v)
  {
    forall p | InBounds(|g|, p) && At(g, p).Some? && Before(p, x, y + 1) ensures p in v {
      if p != Pos(x, y) { assert Before(p, x, y); }
    }
  }

  lemma SettleFromIsSettled(g: Grid, r: Board)
    requires IsSquare(g) && IsSquare(r) && Colours(r) == g
    requires forall p :: InBounds(|g|, p) && At(g, p).Some? ==>
               r[p.i][p.j].Some? && r[p.i][p.j].value.qi == GroupLibertyCount(g, p)
    ensures Settled(r)
  {
    forall i, j | 0 <= i < |r| && 0 <= j < |r| && r[i][j].Some?
      ensures r[i][j].value.qi == GroupLibertyCount(Colours(r), Pos(i, j))
    {
      assert Colours(r)[i][j] == ColourOf(r[i][j]);
      assert At(g, Pos(i, j)).Some?;
    }
  }

  /**
   * `updateQiForAllGroups`: afterwards every stone's `qi` is its group's
   * liberty count, and no stone has been added, removed or recoloured.
   */
  function UpdateQi(b: Board): (r: Board)
    requires IsSquare(b)
    ensures IsSquare(r) && |r| == |b|
    ensures Colours(r) == Colours(b)
    ensures Settled(r)
  {
    var r := SettleFrom(Colours(b), b, 0, 0, {});
    SettleFromIsSettled(Colours(b), r);
    r
  }

  /** Stones of one group carry the same `qi` on a settled board. */
  lemma SettledGroupSharesQi(b: Board, p: Pos, q: Pos)
    requires IsSquare(b) && Settled(b) && InBounds(|b|, p) && InBounds(|b|, q)
    requires At(Colours(b), p).Some? && Connected(Colours(b), At(Colours(b), p).value, p, q)
    ensures b[p.i][p.j].Some? && b[q.i][q.j].Some? && b[p.i][p.j].value.qi == b[q.i][q.j].value.qi
  {
    var g := Colours(b);
    var c := At(g, p).value;
    ConnectedEnds(g, c, p, q);
    ComponentOfMember(g, c, p, q);
    assert ColourOf(b[q.i][q.j]) == Some(c) && ColourOf(b[p.i][p.j]) == Some(c);
  }
}
