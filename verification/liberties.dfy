/**
 * Liberty counting (`Stone.calculateQi` and `calculateGroupQi` in src/main.js).
 * A liberty of a stone is an in-bounds empty point orthogonally next to it;
 * the liberties of a group are the distinct liberties of its stones.
 */
module Liberties {
  import opened Wrappers
  import opened GoBoard

  predicate IsEmptyAt(g: Grid, q: Pos)
    requires IsSquare(g)
  {
    InBounds(|g|, q) && At(g, q) == None
  }

  /** The distinct empty neighbours of the stones in `s`. */
  function LibertySet(g: Grid, s: set<Pos>): set<Pos>
    requires IsSquare(g)
  {
    set q, k | q in s && 0 <= k < 4 && IsEmptyAt(g, Step(q, k)) :: Step(q, k)
  }

  /** The scan of `calculateQi` from direction `k` on: one per empty in-bounds neighbour. */
  function CountFrom(g: Grid, p: Pos, k: nat): (r: nat)
    requires IsSquare(g) && k <= 4
    ensures r <= 4 - k
    decreases 4 - k
  {
    if k == 4 then 0
    else (if IsEmptyAt(g, Step(p, k)) then 1 else 0) + CountFrom(g, p, k + 1)
  }

  /** `Stone.calculateQi`: the liberties of the single stone at `p`, ignoring its group. */
  function StoneLiberties(g: Grid, p: Pos): (r: nat)
    requires IsSquare(g)
    ensures r <= 4
  {
    CountFrom(g, p, 0)
  }

  /** The liberties found by the scan from direction `k` on. */
  function DirLiberties(g: Grid, p: Pos, k: nat): set<Pos>
    requires IsSquare(g)
  {
    set k' | k <= k' < 4 && IsEmptyAt(g, Step(p, k')) :: Step(p, k')
  }

  lemma {:induction false} CountFromIsDirLiberties(g: Grid, p: Pos, k: nat)
    requires IsSquare(g) && k <= 4
    ensures CountFrom(g, p, k) == |DirLiberties(g, p, k)|
    decreases 4 - k
  {
    if k == 4 {
      assert DirLiberties(g, p, k) == {};
    } else {
      CountFromIsDirLiberties(g, p, k + 1);
      var rest := DirLiberties(g, p, k + 1);
      assert Step(p, k) !in rest;
      if IsEmptyAt(g, Step(p, k)) {
        assert DirLiberties(g, p, k) == rest + {Step(p, k)};
      } else {
        assert DirLiberties(g, p, k) == rest;
      }
    }
  }

  /**
   * The single-stone count equals the size of the single stone's liberty set:
   * each direction leads to a different point, so no liberty is counted twice.
   */
  lemma StoneLibertiesIsLibertySet(g: Grid, p: Pos)
    requires IsSquare(g)
    ensures StoneLiberties(g, p) == |LibertySet(g, {p})|
  {
    CountFromIsDirLiberties(g, p, 0);
    assert LibertySet(g, {p}) == DirLiberties(g, p, 0);
  }

  function Indicator(b: bool): nat
  {
    if b then 1 else 0
  }

  /**
   * On an empty board a stone has one liberty per in-bounds neighbour: four
   * minus one for each board edge it lies on.
   */
  lemma StoneLibertiesOnEmptyBoard(n: nat, p: Pos)
    requires InBounds(n, p)
    ensures StoneLiberties(EmptyGrid(n), p)
         == 4 - Indicator(p.j == n - 1) - Indicator(p.i == n - 1) - Indicator(p.j == 0) - Indicator(p.i == 0)
  {
    var g := EmptyGrid(n);
    assert CountFrom(g, p, 3) == Indicator(p.i != 0);
    assert CountFrom(g, p, 2) == Indicator(p.j != 0) + Indicator(p.i != 0);
    assert CountFrom(g, p, 1) == Indicator(p.i != n - 1) + Indicator(p.j != 0) + Indicator(p.i != 0);
  }

  /** The classic values: 4 in the interior, 3 on an edge, 2 in a corner. */
  lemma EmptyBoardLibertyValues(n: nat, p: Pos)
    requires n >= 2 && InBounds(n, p)
    ensures IsCorner(n, p) ==> StoneLiberties(EmptyGrid(n), p) == 2
    ensures IsEdge(n, p) && !IsCorner(n, p) ==> StoneLiberties(EmptyGrid(n), p) == 3
    ensures !IsEdge(n, p) ==> StoneLiberties(EmptyGrid(n), p) == 4
  {
    StoneLibertiesOnEmptyBoard(n, p);
  }

  predicate IsCorner(n: int, p: Pos)
  {
    (p.i == 0 || p.i == n - 1) && (p.j == 0 || p.j == n - 1)
  }

  predicate IsEdge(n: int, p: Pos)
  {
    p.i == 0 || p.i == n - 1 || p.j == 0 || p.j == n - 1
  }

  /** The loop of `calculateGroupQi`: adds each stone's empty neighbours to the set. */
  function CollectLiberties(g: Grid, group: seq<Pos>, acc: set<Pos>): set<Pos>
    requires IsSquare(g)
  {
    if |group| == 0 then acc
    else CollectLiberties(g, group[1..], acc + LibertySet(g, {group[0]}))
  }

  lemma LibertySetUnion(g: Grid, s: set<Pos>, t: set<Pos>)
    requires IsSquare(g)
    ensures LibertySet(g, s + t) == LibertySet(g, s) + LibertySet(g, t)
  {
  }

  lemma {:induction false} CollectLibertiesIsUnion(g: Grid, group: seq<Pos>, acc: set<Pos>)
    requires IsSquare(g)
    ensures CollectLiberties(g, group, acc) == acc + LibertySet(g, set q | q in group)
  {
    if |group| == 0 {
      assert (set q | q in group) == {};
    } else {
      CollectLibertiesIsUnion(g, group[1..], acc + LibertySet(g, {group[0]}));
      assert (set q | q in group) == {group[0]} + (set q | q in group[1..]);
      LibertySetUnion(g, {group[0]}, set q | q in group[1..]);
    }
  }

  lemma {:induction false} CollectLibertiesBound(g: Grid, group: seq<Pos>, acc: set<Pos>)
    requires IsSquare(g)
    ensures |CollectLiberties(g, group, acc)| <= |acc| + 4 * |group|
  {
    if |group| > 0 {
      StoneLibertiesIsLibertySet(g, group[0]);
      CollectLibertiesBound(g, group[1..], acc + LibertySet(g, {group[0]}));
    }
  }

  /** Every liberty is an empty point of the board. */
  lemma LibertiesAreEmpty(g: Grid, s: set<Pos>)
    requires IsSquare(g)
    ensures LibertySet(g, s) <= EmptyCells(g)
  {
  }

  /**
   * `calculateGroupQi`: the number of distinct empty points next to the
   * group. A liberty next to several stones of the group counts once.
   */
  function GroupQi(g: Grid, group: seq<Pos>): (r: nat)
    requires IsSquare(g)
    ensures r == |LibertySet(g, set q | q in group)|
    ensures r <= 4 * |group|
    ensures r <= |EmptyCells(g)|
  {
    CollectLibertiesIsUnion(g, group, {});
    CollectLibertiesBound(g, group, {});
    LibertiesAreEmpty(g, set q | q in group);
    SubsetCard(LibertySet(g, set q | q in group), EmptyCells(g));
    |CollectLiberties(g, group, {})|
  }

  /** A fresh stone of colour `c` at `p`, as `new Stone(...)` builds it: its qi is its single-stone count. */
  function Place(b: Board, p: Pos, c: Color): (r: Board)
    requires IsSquare(b) && InBounds(|b|, p)
    ensures |r| == |b| && IsSquare(r)
    ensures Colours(r) == SetGridCell(Colours(b), p, Some(c))
    ensures r[p.i][p.j] == Some(Stone(c, StoneLiberties(Colours(b), p)))
    ensures forall q :: InBounds(|b|, q) && q != p ==> r[q.i][q.j] == b[q.i][q.j]
  {
    ColoursSetCell(b, p, Some(Stone(c, StoneLiberties(Colours(b), p))));
    SetCell(b, p, Some(Stone(c, StoneLiberties(Colours(b), p))))
  }
}
