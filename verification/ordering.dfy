/**
 * `moveOrdering` (src/ai.js): candidate moves sorted, best first, by a key
 * that rewards occupied neighbours and strongly penalises corners and the
 * rest of the edge. The comparator returns `scoreB - scoreA`, and
 * `Array.prototype.sort` is stable, so moves with equal keys keep their
 * relative order.
 */
module Ordering {
  import opened GoBoard
  import opened Liberties

  /** The direction loop of the comparator from direction `k` on: in-bounds occupied neighbours. */
  function OccupiedFrom(g: Grid, p: Pos, k: nat): (r: nat)
    requires IsSquare(g) && k <= 4
    ensures r <= 4 - k
    decreases 4 - k
  {
    if k == 4 then 0
    else
      var q := Step(p, k);
      Indicator(InBounds(|g|, q) && At(g, q).Some?) + OccupiedFrom(g, p, k + 1)
  }

  /** The directions from `k` on that leave the board. */
  function OffBoardFrom(n: nat, p: Pos, k: nat): nat
    requires k <= 4
    decreases 4 - k
  {
    if k == 4 then 0 else Indicator(!InBounds(n, Step(p, k))) + OffBoardFrom(n, p, k + 1)
  }

  /** A neighbour off the board can never count as occupied. */
  lemma {:induction false} OccupiedBound(g: Grid, p: Pos, k: nat)
    requires IsSquare(g) && k <= 4
    ensures OccupiedFrom(g, p, k) + OffBoardFrom(|g|, p, k) <= 4 - k
    decreases 4 - k
  {
    if k < 4 {
      OccupiedBound(g, p, k + 1);
    }
  }

  /** A point on the edge has a neighbour off the board; a corner has two. */
  lemma OffBoardOnEdge(n: nat, p: Pos)
    ensures InBounds(n, p) && IsEdge(n, p) ==> OffBoardFrom(n, p, 0) >= 1
    ensures InBounds(n, p) && IsCorner(n, p) ==> OffBoardFrom(n, p, 0) >= 2
  {
    assert OffBoardFrom(n, p, 0) == Indicator(!InBounds(n, Step(p, 0))) + Indicator(!InBounds(n, Step(p, 1)))
                                  + Indicator(!InBounds(n, Step(p, 2))) + Indicator(!InBounds(n, Step(p, 3))) by {
      assert OffBoardFrom(n, p, 3) == Indicator(!InBounds(n, Step(p, 3)));
    }
  }

  /**
   * The comparator's score of a move: one per occupied in-bounds neighbour,
   * 30 off on a corner, 10 off on the rest of the edge.
   */
  function OrderKey(g: Grid, p: Pos): int
    requires IsSquare(g)
  {
    OccupiedFrom(g, p, 0)
      - (if IsCorner(|g|, p) then 30 else 0)
      - (if IsEdge(|g|, p) && !IsCorner(|g|, p) then 10 else 0)
  }

  /**
   * The penalties put the board's points in three tiers: every interior
   * point outranks every other edge point, which outranks every corner,
   * whatever the stones around them.
   */
  lemma OrderKeyTiers(g: Grid, p: Pos)
    requires IsSquare(g) && InBounds(|g|, p)
    ensures IsCorner(|g|, p) ==> -30 <= OrderKey(g, p) <= -28
    ensures IsEdge(|g|, p) && !IsCorner(|g|, p) ==> -10 <= OrderKey(g, p) <= -7
    ensures !IsEdge(|g|, p) ==> 0 <= OrderKey(g, p) <= 4
  {
    OccupiedBound(g, p, 0);
    OffBoardOnEdge(|g|, p);
  }

  /** Best first: keys never increase along the sequence. */
  predicate SortedBy<T>(key: T -> int, s: seq<T>)
  {
    forall a, d :: 0 <= a < d < |s| ==> key(s[a]) >= key(s[d])
  }

  /** The elements of `s` whose key is `k`, in their order in `s`. */
  function WithKey<T>(key: T -> int, s: seq<T>, k: int): (r: seq<T>)
    ensures |r| <= |s|
  {
    if |s| == 0 then []
    else (if key(s[0]) == k then [s[0]] else []) + WithKey(key, s[1..], k)
  }

  /** `WithKey` keeps exactly the elements whose key is `k`. */
  lemma {:induction false} WithKeyMembers<T>(key: T -> int, s: seq<T>, k: int, q: T)
    ensures q in WithKey(key, s, k) <==> q in s && key(q) == k
  {
    if |s| > 0 {
      WithKeyMembers(key, s[1..], k, q);
      assert s == [s[0]] + s[1..];
    }
  }

  /** Insertion of one element in front of the first element whose key is not higher. */
  function Insert<T>(key: T -> int, x: T, s: seq<T>): seq<T>
  {
    if |s| == 0 || key(x) >= key(s[0]) then [x] + s
    else [s[0]] + Insert(key, x, s[1..])
  }

  lemma {:induction false} InsertPermutes<T>(key: T -> int, x: T, s: seq<T>)
    ensures multiset(Insert(key, x, s)) == multiset(s) + multiset{x}
  {
    if |s| > 0 && key(x) < key(s[0]) {
      InsertPermutes(key, x, s[1..]);
      assert s == [s[0]] + s[1..];
    }
  }

  /** An upper bound on the keys of `x` and of `s` bounds the keys after insertion. */
  lemma {:induction false} InsertBounded<T>(key: T -> int, x: T, s: seq<T>, m: int)
    requires key(x) <= m
    requires forall j :: 0 <= j < |s| ==> key(s[j]) <= m
    ensures forall j :: 0 <= j < |Insert(key, x, s)| ==> key(Insert(key, x, s)[j]) <= m
  {
    if |s| > 0 && key(x) < key(s[0]) {
      InsertBounded(key, x, s[1..], m);
    }
  }

  lemma {:induction false} InsertSorted<T>(key: T -> int, x: T, s: seq<T>)
    requires SortedBy(key, s)
    ensures SortedBy(key, Insert(key, x, s))
  {
    if |s| > 0 && key(x) < key(s[0]) {
      var t := s[1..];
      var it := Insert(key, x, t);
      var r := [s[0]] + it;
      InsertSorted(key, x, t);
      InsertBounded(key, x, t, key(s[0]));
      forall a, d | 0 <= a < d < |r| ensures key(r[a]) >= key(r[d]) {
        if a == 0 {
          assert r[d] == it[d - 1];
        } else {
          assert r[a] == it[a - 1] && r[d] == it[d - 1];
        }
      }
    }
  }

  /** `WithKey` of a sequence with one element in front. */
  lemma {:induction false} WithKeyCons<T>(key: T -> int, a: T, s: seq<T>, k: int)
    ensures WithKey(key, [a] + s, k) == (if key(a) == k then [a] else []) + WithKey(key, s, k)
  {
    assert ([a] + s)[0] == a && ([a] + s)[1..] == s;
  }

  /** Inserting an element keeps, for every key, the order of that key's elements, the new one first. */
  lemma {:induction false} InsertStable<T>(key: T -> int, x: T, s: seq<T>, k: int)
    ensures WithKey(key, Insert(key, x, s), k) == WithKey(key, [x] + s, k)
  {
    if |s| > 0 && key(x) < key(s[0]) {
      var t := s[1..];
      var hx := if key(x) == k then [x] else [];
      var h0 := if key(s[0]) == k then [s[0]] else [];
      assert s == [s[0]] + t;
      InsertStable(key, x, t, k);
      WithKeyCons(key, s[0], Insert(key, x, t), k);
      WithKeyCons(key, x, t, k);
      WithKeyCons(key, x, s, k);
      WithKeyCons(key, s[0], t, k);
      assert hx == [] || h0 == [];
      calc {
        WithKey(key, Insert(key, x, s), k);
        h0 + WithKey(key, [x] + t, k);
        h0 + (hx + WithKey(key, t, k));
        hx + (h0 + WithKey(key, t, k));
        hx + WithKey(key, s, k);
        WithKey(key, [x] + s, k);
      }
    }
  }

  /** A stable insertion sort by descending key, the behaviour `Array.prototype.sort` guarantees. */
  function SortBy<T(!new)>(key: T -> int, s: seq<T>): (r: seq<T>)
    ensures multiset(r) == multiset(s)
    ensures SortedBy(key, r)
    ensures forall k :: WithKey(key, r, k) == WithKey(key, s, k)
  {
    if |s| == 0 then []
    else
      var rest := SortBy(key, s[1..]);
      InsertPermutes(key, s[0], rest);
      InsertSorted(key, s[0], rest);
      assert s == [s[0]] + s[1..];
      assert forall k :: WithKey(key, Insert(key, s[0], rest), k) == WithKey(key, s, k) by {
        forall k ensures WithKey(key, Insert(key, s[0], rest), k) == WithKey(key, s, k) {
          InsertStable(key, s[0], rest, k);
          assert ([s[0]] + rest)[1..] == rest;
        }
      }
      Insert(key, s[0], rest)
  }

  /** The comparator's score as a key function. */
  function MoveKey(g: Grid): Pos -> int
    requires IsSquare(g)
  {
    q => OrderKey(g, q)
  }

  /**
   * `moveOrdering`: the same moves, best key first, moves with equal keys in
   * their original order.
   */
  function MoveOrdering(g: Grid, moves: seq<Pos>): (r: seq<Pos>)
    requires IsSquare(g)
    ensures multiset(r) == multiset(moves)
    ensures forall a, d :: 0 <= a < d < |r| ==> OrderKey(g, r[a]) >= OrderKey(g, r[d])
    ensures forall k :: WithKey(MoveKey(g), r, k) == WithKey(MoveKey(g), moves, k)
  {
    SortBy(MoveKey(g), moves)
  }
}
