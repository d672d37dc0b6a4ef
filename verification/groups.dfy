/**
 * Groups of stones (`findGroup` in src/main.js): the stones of one colour
 * joined to a start stone by orthogonal steps through stones of that colour.
 */
module Groups {
  import opened Wrappers
  import opened GoBoard

  /** A non-empty walk of orthogonal steps that stays on stones of colour `c`. */
  ghost predicate IsChain(g: Grid, c: Color, path: seq<Pos>)
    requires IsSquare(g)
  {
    && |path| > 0
    && (forall m :: 0 <= m < |path| ==> InBounds(|g|, path[m]) && At(g, path[m]) == Some(c))
    && (forall m :: 0 <= m < |path| - 1 ==> Adjacent(path[m], path[m + 1]))
  }

  /** `q` is reached from `p` by a chain of colour `c`. */
  ghost predicate Connected(g: Grid, c: Color, p: Pos, q: Pos)
    requires IsSquare(g)
  {
    exists path :: |path| > 0 && IsChain(g, c, path) && path[0] == p && path[|path| - 1] == q
  }

  /** The group of the stone at `p`: every point connected to it through colour `c`. */
  ghost function Component(g: Grid, c: Color, p: Pos): set<Pos>
    requires IsSquare(g)
  {
    set q | q in AllCells(|g|) && Connected(g, c, p, q)
  }

  lemma ConnectedRefl(g: Grid, c: Color, p: Pos)
    requires IsSquare(g) && InBounds(|g|, p) && At(g, p) == Some(c)
    ensures Connected(g, c, p, p)
  {
    assert IsChain(g, c, [p]);
  }

  lemma ConnectedEnds(g: Grid, c: Color, p: Pos, q: Pos)
    requires IsSquare(g) && Connected(g, c, p, q)
    ensures InBounds(|g|, p) && At(g, p) == Some(c)
    ensures InBounds(|g|, q) && At(g, q) == Some(c)
  {
    var path :| |path| > 0 && IsChain(g, c, path) && path[0] == p && path[|path| - 1] == q;
  }

  lemma ConnectedSym(g: Grid, c: Color, p: Pos, q: Pos)
    requires IsSquare(g) && Connected(g, c, p, q)
    ensures Connected(g, c, q, p)
  {
    var path :| |path| > 0 && IsChain(g, c, path) && path[0] == p && path[|path| - 1] == q;
    var rev := seq(|path|, m requires 0 <= m < |path| => path[|path| - 1 - m]);
    forall m | 0 <= m < |rev| - 1 ensures Adjacent(rev[m], rev[m + 1]) {
      assert Adjacent(path[|path| - 2 - m], path[|path| - 1 - m]);
    }
    assert IsChain(g, c, rev);
  }

  lemma ConnectedTrans(g: Grid, c: Color, p: Pos, q: Pos, r: Pos)
    requires IsSquare(g) && Connected(g, c, p, q) && Connected(g, c, q, r)
    ensures Connected(g, c, p, r)
  {
    var path1 :| |path1| > 0 && IsChain(g, c, path1) && path1[0] == p && path1[|path1| - 1] == q;
    var path2 :| |path2| > 0 && IsChain(g, c, path2) && path2[0] == q && path2[|path2| - 1] == r;
    var path := path1 + path2[1..];
    forall m | 0 <= m < |path| - 1 ensures Adjacent(path[m], path[m + 1]) {
      if m < |path1| - 1 {
        assert path[m] == path1[m] && path[m + 1] == path1[m + 1];
      } else {
        assert path[m] == path2[m - |path1| + 1] && path[m + 1] == path2[m - |path1| + 2];
      }
    }
    assert IsChain(g, c, path);
  }

  /** One more step onto a stone of colour `c` stays connected. */
  lemma ConnectedExtend(g: Grid, c: Color, p: Pos, q: Pos, r: Pos)
    requires IsSquare(g) && Connected(g, c, p, q)
    requires Adjacent(q, r) && InBounds(|g|, r) && At(g, r) == Some(c)
    ensures Connected(g, c, p, r)
  {
    assert IsChain(g, c, [q, r]);
    ConnectedTrans(g, c, p, q, r);
  }

  /** Two connected stones have the same group. */
  lemma ComponentOfMember(g: Grid, c: Color, p: Pos, q: Pos)
    requires IsSquare(g) && Connected(g, c, p, q)
    ensures Component(g, c, q) == Component(g, c, p)
  {
    ConnectedSym(g, c, p, q);
    forall r | Connected(g, c, q, r) ensures Connected(g, c, p, r) {
      ConnectedTrans(g, c, p, q, r);
    }
    forall r | Connected(g, c, p, r) ensures Connected(g, c, q, r) {
      ConnectedTrans(g, c, q, p, r);
    }
  }

  predicate Distinct(s: seq<Pos>)
  {
    forall a, b :: 0 <= a < b < |s| ==> s[a] != s[b]
  }

  /** `q` may join the group grown from `start`: a stone of colour `c` connected to it. */
  ghost predicate Member(g: Grid, c: Color, start: Pos, q: Pos)
    requires IsSquare(g)
  {
    InBounds(|g|, q) && At(g, q) == Some(c) && Connected(g, c, start, q)
  }

  /** Every same-coloured neighbour of a stone in `group` has been marked in `visited`. */
  predicate Closed(g: Grid, c: Color, group: seq<Pos>, visited: set<Pos>)
    requires IsSquare(g)
  {
    forall q, k :: q in group && 0 <= k < 4 && InBounds(|g|, Step(q, k)) && At(g, Step(q, k)) == Some(c)
      ==> Step(q, k) in visited
  }

  /**
   * The neighbour scan of one iteration of the flood fill, from direction
   * `k` on: each unvisited neighbour of colour `c` is pushed and marked.
   * Returns the pushed points, in push order, and the new visited set.
   */
  function PushNeighbours(g: Grid, c: Color, current: Pos, k: nat, visited: set<Pos>): (r: (seq<Pos>, set<Pos>))
    requires IsSquare(g) && k <= 4
    ensures Distinct(r.0)
    ensures forall q :: q in r.0 ==> q !in visited && InBounds(|g|, q) && At(g, q) == Some(c) && Adjacent(current, q)
    ensures forall q :: q in r.1 <==> q in visited || q in r.0
    ensures forall k' :: k <= k' < 4 && InBounds(|g|, Step(current, k')) && At(g, Step(current, k')) == Some(c)
              ==> Step(current, k') in r.1
    decreases 4 - k
  {
    if k == 4 then ([], visited)
    else
      var n := Step(current, k);
      if InBounds(|g|, n) && At(g, n) == Some(c) && n !in visited then
        var r := PushNeighbours(g, c, current, k + 1, visited + {n});
        ([n] + r.0, r.1)
      else
        PushNeighbours(g, c, current, k + 1, visited)
  }

  /** What holds at the head of every iteration of the flood-fill loop. */
  ghost predicate LoopInv(g: Grid, c: Color, start: Pos, stack: seq<Pos>, group: seq<Pos>, visited: set<Pos>)
    requires IsSquare(g)
  {
    && InBounds(|g|, start) && At(g, start) == Some(c)
    && (forall q :: q in stack ==> Member(g, c, start, q))
    && (forall q :: q in group ==> Member(g, c, start, q))
    && Distinct(stack) && Distinct(group)
    && (forall q :: q in group ==> q !in stack)
    && (forall q :: q in group ==> q in visited)
    && ((forall q :: q in stack ==> q in visited) || (group == [] && stack == [start]))
    && Closed(g, c, group, visited)
  }

  lemma StepMembers(g: Grid, c: Color, start: Pos, stack: seq<Pos>, group: seq<Pos>, pushed: seq<Pos>)
    requires IsSquare(g) && |stack| > 0
    requires forall q :: q in stack ==> Member(g, c, start, q)
    requires forall q :: q in group ==> Member(g, c, start, q)
    requires forall q :: q in pushed ==> InBounds(|g|, q) && At(g, q) == Some(c) && Adjacent(stack[|stack| - 1], q)
    ensures forall q :: q in stack[..|stack| - 1] + pushed ==> Member(g, c, start, q)
    ensures forall q :: q in group + [stack[|stack| - 1]] ==> Member(g, c, start, q)
  {
    var current := stack[|stack| - 1];
    assert current in stack;
    forall q | q in pushed ensures Member(g, c, start, q) {
      ConnectedExtend(g, c, start, current, q);
    }
    forall q | q in stack[..|stack| - 1] ensures Member(g, c, start, q) {
      assert q in stack;
    }
  }

  lemma StepDistinct(stack: seq<Pos>, group: seq<Pos>, visited: set<Pos>, pushed: seq<Pos>)
    requires |stack| > 0 && Distinct(stack) && Distinct(group) && Distinct(pushed)
    requires forall q :: q in group ==> q !in stack
    requires forall q :: q in group ==> q in visited
    requires forall q :: q in stack[..|stack| - 1] ==> q in visited
    requires forall q :: q in pushed ==> q !in visited + {stack[|stack| - 1]}
    ensures Distinct(stack[..|stack| - 1] + pushed)
    ensures Distinct(group + [stack[|stack| - 1]])
    ensures forall q :: q in group ==> q !in stack[..|stack| - 1] + pushed
    ensures stack[|stack| - 1] !in stack[..|stack| - 1] + pushed
  {
    var current := stack[|stack| - 1];
    var rest := stack[..|stack| - 1];
    var stack' := rest + pushed;
    var group' := group + [current];
    forall a, b | 0 <= a < b < |stack'| ensures stack'[a] != stack'[b] {
      if b < |rest| {
        assert stack'[a] == stack[a] && stack'[b] == stack[b];
      } else if a >= |rest| {
        assert stack'[a] == pushed[a - |rest|] && stack'[b] == pushed[b - |rest|];
      } else {
        assert stack'[a] in rest && stack'[b] in pushed;
      }
    }
    forall a, b | 0 <= a < b < |group'| ensures group'[a] != group'[b] {
      if b == |group| {
        assert group'[a] in group;
        assert current in stack;
      }
    }
    forall m | 0 <= m < |rest| ensures rest[m] != current {
      assert stack[m] != stack[|stack| - 1];
    }
  }

  lemma StepMeasure(n: nat, visited: set<Pos>, v: set<Pos>, pushed: seq<Pos>)
    requires visited <= v
    requires forall q :: q in pushed ==> q in v && q !in visited && InBounds(n, q)
    ensures |AllCells(n) - v| <= |AllCells(n) - visited|
    ensures |pushed| > 0 ==> |AllCells(n) - v| < |AllCells(n) - visited|
  {
    var A := AllCells(n);
    SubsetCard(A - v, A - visited);
    if |pushed| > 0 {
      var x := pushed[0];
      assert x in A - visited && x !in A - v;
      SubsetCard(A - v, (A - visited) - {x});
    }
  }

  lemma StepClosed(g: Grid, c: Color, group: seq<Pos>, visited: set<Pos>, current: Pos, v: set<Pos>)
    requires IsSquare(g) && Closed(g, c, group, visited) && visited <= v
    requires forall k :: 0 <= k < 4 && InBounds(|g|, Step(current, k)) && At(g, Step(current, k)) == Some(c)
               ==> Step(current, k) in v
    ensures Closed(g, c, group + [current], v)
  {
    forall q, k | q in group + [current] && 0 <= k < 4 && InBounds(|g|, Step(q, k)) && At(g, Step(q, k)) == Some(c)
      ensures Step(q, k) in v
    {
      if q != current {
        assert q in group;
      }
    }
  }

  lemma StepKeepsInvariant(g: Grid, c: Color, start: Pos, stack: seq<Pos>, group: seq<Pos>, visited: set<Pos>,
                           pushed: seq<Pos>, v: set<Pos>)
    requires IsSquare(g) && LoopInv(g, c, start, stack, group, visited) && |stack| > 0
    requires (pushed, v) == PushNeighbours(g, c, stack[|stack| - 1], 0, visited + {stack[|stack| - 1]})
    ensures LoopInv(g, c, start, stack[..|stack| - 1] + pushed, group + [stack[|stack| - 1]], v)
    ensures |AllCells(|g|) - v| <= |AllCells(|g|) - visited|
    ensures |pushed| > 0 ==> |AllCells(|g|) - v| < |AllCells(|g|) - visited|
  {
    var current := stack[|stack| - 1];
    var rest := stack[..|stack| - 1];
    StepMembers(g, c, start, stack, group, pushed);
    assert forall q :: q in rest ==> q in visited by {
      if !(forall q :: q in stack ==> q in visited) {
        assert rest == [];
      }
    }
    StepDistinct(stack, group, visited, pushed);
    StepMeasure(|g|, visited, v, pushed);
    assert forall q :: q in rest + pushed ==> q in v;
    StepClosed(g, c, group, visited, current, v);
  }

  /** What the flood-fill loop promises when entered with the given state and left with `r`. */
  ghost predicate LoopPost(g: Grid, c: Color, start: Pos, stack: seq<Pos>, group: seq<Pos>, visited: set<Pos>,
                           r: (seq<Pos>, set<Pos>))
    requires IsSquare(g)
  {
    && |r.0| >= |group| && r.0[..|group|] == group
    && (forall q :: q in r.0 ==> Member(g, c, start, q))
    && Distinct(r.0)
    && (forall q :: q in stack ==> q in r.0)
    && (forall q :: q in r.1 <==> q in visited || q in r.0)
    && Closed(g, c, r.0, r.1)
  }

  lemma StepKeepsPost(g: Grid, c: Color, start: Pos, stack: seq<Pos>, group: seq<Pos>, visited: set<Pos>,
                      pushed: seq<Pos>, v: set<Pos>, r: (seq<Pos>, set<Pos>))
    requires IsSquare(g) && |stack| > 0
    requires forall q :: q in v <==> q in visited || q == stack[|stack| - 1] || q in pushed
    requires LoopPost(g, c, start, stack[..|stack| - 1] + pushed, group + [stack[|stack| - 1]], v, r)
    ensures LoopPost(g, c, start, stack, group, visited, r)
  {
    var current := stack[|stack| - 1];
    var rest := stack[..|stack| - 1];
    assert (group + [current])[..|group|] == group;
    assert r.0[..|group|] == r.0[..|group| + 1][..|group|];
    assert current in r.0 by {
      assert r.0[|group|] == current;
    }
    forall q | q in stack ensures q in r.0 {
      if q != current {
        var m :| 0 <= m < |stack| && stack[m] == q;
        assert rest[m] == q;
        assert q in rest + pushed;
      }
    }
    forall q | q in pushed ensures q in r.0 {
      assert q in rest + pushed;
    }
  }

  /**
   * The `while (stack.length > 0)` loop of `findGroup`: pop a stone, append
   * it to the group, mark it, then push its unmarked same-coloured neighbours.
   * On exit every stone ever pushed has been appended, no stone twice, only
   * stones connected to `start`, and every same-coloured neighbour of the
   * group is marked.
   */
  function GroupLoop(g: Grid, c: Color, start: Pos, stack: seq<Pos>, group: seq<Pos>, visited: set<Pos>)
    : (r: (seq<Pos>, set<Pos>))
    requires IsSquare(g) && LoopInv(g, c, start, stack, group, visited)
    ensures LoopPost(g, c, start, stack, group, visited, r)
    decreases |AllCells(|g|) - visited|, |stack|
  {
    if |stack| == 0 then (group, visited)
    else
      var current := stack[|stack| - 1];
      var pv := PushNeighbours(g, c, current, 0, visited + {current});
      StepKeepsInvariant(g, c, start, stack, group, visited, pv.0, pv.1);
      var r := GroupLoop(g, c, start, stack[..|stack| - 1] + pv.0, group + [current], pv.1);
      StepKeepsPost(g, c, start, stack, group, visited, pv.0, pv.1, r);
      r
  }

  /**
   * `findGroup`: a flood fill from the stone at `start` over stones of the
   * start stone's colour, sharing the `visited` marks with the caller.
   * Returns the group, in visiting order, and the updated marks.
   */
  function FindGroup(g: Grid, start: Pos, visited: set<Pos>): (r: (seq<Pos>, set<Pos>))
    requires IsSquare(g) && InBounds(|g|, start) && At(g, start).Some?
    ensures start in r.0
    ensures forall q :: q in r.0 ==> Member(g, At(g, start).value, start, q)
    ensures Distinct(r.0)
    ensures forall q :: q in r.1 <==> q in visited || q in r.0
    ensures Closed(g, At(g, start).value, r.0, r.1)
  {
    ConnectedRefl(g, At(g, start).value, start);
    GroupLoop(g, At(g, start).value, start, [start], [], visited)
  }

  lemma {:induction false} ClosedFollowsPath(g: Grid, c: Color, start: Pos, group: seq<Pos>, before: set<Pos>,
                                            after: set<Pos>, path: seq<Pos>, m: nat)
    requires IsSquare(g) && start in group && Closed(g, c, group, after)
    requires forall q :: q in after ==> q in before || q in group
    requires forall q :: q in before ==> !Connected(g, c, start, q)
    requires IsChain(g, c, path) && path[0] == start && m < |path|
    ensures path[m] in group
  {
    if m > 0 {
      ClosedFollowsPath(g, c, start, group, before, after, path, m - 1);
      var k := DirectionTo(path[m - 1], path[m]);
      assert path[m] in after;
      var prefix := path[..m + 1];
      assert IsChain(g, c, prefix);
      assert Connected(g, c, start, path[m]);
    }
  }

  /**
   * Maximality: when no point connected to `start` was marked beforehand
   * (a fresh `visited`, or marks left only by other groups), the flood fill
   * returns exactly the group of `start`.
   */
  lemma FindGroupIsComponent(g: Grid, start: Pos, visited: set<Pos>)
    requires IsSquare(g) && InBounds(|g|, start) && At(g, start).Some?
    requires forall q :: q in visited ==> !Connected(g, At(g, start).value, start, q)
    ensures (set q | q in FindGroup(g, start, visited).0) == Component(g, At(g, start).value, start)
  {
    var c := At(g, start).value;
    var r := FindGroup(g, start, visited);
    forall q | Connected(g, c, start, q) ensures q in r.0 {
      var path :| |path| > 0 && IsChain(g, c, path) && path[0] == start && path[|path| - 1] == q;
      ClosedFollowsPath(g, c, start, r.0, visited, r.1, path, |path| - 1);
    }
  }
}
