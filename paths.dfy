/**
 * Connectivity: the breadth-first search that both Player.has_path_to_goal and
 * AIPlayer._has_path run, proved against reachability by walks.
 */
module Paths {
  import opened Config
  import opened GridState

  /** The four search steps in the order Player.py and AIPlayer.py list them (up, down, left, right):
      the pawn offset two cells away and the wall-slot offset one cell away. */
  function Offsets(k: int): (int, int, int, int)
    requires 0 <= k < 4
  {
    if k == 0 then (-2, 0, -1, 0)
    else if k == 1 then (2, 0, 1, 0)
    else if k == 2 then (0, -2, 0, -1)
    else (0, 2, 0, 1)
  }

  function Neighbour(u: Pos, k: int): Pos
    requires 0 <= k < 4
  {
    Pos(u.row + Offsets(k).0, u.col + Offsets(k).1)
  }

  function SlotToward(u: Pos, k: int): Pos
    requires 0 <= k < 4
  {
    Pos(u.row + Offsets(k).2, u.col + Offsets(k).3)
  }

  /** Step k from u is taken by the search: the neighbour is on the board and both the
      slot in between and the neighbour cell itself hold 0. */
  predicate Open(g: Grid, u: Pos, k: int)
    requires WellFormed(g) && InBounds(u) && 0 <= k < 4
  {
    InBounds(Neighbour(u, k)) && At(g, SlotToward(u, k)) == 0 && At(g, Neighbour(u, k)) == 0
  }

  ghost predicate Step(g: Grid, u: Pos, v: Pos) {
    WellFormed(g) && InBounds(u) && exists k | 0 <= k < 4 :: Open(g, u, k) && v == Neighbour(u, k)
  }

  /** A sequence of cells, each one search step from the one before. */
  ghost predicate IsWalk(g: Grid, w: seq<Pos>) {
    && |w| > 0
    && (forall i | 0 <= i < |w| :: InBounds(w[i]))
    && (forall i | 0 <= i < |w| - 1 :: Step(g, w[i], w[i + 1]))
  }

  ghost predicate WalkTo(g: Grid, start: Pos, w: seq<Pos>, q: Pos) {
    IsWalk(g, w) && w[0] == start && w[|w| - 1] == q
  }

  /** The objective row can be reached from start by search steps. */
  ghost predicate Reachable(g: Grid, start: Pos, goalRow: int) {
    exists w: seq<Pos> {:trigger IsWalk(g, w)} :: IsWalk(g, w) && w[0] == start && w[|w| - 1].row == goalRow
  }

  ghost function Cells(): set<Pos> {
    set r, c | 0 <= r < DIM && 0 <= c < DIM :: Pos(r, c)
  }

  /** Every search step out of q lands in S. */
  ghost predicate Closed(g: Grid, q: Pos, S: set<Pos>)
    requires WellFormed(g)
  {
    InBounds(q) && forall k | 0 <= k < 4 :: Open(g, q, k) ==> Neighbour(q, k) in S
  }

  lemma ExtendWalk(g: Grid, start: Pos, w: seq<Pos>, u: Pos, k: int)
    requires WellFormed(g) && 0 <= k < 4
    requires WalkTo(g, start, w, u) && Open(g, u, k)
    ensures WalkTo(g, start, w + [Neighbour(u, k)], Neighbour(u, k))
  {
    var w' := w + [Neighbour(u, k)];
    assert Step(g, u, Neighbour(u, k));
    forall i | 0 <= i < |w'|
      ensures InBounds(w'[i])
    {
      if i < |w| {
        assert w'[i] == w[i];
      }
    }
    forall i | 0 <= i < |w'| - 1
      ensures Step(g, w'[i], w'[i + 1])
    {
      if i < |w| - 1 {
        assert w'[i] == w[i] && w'[i + 1] == w[i + 1];
      }
    }
  }

  /** A walk that starts in a set closed under search steps never leaves it. */
  lemma {:induction false} WalkStaysIn(g: Grid, S: set<Pos>, w: seq<Pos>, i: int)
    requires WellFormed(g) && IsWalk(g, w) && w[0] in S
    requires forall q | q in S :: Closed(g, q, S)
    requires 0 <= i < |w|
    ensures w[i] in S
  {
    if i > 0 {
      WalkStaysIn(g, S, w, i - 1);
      assert Step(g, w[i - 1], w[i]);
      var k :| 0 <= k < 4 && Open(g, w[i - 1], k) && w[i] == Neighbour(w[i - 1], k);
      assert Closed(g, w[i - 1], S);
    }
  }

  /** The search's failure case: a closed set holding start and no cell of the objective
      row shows that the row is unreachable. */
  lemma ClosedSetBlocks(g: Grid, start: Pos, goalRow: int, S: set<Pos>)
    requires WellFormed(g) && start in S
    requires forall q | q in S :: Closed(g, q, S) && q.row != goalRow
    ensures !Reachable(g, start, goalRow)
  {
    forall w: seq<Pos> | IsWalk(g, w) && w[0] == start
      ensures w[|w| - 1].row != goalRow
    {
      WalkStaysIn(g, S, w, |w| - 1);
    }
  }

  /**
   * Breadth-first search from start: true exactly when the objective row is reachable.
   * The queue is a sequence popped at the front; the grid is a value and is not changed.
   */
  method HasPath(g: Grid, start: Pos, goalRow: int) returns (found: bool)
    requires WellFormed(g) && InBounds(start)
    ensures found <==> Reachable(g, start, goalRow)
  {
    var queue := [start];
    var seen := {start};
    ghost var done: set<Pos> := {};
    ghost var walk: map<Pos, seq<Pos>> := map[start := [start]];
    assert WalkTo(g, start, [start], start);
    while queue != []
      invariant seen <= Cells() && start in seen && done <= seen
      invariant forall q | q in seen :: InBounds(q)
      invariant forall q | q in queue :: q in seen
      invariant forall q | q in seen :: q in done || q in queue
      invariant forall q | q in done :: q.row != goalRow && Closed(g, q, seen)
      invariant seen == walk.Keys
      invariant forall q | q in walk :: WalkTo(g, start, walk[q], q)
      decreases Cells() - seen, |queue|
    {
      var cur := queue[0];
      queue := queue[1..];
      if cur.row == goalRow {
        assert WalkTo(g, start, walk[cur], cur);
        return true;
      }
      seen, queue, walk := Expand(g, start, cur, seen, queue, walk);
      done := done + {cur};
    }
    ClosedSetBlocks(g, start, goalRow, seen);
    return false;
  }

  /**
   * The search's inner loop at cur: each open neighbour not yet seen is marked seen,
   * appended to the queue and given a walk; afterwards every step out of cur lands in a
   * seen cell.
   */
  method Expand(g: Grid, start: Pos, cur: Pos, seen: set<Pos>, queue: seq<Pos>, ghost walk: map<Pos, seq<Pos>>)
    returns (seen': set<Pos>, queue': seq<Pos>, ghost walk': map<Pos, seq<Pos>>)
    requires WellFormed(g) && InBounds(cur) && cur in seen && seen <= Cells()
    requires seen == walk.Keys && forall q | q in walk :: WalkTo(g, start, walk[q], q)
    ensures seen <= seen' <= Cells() && seen' == walk'.Keys
    ensures seen' == seen ==> queue' == queue
    ensures forall q | q in queue :: q in queue'
    ensures forall q | q in queue' :: q in queue || q in seen'
    ensures forall q | q in seen' :: q in seen || q in queue'
    ensures Closed(g, cur, seen')
    ensures forall q | q in walk' :: WalkTo(g, start, walk'[q], q)
  {
    seen', queue', walk' := seen, queue, walk;
    var k := 0;
    while k < 4
      invariant 0 <= k <= 4
      invariant seen <= seen' <= Cells() && seen' == walk'.Keys
      invariant seen' == seen ==> queue' == queue
      invariant forall q | q in queue :: q in queue'
      invariant forall q | q in queue' :: q in queue || q in seen'
      invariant forall q | q in seen' :: q in seen || q in queue'
      invariant forall j | 0 <= j < k :: Open(g, cur, j) ==> Neighbour(cur, j) in seen'
      invariant forall q | q in walk' :: WalkTo(g, start, walk'[q], q)
    {
      var n := Neighbour(cur, k);
      if InBounds(n) {
        if At(g, SlotToward(cur, k)) == 0 && At(g, n) == 0 {
          if n !in seen' {
            ExtendWalk(g, start, walk'[cur], cur, k);
            assert n == Pos(n.row, n.col);
            seen' := seen' + {n};
            queue' := queue' + [n];
            walk' := walk'[n := walk'[cur] + [n]];
          }
        }
      }
      k := k + 1;
    }
  }

  /** Starting on the objective row is a path by itself. */
  lemma ReachableFromGoalRow(g: Grid, start: Pos)
    requires WellFormed(g) && InBounds(start)
    ensures Reachable(g, start, start.row)
  {
    assert IsWalk(g, [start]);
  }

  /** The grids have the same empty cells. */
  ghost predicate SameZeros(g: Grid, h: Grid) {
    WellFormed(g) && WellFormed(h) && forall q | InBounds(q) :: (At(g, q) == 0 <==> At(h, q) == 0)
  }

  lemma WalkTransfers(g: Grid, h: Grid, w: seq<Pos>)
    requires SameZeros(g, h) && IsWalk(g, w)
    ensures IsWalk(h, w)
  {
    forall i | 0 <= i < |w| - 1
      ensures Step(h, w[i], w[i + 1])
    {
      assert Step(g, w[i], w[i + 1]);
      var k :| 0 <= k < 4 && Open(g, w[i], k) && w[i + 1] == Neighbour(w[i], k);
      assert Open(h, w[i], k);
    }
  }

  /** Reachability sees only which cells are empty: rewriting a nonzero cell with another
      nonzero code (a wall centre becoming HORIZONTAL or VERTICAL) changes no path. */
  lemma ReachableSameZeros(g: Grid, h: Grid, start: Pos, goalRow: int)
    requires SameZeros(g, h)
    ensures Reachable(g, start, goalRow) <==> Reachable(h, start, goalRow)
  {
    if Reachable(g, start, goalRow) {
      var w: seq<Pos> :| IsWalk(g, w) && w[0] == start && w[|w| - 1].row == goalRow;
      WalkTransfers(g, h, w);
    }
    if Reachable(h, start, goalRow) {
      var w: seq<Pos> :| IsWalk(h, w) && w[0] == start && w[|w| - 1].row == goalRow;
      WalkTransfers(h, g, w);
    }
  }
}
