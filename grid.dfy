/**
 * The board matrix as a value, the coordinates on it, and the value views of the game
 * state that the search engine and the undo history work on.
 */
module GridState {
  import opened Config

  /** A grid coordinate (row, column). */
  datatype Pos = Pos(row: int, col: int)

  /** A value copy of the board matrix, indexed [row][column]. */
  type Grid = seq<seq<int>>

  predicate InBounds(p: Pos) {
    0 <= p.row < DIM && 0 <= p.col < DIM
  }

  /** Both indices even: a cell a pawn can stand on. Every other cell is a wall slot. */
  predicate IsPawnCell(p: Pos) {
    p.row % 2 == 0 && p.col % 2 == 0
  }

  predicate WellFormed(g: Grid) {
    |g| == DIM && forall i | 0 <= i < DIM :: |g[i]| == DIM
  }

  function At(g: Grid, p: Pos): int
    requires WellFormed(g) && InBounds(p)
  {
    g[p.row][p.col]
  }

  /** The grid with one cell overwritten. */
  function SetCell(g: Grid, p: Pos, v: int): (r: Grid)
    requires WellFormed(g) && InBounds(p)
    ensures WellFormed(r)
  {
    g[p.row := g[p.row][p.col := v]]
  }

  /** The overwritten cell holds v and every other cell is unchanged. */
  lemma SetCellCells(g: Grid, p: Pos, v: int)
    requires WellFormed(g) && InBounds(p)
    ensures forall q | InBounds(q) :: At(SetCell(g, p, v), q) == (if q == p then v else At(g, q))
  {
  }

  /** A pawn leaving `from` for `to`: the old cell is cleared first, then the id is written. */
  function Moved(g: Grid, from: Pos, to: Pos, id: int): (r: Grid)
    requires WellFormed(g) && InBounds(from) && InBounds(to)
    ensures WellFormed(r)
  {
    SetCell(SetCell(g, from, 0), to, id)
  }

  /** After a move the id stands on the new cell, the old one is empty, and nothing else
      changed. */
  lemma MovedCells(g: Grid, from: Pos, to: Pos, id: int)
    requires WellFormed(g) && InBounds(from) && InBounds(to)
    ensures forall q | InBounds(q) ::
      At(Moved(g, from, to, id), q) == (if q == to then id else if q == from then 0 else At(g, q))
  {
    SetCellCells(g, from, 0);
    SetCellCells(SetCell(g, from, 0), to, id);
  }

  /** Writing a wall: the two endpoints become 1 and the middle slot gets the centre code,
      in the order c1, c2, c3 (a later write wins where cells coincide). */
  function PlaceWall(g: Grid, c1: Pos, c2: Pos, c3: Pos, centre: int): (r: Grid)
    requires WellFormed(g) && InBounds(c1) && InBounds(c2) && InBounds(c3)
    ensures WellFormed(r)
  {
    SetCell(SetCell(SetCell(g, c1, 1), c2, centre), c3, 1)
  }

  /** After a wall is written its endpoints hold 1, its middle the centre code (a later
      write winning where cells coincide), and every other cell is unchanged. */
  lemma PlaceWallCells(g: Grid, c1: Pos, c2: Pos, c3: Pos, centre: int)
    requires WellFormed(g) && InBounds(c1) && InBounds(c2) && InBounds(c3)
    ensures forall q | InBounds(q) ::
      At(PlaceWall(g, c1, c2, c3, centre), q) == (if q == c3 then 1 else if q == c2 then centre else if q == c1 then 1 else At(g, q))
  {
    var g1 := SetCell(g, c1, 1);
    var g2 := SetCell(g1, c2, centre);
    SetCellCells(g, c1, 1);
    SetCellCells(g1, c2, centre);
    SetCellCells(g2, c3, 1);
  }

  /** The first n entries of row i of a live board matrix, by value. */
  function RowOf(a: array2<int>, i: int, n: int): (r: seq<int>)
    reads a
    requires a.Length0 == DIM && a.Length1 == DIM && 0 <= i < DIM && 0 <= n <= DIM
    ensures |r| == n && forall j | 0 <= j < n :: r[j] == a[i, j]
  {
    if n == 0 then [] else RowOf(a, i, n - 1) + [a[i, n - 1]]
  }

  /** The first n rows of a live board matrix, by value. */
  function RowsOf(a: array2<int>, n: int): (r: seq<seq<int>>)
    reads a
    requires a.Length0 == DIM && a.Length1 == DIM && 0 <= n <= DIM
    ensures |r| == n && forall i | 0 <= i < n :: |r[i]| == DIM && forall j | 0 <= j < DIM :: r[i][j] == a[i, j]
  {
    if n == 0 then [] else RowsOf(a, n - 1) + [RowOf(a, n - 1, DIM)]
  }

  /** Value copy of a live board matrix. */
  function GridOf(a: array2<int>): (g: Grid)
    reads a
    requires a.Length0 == DIM && a.Length1 == DIM
    ensures WellFormed(g)
    ensures forall i, j | 0 <= i < DIM && 0 <= j < DIM :: g[i][j] == a[i, j]
  {
    RowsOf(a, DIM)
  }

  /** Two grids that agree cell by cell are equal. */
  lemma GridsEqual(g: Grid, h: Grid)
    requires WellFormed(g) && WellFormed(h)
    requires forall q | InBounds(q) :: At(g, q) == At(h, q)
    ensures g == h
  {
    forall i | 0 <= i < DIM
      ensures g[i] == h[i]
    {
      forall j | 0 <= j < DIM
        ensures g[i][j] == h[i][j]
      {
        assert At(g, Pos(i, j)) == At(h, Pos(i, j));
      }
    }
  }

  /**
   * The pawn-cell invariant of a well-formed game: each player's id stands on its own
   * position and every other pawn cell is empty. (Wall slots also hold 1 and 2, the wall
   * marker and the centre codes, so the statement is about pawn cells only.)
   */
  ghost predicate Clean(g: Grid, p1: Pos, p2: Pos) {
    && WellFormed(g)
    && InBounds(p1) && InBounds(p2) && IsPawnCell(p1) && IsPawnCell(p2) && p1 != p2
    && forall q | InBounds(q) && IsPawnCell(q) :: At(g, q) == (if q == p1 then 1 else if q == p2 then 2 else 0)
  }

  /** Walls go on wall slots only, so placing one keeps the pawn-cell invariant. */
  lemma WallKeepsClean(g: Grid, p1: Pos, p2: Pos, c1: Pos, c2: Pos, c3: Pos, centre: int)
    requires Clean(g, p1, p2) && InBounds(c1) && InBounds(c2) && InBounds(c3)
    requires !IsPawnCell(c1) && !IsPawnCell(c2) && !IsPawnCell(c3)
    ensures Clean(PlaceWall(g, c1, c2, c3, centre), p1, p2)
  {
    var h := PlaceWall(g, c1, c2, c3, centre);
    PlaceWallCells(g, c1, c2, c3, centre);
    forall q | InBounds(q) && IsPawnCell(q)
      ensures At(h, q) == At(g, q)
    {
    }
  }

  /** One player's record as the snapshot lists hold it: [position, walls left]. */
  datatype Side = Side(pos: Pos, walls: int)

  /** The value the board hands to the search: [[p1 pos, p1 walls], [p2 pos, p2 walls], grid]. */
  datatype View = View(p1: Side, p2: Side, grid: Grid)

  predicate ViewOk(s: View) {
    WellFormed(s.grid) && InBounds(s.p1.pos) && InBounds(s.p2.pos)
  }
}
