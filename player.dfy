/**
 * Pawn-move legality (Player.py): orthogonal steps, straight jumps over the opponent,
 * diagonal sidesteps, and the path test used to validate walls.
 *
 * The decisions are pure functions of the grid and the mover's position; the methods of
 * class Player carry out Player.py's in-place updates and are proved to agree with them.
 * Player.py's `board_ref` is only ever used for `board.grid` and the constant board
 * side, so each method takes the board's grid array as a parameter.
 */
module Players {
  import opened Config
  import opened Wrappers
  import opened GridState
  import opened Paths

  /** What a direction key asks for: an axis (0 rows, 1 columns) and a step of -1 or 1,
      or a diagonal given as x (column) and y (row) directions. */
  datatype Request = Orthogonal(axis: int, step: int) | Diagonal(xDir: int, yDir: int)

  /** The eight direction keys of handle_move_request and what each asks for. */
  function MoveMap(key: string): Option<Request> {
    if key == "top" then Some(Orthogonal(0, -1))
    else if key == "down" then Some(Orthogonal(0, 1))
    else if key == "left" then Some(Orthogonal(1, -1))
    else if key == "right" then Some(Orthogonal(1, 1))
    else if key == "topLeft" then Some(Diagonal(-1, -1))
    else if key == "topRight" then Some(Diagonal(1, -1))
    else if key == "bottomLeft" then Some(Diagonal(-1, 1))
    else if key == "bottomRight" then Some(Diagonal(1, 1))
    else None
  }

  predicate Fits(a: array2<int>) {
    a.Length0 == DIM && a.Length1 == DIM
  }

  /** The cell `k` steps from p along the axis (0 rows, anything else columns). */
  function Along(p: Pos, axis: int, k: int): Pos {
    if axis == 0 then Pos(p.row + k, p.col) else Pos(p.row, p.col + k)
  }

  /** _try_jump: land four steps away when that cell is on the board and the slot three
      steps away (behind the occupant) is empty. The landing cell itself is not examined. */
  function JumpTarget(g: Grid, p: Pos, axis: int, step: int): Option<Pos>
    requires WellFormed(g) && InBounds(p)
  {
    var land := Along(p, axis, 4 * step);
    if InBounds(land) && At(g, Along(p, axis, 3 * step)) == 0 then Some(land) else None
  }

  /** _check_orthogonal: the destination two steps away must be on the board and the slot
      in between empty; an occupied destination turns the request into a jump. */
  function OrthogonalTarget(g: Grid, p: Pos, axis: int, step: int): Option<Pos>
    requires WellFormed(g) && InBounds(p)
  {
    var dest := Along(p, axis, 2 * step);
    if !InBounds(dest) then None
    else if At(g, Along(p, axis, step)) != 0 then None
    else if At(g, dest) != 0 then JumpTarget(g, p, axis, step)
    else Some(dest)
  }

  /** A straight jump along the axis is impossible: the landing cell is off the board or
      the slot behind the neighbour holds something (an off-board slot reads as 0). */
  predicate JumpBlocked(g: Grid, p: Pos, axis: int, dir: int)
    requires WellFormed(g) && InBounds(p)
  {
    var behind := Along(p, axis, 3 * dir);
    var wallBehind := if InBounds(behind) then At(g, behind) else 0;
    !InBounds(Along(p, axis, 4 * dir)) || wallBehind != 0
  }

  /** _check_diagonal: the diagonal cell is reached when, along some axis, the neighbour
      two steps away is occupied, its straight jump is blocked, and the slot between that
      neighbour and the diagonal cell is empty. The slot between the mover and the
      neighbour is never looked at. */
  function DiagonalTarget(g: Grid, p: Pos, xDir: int, yDir: int): Option<Pos>
    requires WellFormed(g) && InBounds(p)
  {
    var dest := Pos(p.row + 2 * yDir, p.col + 2 * xDir);
    if !InBounds(dest) then None
    else if SidestepX(g, p, xDir, yDir) || SidestepY(g, p, xDir, yDir) then Some(dest)
    else None
  }

  /** The x-axis route of a diagonal move: the cell two columns away is occupied, its
      straight jump is blocked, and the slot from it toward the diagonal cell is empty. */
  predicate SidestepX(g: Grid, p: Pos, xDir: int, yDir: int)
    requires WellFormed(g) && InBounds(p) && InBounds(Pos(p.row + 2 * yDir, p.col + 2 * xDir))
  {
    var neighborX := if 0 <= p.col + 2 * xDir < DIM then At(g, Pos(p.row, p.col + 2 * xDir)) != 0 else false;
    neighborX && JumpBlocked(g, p, 1, xDir) && At(g, Pos(p.row + yDir, p.col + 2 * xDir)) == 0
  }

  /** The y-axis route of a diagonal move, tried when the x-axis route fails. */
  predicate SidestepY(g: Grid, p: Pos, xDir: int, yDir: int)
    requires WellFormed(g) && InBounds(p) && InBounds(Pos(p.row + 2 * yDir, p.col + 2 * xDir))
  {
    var neighborY := if 0 <= p.row + 2 * yDir < DIM then At(g, Pos(p.row + 2 * yDir, p.col)) != 0 else false;
    neighborY && JumpBlocked(g, p, 0, yDir) && At(g, Pos(p.row + 2 * yDir, p.col + xDir)) == 0
  }

  /** Where a direction key takes a pawn standing at p, if anywhere. */
  function RequestTarget(g: Grid, p: Pos, key: string): Option<Pos>
    requires WellFormed(g) && InBounds(p)
  {
    match MoveMap(key)
    case None => None
    case Some(Orthogonal(axis, step)) => OrthogonalTarget(g, p, axis, step)
    case Some(Diagonal(x, y)) => DiagonalTarget(g, p, x, y)
  }

  /** The effect of a move request with target t: rejected with nothing changed, or the
      pawn moved from p0 to the target. */
  ghost predicate Applied(g0: Grid, p0: Pos, t: Option<Pos>, id: int, ok: bool, g1: Grid, p1: Pos)
    requires WellFormed(g0) && InBounds(p0)
  {
    match t
    case None => !ok && g1 == g0 && p1 == p0
    case Some(d) => ok && InBounds(d) && p1 == d && g1 == Moved(g0, p0, d, id)
  }

  /** The two pawns with the mover's id: player 1 or player 2 at `me`, the other at `opp`. */
  ghost predicate CleanFor(g: Grid, me: Pos, opp: Pos, mover: int) {
    (mover == 1 && Clean(g, me, opp)) || (mover == 2 && Clean(g, opp, me))
  }

  /** The one-step offset of every recognised key is a unit step. */
  lemma RecognisedKeys(key: string)
    ensures MoveMap(key).Some? <==> key in ["top", "down", "left", "right", "topLeft", "topRight", "bottomLeft", "bottomRight"]
    ensures match MoveMap(key)
      case None => true
      case Some(Orthogonal(axis, step)) => (axis == 0 || axis == 1) && (step == -1 || step == 1)
      case Some(Diagonal(x, y)) => (x == -1 || x == 1) && (y == -1 || y == 1)
  {
  }

  /**
   * Every accepted target lies on the board, away from the mover, at one of the shapes of
   * the rules: two or four cells along an axis, or one cell diagonally on the pawn grid.
   */
  lemma TargetGeometry(g: Grid, p: Pos, key: string)
    requires WellFormed(g) && InBounds(p)
    requires RequestTarget(g, p, key).Some?
    ensures TargetShape(p, RequestTarget(g, p, key).value)
  {
    RecognisedKeys(key);
    match MoveMap(key)
    case Some(Orthogonal(axis, step)) =>
      OrthogonalGeometry(g, p, axis, step);
    case Some(Diagonal(x, y)) =>
      DiagonalGeometry(g, p, x, y);
  }

  /** The geometry of an accepted target d from p: on the board, away from p, on the pawn
      grid when p is, and two or four cells along an axis or one cell diagonally. */
  predicate TargetShape(p: Pos, d: Pos) {
    && InBounds(d) && d != p
    && (IsPawnCell(p) ==> IsPawnCell(d))
    && ((d.col == p.col && d.row - p.row in {-4, -2, 2, 4})
     || (d.row == p.row && d.col - p.col in {-4, -2, 2, 4})
     || (d.row - p.row in {-2, 2} && d.col - p.col in {-2, 2}))
  }

  lemma OrthogonalGeometry(g: Grid, p: Pos, axis: int, step: int)
    requires WellFormed(g) && InBounds(p)
    requires (axis == 0 || axis == 1) && (step == -1 || step == 1)
    requires OrthogonalTarget(g, p, axis, step).Some?
    ensures TargetShape(p, OrthogonalTarget(g, p, axis, step).value)
  {
    var d := OrthogonalTarget(g, p, axis, step).value;
    var k := if d == Along(p, axis, 2 * step) then 2 * step else 4 * step;
    assert d == Along(p, axis, k);
    if IsPawnCell(p) {
      if axis == 0 { PawnCellShift(p, k, 0); } else { PawnCellShift(p, 0, k); }
    }
  }

  lemma DiagonalGeometry(g: Grid, p: Pos, xDir: int, yDir: int)
    requires WellFormed(g) && InBounds(p)
    requires (xDir == -1 || xDir == 1) && (yDir == -1 || yDir == 1)
    requires DiagonalTarget(g, p, xDir, yDir).Some?
    ensures TargetShape(p, DiagonalTarget(g, p, xDir, yDir).value)
  {
    assert DiagonalTarget(g, p, xDir, yDir).value == Pos(p.row + 2 * yDir, p.col + 2 * xDir);
    if IsPawnCell(p) {
      PawnCellShift(p, 2 * yDir, 2 * xDir);
    }
  }

  /** Shifting a pawn cell by an even offset gives a pawn cell. */
  lemma PawnCellShift(p: Pos, dr: int, dc: int)
    requires IsPawnCell(p) && dr in {-4, -2, 0, 2, 4} && dc in {-4, -2, 0, 2, 4}
    ensures IsPawnCell(Pos(p.row + dr, p.col + dc))
  {
  }

  /** On a clean board the occupied pawn cells are exactly the two positions. */
  lemma OccupiedPawnCell(g: Grid, me: Pos, opp: Pos, mover: int, q: Pos)
    requires CleanFor(g, me, opp, mover)
    requires InBounds(q) && IsPawnCell(q)
    ensures At(g, q) != 0 <==> q == me || q == opp
  {
  }

  /**
   * On a clean board an accepted target is a pawn cell that neither pawn occupies: a step
   * lands on an empty cell, a jump lands beyond the opponent it jumps, and a sidestep lands
   * beside the opponent that blocks it.
   */
  lemma TargetAvoidsPawns(g: Grid, me: Pos, opp: Pos, mover: int, key: string)
    requires CleanFor(g, me, opp, mover)
    requires RequestTarget(g, me, key).Some?
    ensures var d := RequestTarget(g, me, key).value;
      InBounds(d) && IsPawnCell(d) && d != me && d != opp
  {
    RecognisedKeys(key);
    match MoveMap(key)
    case Some(Orthogonal(axis, step)) =>
      OrthogonalAvoidsPawns(g, me, opp, mover, axis, step);
    case Some(Diagonal(x, y)) =>
      DiagonalAvoidsPawns(g, me, opp, mover, x, y);
  }

  lemma OrthogonalAvoidsPawns(g: Grid, me: Pos, opp: Pos, mover: int, axis: int, step: int)
    requires CleanFor(g, me, opp, mover)
    requires (axis == 0 || axis == 1) && (step == -1 || step == 1)
    requires OrthogonalTarget(g, me, axis, step).Some?
    ensures var d := OrthogonalTarget(g, me, axis, step).value;
      InBounds(d) && IsPawnCell(d) && d != me && d != opp
  {
    var dest := Along(me, axis, 2 * step);
    if axis == 0 { PawnCellShift(me, 2 * step, 0); } else { PawnCellShift(me, 0, 2 * step); }
    OccupiedPawnCell(g, me, opp, mover, dest);
    OccupiedPawnCell(g, me, opp, mover, opp);
    if At(g, dest) != 0 {
      var land := Along(me, axis, 4 * step);
      if axis == 0 { PawnCellShift(me, 4 * step, 0); } else { PawnCellShift(me, 0, 4 * step); }
      assert dest == opp;
    }
  }

  lemma DiagonalAvoidsPawns(g: Grid, me: Pos, opp: Pos, mover: int, xDir: int, yDir: int)
    requires CleanFor(g, me, opp, mover)
    requires (xDir == -1 || xDir == 1) && (yDir == -1 || yDir == 1)
    requires DiagonalTarget(g, me, xDir, yDir).Some?
    ensures var d := DiagonalTarget(g, me, xDir, yDir).value;
      InBounds(d) && IsPawnCell(d) && d != me && d != opp
  {
    PawnCellShift(me, 2 * yDir, 2 * xDir);
    if SidestepX(g, me, xDir, yDir) {
      var n := Pos(me.row, me.col + 2 * xDir);
      PawnCellShift(me, 0, 2 * xDir);
      OccupiedPawnCell(g, me, opp, mover, n);
    } else {
      var n := Pos(me.row + 2 * yDir, me.col);
      PawnCellShift(me, 2 * yDir, 0);
      OccupiedPawnCell(g, me, opp, mover, n);
    }
  }

  /** After any accepted move exactly one pawn cell holds each id, and it is the owner's
      position: the pawn-cell invariant survives every pawn move. */
  lemma MovePreservesClean(g: Grid, me: Pos, opp: Pos, mover: int, key: string)
    requires CleanFor(g, me, opp, mover)
    requires RequestTarget(g, me, key).Some?
    ensures CleanFor(Moved(g, me, RequestTarget(g, me, key).value, mover), RequestTarget(g, me, key).value, opp, mover)
  {
    TargetAvoidsPawns(g, me, opp, mover, key);
    MovedKeepsClean(g, me, opp, mover, RequestTarget(g, me, key).value);
  }

  /** Moving a pawn to a free pawn cell keeps the pawn-cell invariant. */
  lemma MovedKeepsClean(g: Grid, me: Pos, opp: Pos, mover: int, d: Pos)
    requires CleanFor(g, me, opp, mover)
    requires InBounds(d) && IsPawnCell(d) && d != me && d != opp
    ensures CleanFor(Moved(g, me, d, mover), d, opp, mover)
  {
    var h := Moved(g, me, d, mover);
    MovedCells(g, me, d, mover);
    forall q | InBounds(q) && IsPawnCell(q)
      ensures At(h, q) == (if q == d then mover else if q == opp then 3 - mover else 0)
    {
    }
  }

  /**
   * A diagonal request succeeds exactly when the diagonal cell is on the board and, along
   * the x or the y axis, the opponent stands on the neighbouring pawn cell, a straight jump
   * over it is refused (JumpTarget gives nothing), and the slot between the opponent and
   * the diagonal cell is empty. The target is then the diagonal cell.
   */
  lemma DiagonalIffJumpBlocked(g: Grid, me: Pos, opp: Pos, mover: int, xDir: int, yDir: int)
    requires CleanFor(g, me, opp, mover)
    requires (xDir == -1 || xDir == 1) && (yDir == -1 || yDir == 1)
    ensures var dest := Pos(me.row + 2 * yDir, me.col + 2 * xDir);
      && (DiagonalTarget(g, me, xDir, yDir).Some? <==>
           (InBounds(dest) &&
            ((opp == Pos(me.row, me.col + 2 * xDir) && JumpTarget(g, me, 1, xDir).None? && At(g, Pos(me.row + yDir, me.col + 2 * xDir)) == 0)
          || (opp == Pos(me.row + 2 * yDir, me.col) && JumpTarget(g, me, 0, yDir).None? && At(g, Pos(me.row + 2 * yDir, me.col + xDir)) == 0))))
      && (DiagonalTarget(g, me, xDir, yDir).Some? ==> DiagonalTarget(g, me, xDir, yDir).value == dest)
  {
    var dest := Pos(me.row + 2 * yDir, me.col + 2 * xDir);
    if InBounds(dest) {
      SidestepXIff(g, me, opp, mover, xDir, yDir);
      SidestepYIff(g, me, opp, mover, xDir, yDir);
    }
  }

  /** The blocked-jump test of a sidestep is exactly the refusal of the straight jump. */
  lemma JumpBlockedIff(g: Grid, p: Pos, axis: int, dir: int)
    requires WellFormed(g) && InBounds(p)
    ensures JumpBlocked(g, p, axis, dir) <==> JumpTarget(g, p, axis, dir).None?
  {
  }

  lemma SidestepXIff(g: Grid, me: Pos, opp: Pos, mover: int, xDir: int, yDir: int)
    requires CleanFor(g, me, opp, mover)
    requires (xDir == -1 || xDir == 1) && (yDir == -1 || yDir == 1)
    requires InBounds(Pos(me.row + 2 * yDir, me.col + 2 * xDir))
    ensures SidestepX(g, me, xDir, yDir) <==>
      opp == Pos(me.row, me.col + 2 * xDir) && JumpTarget(g, me, 1, xDir).None? && At(g, Pos(me.row + yDir, me.col + 2 * xDir)) == 0
  {
    PawnCellShift(me, 0, 2 * xDir);
    OccupiedPawnCell(g, me, opp, mover, Pos(me.row, me.col + 2 * xDir));
    JumpBlockedIff(g, me, 1, xDir);
  }

  lemma SidestepYIff(g: Grid, me: Pos, opp: Pos, mover: int, xDir: int, yDir: int)
    requires CleanFor(g, me, opp, mover)
    requires (xDir == -1 || xDir == 1) && (yDir == -1 || yDir == 1)
    requires InBounds(Pos(me.row + 2 * yDir, me.col + 2 * xDir))
    ensures SidestepY(g, me, xDir, yDir) <==>
      opp == Pos(me.row + 2 * yDir, me.col) && JumpTarget(g, me, 0, yDir).None? && At(g, Pos(me.row + 2 * yDir, me.col + xDir)) == 0
  {
    PawnCellShift(me, 2 * yDir, 0);
    OccupiedPawnCell(g, me, opp, mover, Pos(me.row + 2 * yDir, me.col));
    JumpBlockedIff(g, me, 0, yDir);
  }


  class Player {
    const id: int
    const objectiveRow: int
    var pos: Pos
    var wallsLeft: int

    /** Records the player and writes its id into its starting cell. */
    constructor (pid: int, grid: array2<int>, start: Pos, objective: int, walls: int := START_WALLS)
      requires Fits(grid) && InBounds(start)
      modifies grid
      ensures id == pid && objectiveRow == objective && pos == start && wallsLeft == walls
      ensures GridOf(grid) == SetCell(old(GridOf(grid)), start, pid)
    {
      id := pid;
      objectiveRow := objective;
      pos := start;
      wallsLeft := walls;
      new;
      ghost var g := GridOf(grid);
      grid[start.row, start.col] := pid;
      GridsEqual(GridOf(grid), SetCell(g, start, pid));
    }

    method HandleMoveRequest(key: string, grid: array2<int>) returns (ok: bool)
      requires Fits(grid) && InBounds(pos)
      modifies this`pos, grid
      ensures Applied(old(GridOf(grid)), old(pos), RequestTarget(old(GridOf(grid)), old(pos), key), id, ok, GridOf(grid), pos)
    {
      match MoveMap(key)
      case None =>
        ok := false;
      case Some(Orthogonal(axis, step)) =>
        ok := CheckOrthogonal(axis, step, grid);
      case Some(Diagonal(x, y)) =>
        ok := CheckDiagonal(x, y, grid);
    }

    method CheckOrthogonal(axis: int, step: int, grid: array2<int>) returns (ok: bool)
      requires Fits(grid) && InBounds(pos)
      modifies this`pos, grid
      ensures Applied(old(GridOf(grid)), old(pos), OrthogonalTarget(old(GridOf(grid)), old(pos), axis, step), id, ok, GridOf(grid), pos)
    {
      var r, c := pos.row, pos.col;
      var wallR, wallC, destR, destC;
      if axis == 0 {
        wallR, wallC := r + step, c;
        destR, destC := r + 2 * step, c;
      } else {
        wallR, wallC := r, c + step;
        destR, destC := r, c + 2 * step;
      }
      if !(0 <= destR < DIM && 0 <= destC < DIM) {
        return false;
      }
      if grid[wallR, wallC] != 0 {
        return false;
      }
      if grid[destR, destC] != 0 {
        ok := TryJump(axis, step, grid);
        return;
      }
      UpdatePos(destR, destC, grid);
      return true;
    }

    method TryJump(axis: int, step: int, grid: array2<int>) returns (ok: bool)
      requires Fits(grid) && InBounds(pos)
      modifies this`pos, grid
      ensures Applied(old(GridOf(grid)), old(pos), JumpTarget(old(GridOf(grid)), old(pos), axis, step), id, ok, GridOf(grid), pos)
    {
      var r, c := pos.row, pos.col;
      if axis == 0 {
        var jumpR := r + 4 * step;
        if 0 <= jumpR < DIM && grid[r + 3 * step, c] == 0 {
          UpdatePos(jumpR, c, grid);
          return true;
        }
      } else {
        var jumpC := c + 4 * step;
        if 0 <= jumpC < DIM && grid[r, c + 3 * step] == 0 {
          UpdatePos(r, jumpC, grid);
          return true;
        }
      }
      return false;
    }

    method CheckDiagonal(xDir: int, yDir: int, grid: array2<int>) returns (ok: bool)
      requires Fits(grid) && InBounds(pos)
      modifies this`pos, grid
      ensures Applied(old(GridOf(grid)), old(pos), DiagonalTarget(old(GridOf(grid)), old(pos), xDir, yDir), id, ok, GridOf(grid), pos)
    {
      var r, c := pos.row, pos.col;
      var destR, destC := r + 2 * yDir, c + 2 * xDir;
      if !(0 <= destR < DIM && 0 <= destC < DIM) {
        return false;
      }
      var canMove := DiagonalAllowed(xDir, yDir, grid);
      if canMove {
        UpdatePos(destR, destC, grid);
        return true;
      }
      return false;
    }

    /** The decision of _check_diagonal once the diagonal cell is known to be on the
        board: the x-axis route, then the y-axis route when the first fails. */
    method DiagonalAllowed(xDir: int, yDir: int, grid: array2<int>) returns (canMove: bool)
      requires Fits(grid) && InBounds(pos) && InBounds(Pos(pos.row + 2 * yDir, pos.col + 2 * xDir))
      ensures canMove == (SidestepX(GridOf(grid), pos, xDir, yDir) || SidestepY(GridOf(grid), pos, xDir, yDir))
    {
      var neighborY := CellTaken(Pos(pos.row + 2 * yDir, pos.col), grid);
      var neighborX := CellTaken(Pos(pos.row, pos.col + 2 * xDir), grid);
      canMove := false;
      if neighborX {
        canMove := ProbeX(xDir, yDir, grid);
      }
      if neighborY && !canMove {
        canMove := ProbeY(xDir, yDir, grid);
      }
    }

    /** A cell that is on the board and not empty; a cell off the board counts as free. */
    method CellTaken(q: Pos, grid: array2<int>) returns (b: bool)
      requires Fits(grid)
      ensures b == (InBounds(q) && At(GridOf(grid), q) != 0)
    {
      b := if 0 <= q.row < DIM && 0 <= q.col < DIM then grid[q.row, q.col] != 0 else false;
    }

    /** The x-axis half of _check_diagonal, once the cell two columns away is known to be
        occupied: the straight jump over it is blocked and the slot toward the diagonal
        cell is empty. */
    method ProbeX(xDir: int, yDir: int, grid: array2<int>) returns (canMove: bool)
      requires Fits(grid) && InBounds(pos) && InBounds(Pos(pos.row + 2 * yDir, pos.col + 2 * xDir))
      ensures canMove == (JumpBlocked(GridOf(grid), pos, 1, xDir) && At(GridOf(grid), Pos(pos.row + yDir, pos.col + 2 * xDir)) == 0)
    {
      var r, c := pos.row, pos.col;
      var jumpDestX := c + 4 * xDir;
      var wallBehindOpponent := if 0 <= c + 3 * xDir < DIM then grid[r, c + 3 * xDir] else 0;
      var isJumpBlocked := jumpDestX < 0 || jumpDestX >= DIM || wallBehindOpponent != 0;
      var wallToDiag := grid[r + yDir, c + 2 * xDir] == 0;
      canMove := isJumpBlocked && wallToDiag;
    }

    /** The y-axis half of _check_diagonal, the mirror image of ProbeX. */
    method ProbeY(xDir: int, yDir: int, grid: array2<int>) returns (canMove: bool)
      requires Fits(grid) && InBounds(pos) && InBounds(Pos(pos.row + 2 * yDir, pos.col + 2 * xDir))
      ensures canMove == (JumpBlocked(GridOf(grid), pos, 0, yDir) && At(GridOf(grid), Pos(pos.row + 2 * yDir, pos.col + xDir)) == 0)
    {
      var r, c := pos.row, pos.col;
      var jumpDestY := r + 4 * yDir;
      var wallBehindOpponent := if 0 <= r + 3 * yDir < DIM then grid[r + 3 * yDir, c] else 0;
      var isJumpBlocked := jumpDestY < 0 || jumpDestY >= DIM || wallBehindOpponent != 0;
      var wallToDiag := grid[r + 2 * yDir, c + xDir] == 0;
      canMove := isJumpBlocked && wallToDiag;
    }

    /** Clears the old cell, records the new position and writes the id there. */
    method UpdatePos(r: int, c: int, grid: array2<int>)
      requires Fits(grid) && InBounds(pos) && InBounds(Pos(r, c))
      modifies this`pos, grid
      ensures pos == Pos(r, c)
      ensures GridOf(grid) == Moved(old(GridOf(grid)), old(pos), Pos(r, c), id)
    {
      ghost var g := GridOf(grid);
      grid[pos.row, pos.col] := 0;
      pos := Pos(r, c);
      grid[r, c] := id;
      GridsEqual(GridOf(grid), Moved(g, old(pos), Pos(r, c), id));
    }

    /** has_path_to_goal: the breadth-first search from this player's position. */
    method HasPathToGoal(testGrid: array2<int>) returns (found: bool)
      requires Fits(testGrid) && InBounds(pos)
      ensures found <==> Reachable(GridOf(testGrid), pos, objectiveRow)
    {
      found := HasPath(GridOf(testGrid), pos, objectiveRow);
    }
  }
}
