/**
 * The game rules that live in the event handler of main.py: a direction key moves the
 * active pawn under the save/pop history protocol, two clicks on wall slots place a wall
 * after the emptiness and path checks (rolling back on failure), end_turn detects a win
 * and hands the turn over, and run_ai plays the computer's turn as a sequential call.
 */
module Games {
  import opened Config
  import opened Wrappers
  import opened GridState
  import opened Paths
  import opened Players
  import opened Boards
  import opened AIPlayers

  /* ---------------- Wall shapes ---------------- */

  /** A clicked cell (x is the column, y the row) that is not a pawn cell. */
  predicate WallSlot(x: int, y: int) {
    x % 2 != 0 || y % 2 != 0
  }

  /** The two shapes the click handler tests for: two cells apart along a row or a column. */
  predicate ShapeAsWritten(ax: int, ay: int, cx: int, cy: int) {
    ((ax - cx == 2 || cx - ax == 2) && ay == cy) || ((ay - cy == 2 || cy - ay == 2) && ax == cx)
  }

  /** The middle cell of the wall, in (row, column) order. */
  function Centre(ax: int, ay: int, cx: int, cy: int): Pos {
    Pos((ay + cy) / 2, (ax + cx) / 2)
  }

  /** The shape test as the rules intend it: the middle cell is a wall slot too. */
  predicate WallShapeOk(ax: int, ay: int, cx: int, cy: int) {
    ShapeAsWritten(ax, ay, cx, cy) && !IsPawnCell(Centre(ax, ay, cx, cy))
  }

  /** The centre code the handler writes: HORIZONTAL when the clicks share a row. */
  function CentreCode(ay: int, cy: int): (code: int)
    ensures code == HORIZONTAL <==> ay == cy
    ensures code == VERTICAL <==> ay != cy
  {
    if ay == cy then HORIZONTAL else VERTICAL
  }

  /** A clicked wall slot is exactly a cell off the pawn grid. */
  lemma WallSlotOffPawns(x: int, y: int)
    ensures WallSlot(x, y) <==> !IsPawnCell(Pos(y, x))
  {
  }

  /**
   * The as-written shape test admits the clicks (x=1, y=0) and (x=3, y=0): both are wall
   * slots, but the middle cell (0, 2) is a pawn cell, and on any clean board where the
   * three cells are empty, placing that wall writes a wall code into a pawn cell.
   */
  lemma AsWrittenAdmitsPawnCentre(g: Grid, p1: Pos, p2: Pos)
    requires Clean(g, p1, p2)
    requires At(g, Pos(0, 1)) == 0 && At(g, Pos(0, 2)) == 0 && At(g, Pos(0, 3)) == 0
    ensures WallSlot(1, 0) && WallSlot(3, 0) && ShapeAsWritten(1, 0, 3, 0)
    ensures Centre(1, 0, 3, 0) == Pos(0, 2) && IsPawnCell(Pos(0, 2))
    ensures !Clean(PlaceWall(g, Pos(0, 1), Pos(0, 2), Pos(0, 3), CentreCode(0, 0)), p1, p2)
  {
    var h := PlaceWall(g, Pos(0, 1), Pos(0, 2), Pos(0, 3), CentreCode(0, 0));
    PlaceWallCells(g, Pos(0, 1), Pos(0, 2), Pos(0, 3), CentreCode(0, 0));
    assert IsPawnCell(Pos(0, 2));
    assert At(h, Pos(0, 2)) == HORIZONTAL;
  }

  /** Between two wall-slot clicks the intended shape is the as-written one whose shared
      coordinate is odd: a wall along an odd row or an odd column. */
  lemma WallShapeOkIff(ax: int, ay: int, cx: int, cy: int)
    requires 0 <= ax && 0 <= ay && 0 <= cx && 0 <= cy
    requires WallSlot(ax, ay) && WallSlot(cx, cy)
    ensures WallShapeOk(ax, ay, cx, cy) <==>
      ShapeAsWritten(ax, ay, cx, cy) && (if ay == cy then ay % 2 == 1 else ax % 2 == 1)
  {
    if ShapeAsWritten(ax, ay, cx, cy) {
      var lo := if ay == cy then (if ax < cx then ax else cx) else (if ay < cy then ay else cy);
      if ay == cy {
        assert Centre(ax, ay, cx, cy) == Pos(ay, lo + 1);
      } else {
        assert Centre(ax, ay, cx, cy) == Pos(lo + 1, ax);
      }
    }
  }

  /** With the intended shape, a wall between two clicked wall slots covers wall slots
      only, is three distinct cells, and keeps the pawn-cell invariant. */
  lemma CorrectedWallKeepsClean(g: Grid, p1: Pos, p2: Pos, ax: int, ay: int, cx: int, cy: int, code: int)
    requires Clean(g, p1, p2)
    requires InBounds(Pos(ay, ax)) && InBounds(Pos(cy, cx))
    requires WallSlot(ax, ay) && WallSlot(cx, cy) && WallShapeOk(ax, ay, cx, cy)
    ensures InBounds(Centre(ax, ay, cx, cy))
    ensures Pos(ay, ax) != Centre(ax, ay, cx, cy) && Centre(ax, ay, cx, cy) != Pos(cy, cx) && Pos(cy, cx) != Pos(ay, ax)
    ensures Clean(PlaceWall(g, Pos(ay, ax), Centre(ax, ay, cx, cy), Pos(cy, cx), code), p1, p2)
  {
    WallSlotOffPawns(ax, ay);
    WallSlotOffPawns(cx, cy);
    WallKeepsClean(g, p1, p2, Pos(ay, ax), Centre(ax, ay, cx, cy), Pos(cy, cx), code);
  }

  /** The grid with each listed cell set to v, in order. */
  function Fill(g: Grid, cells: seq<Pos>, v: int): (r: Grid)
    requires WellFormed(g) && forall i | 0 <= i < |cells| :: InBounds(cells[i])
    ensures WellFormed(r)
  {
    if cells == [] then g else SetCell(Fill(g, cells[..|cells| - 1], v), cells[|cells| - 1], v)
  }

  /** Filling three cells is three writes in order. */
  lemma FillThree(g: Grid, a: Pos, b: Pos, c: Pos, v: int)
    requires WellFormed(g) && InBounds(a) && InBounds(b) && InBounds(c)
    ensures Fill(g, [a, b, c], v) == SetCell(SetCell(SetCell(g, a, v), b, v), c, v)
  {
    assert [a, b, c][..2] == [a, b];
    assert [a, b][..1] == [a];
    assert [a][..0] == [];
    assert Fill(g, [a], v) == SetCell(g, a, v);
    assert Fill(g, [a, b], v) == SetCell(Fill(g, [a], v), b, v);
  }

  /** Writing the centre code over the marked middle cell gives the wall with that code. */
  lemma CentreOverMarked(g: Grid, c1: Pos, mid: Pos, c3: Pos, code: int)
    requires WellFormed(g) && InBounds(c1) && InBounds(mid) && InBounds(c3) && mid != c3
    ensures SetCell(PlaceWall(g, c1, mid, c3, 1), mid, code) == PlaceWall(g, c1, mid, c3, code)
  {
    PlaceWallCells(g, c1, mid, c3, 1);
    PlaceWallCells(g, c1, mid, c3, code);
    SetCellCells(PlaceWall(g, c1, mid, c3, 1), mid, code);
    GridsEqual(SetCell(PlaceWall(g, c1, mid, c3, 1), mid, code), PlaceWall(g, c1, mid, c3, code));
  }

  /** Emptying the three cells of a tentative wall gives back a grid where they were empty. */
  lemma FillClearsWall(g: Grid, c1: Pos, mid: Pos, c3: Pos)
    requires WellFormed(g) && InBounds(c1) && InBounds(mid) && InBounds(c3)
    requires At(g, c1) == 0 && At(g, mid) == 0 && At(g, c3) == 0
    ensures Fill(PlaceWall(g, c1, mid, c3, 1), [c1, mid, c3], 0) == g
  {
    var t := PlaceWall(g, c1, mid, c3, 1);
    var t1 := SetCell(t, c1, 0);
    var t2 := SetCell(t1, mid, 0);
    FillThree(t, c1, mid, c3, 0);
    PlaceWallCells(g, c1, mid, c3, 1);
    SetCellCells(t, c1, 0);
    SetCellCells(t1, mid, 0);
    SetCellCells(t2, c3, 0);
    GridsEqual(SetCell(t2, c3, 0), g);
  }

  /** `for r, c in coords: grid[r, c] = v` on the live grid. */
  method FillCells(grid: array2<int>, cells: seq<Pos>, v: int)
    requires Fits(grid) && forall i | 0 <= i < |cells| :: InBounds(cells[i])
    modifies grid
    ensures GridOf(grid) == Fill(old(GridOf(grid)), cells, v)
  {
    ghost var g := GridOf(grid);
    for i := 0 to |cells|
      invariant GridOf(grid) == Fill(g, cells[..i], v)
    {
      WriteCell(grid, cells[i], v);
      assert cells[..i + 1][..i] == cells[..i];
    }
    assert cells[..|cells|] == cells;
  }

  /** One write to the live grid, as a change of its value. */
  method WriteCell(grid: array2<int>, p: Pos, v: int)
    requires Fits(grid) && InBounds(p)
    modifies grid
    ensures GridOf(grid) == SetCell(old(GridOf(grid)), p, v)
  {
    ghost var before := GridOf(grid);
    grid[p.row, p.col] := v;
    SetCellCells(before, p, v);
    GridsEqual(GridOf(grid), SetCell(before, p, v));
  }

  /** What a wall attempt came to: placed, refused because a cell is taken, or refused
      because it cuts a player off. */
  datatype WallOutcome = Placed | Occupied | BlocksPath

  /** end_turn's verdict: player 1 on row 0 wins; otherwise player 2 on row 16 wins;
      otherwise the verdict w stands. */
  function Verdict(p1Row: int, p2Row: int, w: Option<int>): (r: Option<int>)
    ensures r == Some(1) <==> p1Row == P1_GOAL || (p2Row != P2_GOAL && w == Some(1))
    ensures r == Some(2) <==> p1Row != P1_GOAL && (p2Row == P2_GOAL || w == Some(2))
    ensures p1Row != P1_GOAL && p2Row != P2_GOAL ==> r == w
  {
    if p1Row == P1_GOAL then Some(1) else if p2Row == P2_GOAL then Some(2) else w
  }

  /** The path test runs on the tentative marking, with 1 in the centre; writing any
      nonzero centre code afterwards empties no cell, so it keeps every path. */
  lemma CommittedWallKeepsPaths(g: Grid, c1: Pos, mid: Pos, c3: Pos, code: int, start: Pos, goalRow: int)
    requires WellFormed(g) && InBounds(c1) && InBounds(mid) && InBounds(c3) && code != 0
    ensures Reachable(PlaceWall(g, c1, mid, c3, 1), start, goalRow) <==>
            Reachable(PlaceWall(g, c1, mid, c3, code), start, goalRow)
  {
    PlaceWallCells(g, c1, mid, c3, 1);
    PlaceWallCells(g, c1, mid, c3, code);
    ReachableSameZeros(PlaceWall(g, c1, mid, c3, 1), PlaceWall(g, c1, mid, c3, code), start, goalRow);
  }

  /* ---------------- The game ---------------- */

  class Game {
    const board: Board
    /** The first click of a wall, as (row, column); None when no wall is being drawn. */
    var wallAnchor: Option<Pos>
    /** The winning player's id, once there is one. */
    var winner: Option<int>
    var errMsg: string

    /** The board invariant, and an anchor that is a wall slot on the board. */
    ghost predicate Valid()
      reads this, board, board.p1, board.p2, board.grid
    {
      && board.Valid()
      && (wallAnchor.Some? ==> InBounds(wallAnchor.value) && !IsPawnCell(wallAnchor.value))
    }

    /** A fresh board in the chosen mode, no anchor, no winner, no message. */
    constructor (vsAi: bool)
      ensures Valid() && fresh(board) && board.vsAi == vsAi
      ensures board.activePlayer == board.p1 && board.history == [] && board.redoStack == []
      ensures wallAnchor == None && winner == None && errMsg == ""
    {
      board := new Board(vsAi);
      wallAnchor := None;
      winner := None;
      errMsg := "";
    }

    /**
     * The key-move protocol: save a snapshot, ask the active player to move; an accepted
     * move clears the redo stack, a rejected one pops the snapshot again so that the
     * history is as it was. The pawn-cell invariant survives.
     */
    method KeyMove(key: string) returns (moved: bool)
      requires board.Valid()
      modifies board`history, board`redoStack, board.grid, board.activePlayer`pos
      ensures board.Valid()
      ensures var t := RequestTarget(old(GridOf(board.grid)), old(board.activePlayer.pos), key);
        && (moved <==> t.Some?)
        && Applied(old(GridOf(board.grid)), old(board.activePlayer.pos), t, board.activePlayer.id, moved, GridOf(board.grid), board.activePlayer.pos)
      ensures board.history == if moved then old(board.history) + [old(board.Current())] else old(board.history)
      ensures board.redoStack == if moved then [] else old(board.redoStack)
    {
      ghost var g := GridOf(board.grid);
      ghost var me := board.activePlayer.pos;
      ghost var opp := if board.activePlayer == board.p1 then board.p2.pos else board.p1.pos;
      ghost var mover := board.activePlayer.id;
      board.SaveSnapshot();
      ghost var h := board.history;
      moved := board.activePlayer.HandleMoveRequest(key, board.grid);
      if moved {
        assert CleanFor(g, me, opp, mover);
        MovePreservesClean(g, me, opp, mover, key);
        board.ClearRedo();
      } else {
        PopSnapshot();
      }
    }

    /**
     * handle_input for a direction key: nothing once there is a winner or while the
     * computer is to move; otherwise the key-move protocol, and end_turn after an
     * accepted move.
     */
    method HandleKey(key: string)
      requires Valid()
      modifies this`winner, board`activePlayer, board`history, board`redoStack, board.grid, board.p1, board.p2
      ensures Valid()
      ensures old(winner).Some? || (board.vsAi && old(board.activePlayer) == board.p2) || MoveMap(key).None? ==>
        && winner == old(winner) && board.activePlayer == old(board.activePlayer)
        && board.Timeline_() == old(board.Timeline_())
    {
      if winner.Some? {
        return;
      }
      if board.vsAi && board.activePlayer.id == 2 {
        return;
      }
      if MoveMap(key).None? {
        return;
      }
      KeyTurn(key);
    }

    /** The key-move protocol followed by end_turn once the move is accepted; a key the
        active player cannot move by changes nothing. */
    method KeyTurn(key: string)
      requires board.Valid()
      modifies this`winner, board`activePlayer, board`history, board`redoStack, board.grid, board.p1, board.p2
      ensures board.Valid()
      ensures RequestTarget(old(GridOf(board.grid)), old(board.activePlayer.pos), key).None? ==>
        && winner == old(winner) && board.activePlayer == old(board.activePlayer)
        && board.Timeline_() == old(board.Timeline_())
    {
      var moved := KeyMove(key);
      if moved {
        EndTurn();
      }
    }

    /**
     * The wall branch once the shape is accepted: save a snapshot; if a cell is taken, pop
     * it; otherwise mark the three cells 1 and test both players' paths (the active
     * player, then player 2, then player 1). With both paths the centre gets its code, the
     * active player spends a wall and the redo stack is cleared; without, the three cells
     * go back to 0 and the snapshot is popped.
     */
    method AttemptWall(c1: Pos, mid: Pos, c3: Pos, code: int) returns (outcome: WallOutcome)
      requires board.Valid() && board.activePlayer.wallsLeft > 0
      requires InBounds(c1) && InBounds(mid) && InBounds(c3)
      requires !IsPawnCell(c1) && !IsPawnCell(mid) && !IsPawnCell(c3)
      requires c1 != mid && mid != c3 && c1 != c3
      modifies board`history, board`redoStack, board.grid, board.activePlayer`wallsLeft
      ensures board.Valid()
      ensures var g := old(GridOf(board.grid));
        var free := At(g, c1) == 0 && At(g, mid) == 0 && At(g, c3) == 0;
        var t := PlaceWall(g, c1, mid, c3, 1);
        && (outcome == Occupied <==> !free)
        && (outcome == BlocksPath <==> free && !(Reachable(t, board.p1.pos, P1_GOAL) && Reachable(t, board.p2.pos, P2_GOAL)))
      ensures outcome == Placed ==>
        && GridOf(board.grid) == PlaceWall(old(GridOf(board.grid)), c1, mid, c3, code)
        && board.activePlayer.wallsLeft == old(board.activePlayer.wallsLeft) - 1
        && board.history == old(board.history) + [old(board.Current())]
        && board.redoStack == []
      ensures outcome != Placed ==>
        && GridOf(board.grid) == old(GridOf(board.grid))
        && board.activePlayer.wallsLeft == old(board.activePlayer.wallsLeft)
        && board.history == old(board.history)
        && board.redoStack == old(board.redoStack)
      ensures outcome == Placed && code != 0 ==>
        && Reachable(GridOf(board.grid), board.p1.pos, P1_GOAL)
        && Reachable(GridOf(board.grid), board.p2.pos, P2_GOAL)
    {
      ghost var g := GridOf(board.grid);
      board.SaveSnapshot();
      var free := CellsFree(c1, mid, c3);
      if free {
        outcome := WallOnSaved(c1, mid, c3, code);
        if outcome == Placed && code != 0 {
          CommittedWallKeepsPaths(g, c1, mid, c3, code, board.p1.pos, P1_GOAL);
          CommittedWallKeepsPaths(g, c1, mid, c3, code, board.p2.pos, P2_GOAL);
        }
      } else {
        outcome := Occupied;
        PopSnapshot();
      }
    }

    /** The three cells of a wall are all empty. */
    method CellsFree(c1: Pos, mid: Pos, c3: Pos) returns (free: bool)
      requires Fits(board.grid) && InBounds(c1) && InBounds(mid) && InBounds(c3)
      ensures var g := GridOf(board.grid);
        free <==> At(g, c1) == 0 && At(g, mid) == 0 && At(g, c3) == 0
    {
      var grid := board.grid;
      free := grid[c1.row, c1.col] == 0 && grid[mid.row, mid.col] == 0 && grid[c3.row, c3.col] == 0;
    }

    /** The free-cells branch of the wall attempt, with the snapshot already on top of the
        history: keep the wall and clear the redo stack, or take it back and pop the
        snapshot. */
    method WallOnSaved(c1: Pos, mid: Pos, c3: Pos, code: int) returns (outcome: WallOutcome)
      requires board.Valid() && board.activePlayer.wallsLeft > 0 && board.history != []
      requires InBounds(c1) && InBounds(mid) && InBounds(c3)
      requires !IsPawnCell(c1) && !IsPawnCell(mid) && !IsPawnCell(c3)
      requires c1 != mid && mid != c3 && c1 != c3
      requires At(GridOf(board.grid), c1) == 0 && At(GridOf(board.grid), mid) == 0 && At(GridOf(board.grid), c3) == 0
      modifies board`history, board`redoStack, board.grid, board.activePlayer`wallsLeft
      ensures board.Valid() && outcome != Occupied
      ensures var t := PlaceWall(old(GridOf(board.grid)), c1, mid, c3, 1);
        outcome == Placed <==> Reachable(t, board.p1.pos, P1_GOAL) && Reachable(t, board.p2.pos, P2_GOAL)
      ensures outcome == Placed ==>
        && GridOf(board.grid) == PlaceWall(old(GridOf(board.grid)), c1, mid, c3, code)
        && board.activePlayer.wallsLeft == old(board.activePlayer.wallsLeft) - 1
        && board.history == old(board.history)
        && board.redoStack == []
      ensures outcome != Placed ==>
        && GridOf(board.grid) == old(GridOf(board.grid))
        && board.activePlayer.wallsLeft == old(board.activePlayer.wallsLeft)
        && board.history == old(board.history)[..|old(board.history)| - 1]
        && board.redoStack == old(board.redoStack)
    {
      var placed := TentativeWall(c1, mid, c3, code);
      if placed {
        board.ClearRedo();
        return Placed;
      }
      outcome := BlocksPath;
      PopSnapshot();
    }

    /** history.pop(): drops the snapshot on top of the history. */
    method PopSnapshot()
      requires board.Valid() && board.history != []
      modifies board`history
      ensures board.Valid()
      ensures board.history == old(board.history)[..|old(board.history)| - 1]
    {
      board.history := board.history[..|board.history| - 1];
    }

    /** The three empty cells are marked 1 and the paths tested; with both paths the centre
        gets its code and the active player spends a wall, without them the cells are
        emptied again. */
    method TentativeWall(c1: Pos, mid: Pos, c3: Pos, code: int) returns (placed: bool)
      requires board.Valid() && board.activePlayer.wallsLeft > 0
      requires InBounds(c1) && InBounds(mid) && InBounds(c3)
      requires !IsPawnCell(c1) && !IsPawnCell(mid) && !IsPawnCell(c3)
      requires c1 != mid && mid != c3 && c1 != c3
      requires board.grid[c1.row, c1.col] == 0 && board.grid[mid.row, mid.col] == 0 && board.grid[c3.row, c3.col] == 0
      modifies board.grid, board.activePlayer`wallsLeft
      ensures board.Valid()
      ensures var t := PlaceWall(old(GridOf(board.grid)), c1, mid, c3, 1);
        placed <==> Reachable(t, board.p1.pos, P1_GOAL) && Reachable(t, board.p2.pos, P2_GOAL)
      ensures placed ==>
        && GridOf(board.grid) == PlaceWall(old(GridOf(board.grid)), c1, mid, c3, code)
        && board.activePlayer.wallsLeft == old(board.activePlayer.wallsLeft) - 1
      ensures !placed ==>
        && GridOf(board.grid) == old(GridOf(board.grid))
        && board.activePlayer.wallsLeft == old(board.activePlayer.wallsLeft)
    {
      ghost var g, q1, q2 := GridOf(board.grid), board.p1.pos, board.p2.pos;
      WallKeepsClean(g, q1, q2, c1, mid, c3, 1);
      WallKeepsClean(g, q1, q2, c1, mid, c3, code);
      FillThree(g, c1, mid, c3, 1);
      CentreOverMarked(g, c1, mid, c3, code);
      FillClearsWall(g, c1, mid, c3);
      var grid := board.grid;
      var coords := [c1, mid, c3];
      FillCells(grid, coords, 1);
      placed := BothPaths();
      if placed {
        WriteCell(grid, mid, code);
        board.activePlayer.wallsLeft := board.activePlayer.wallsLeft - 1;
      } else {
        FillCells(grid, coords, 0);
      }
    }

    /** The path test on the live grid: the active player's, then player 2's, then player
        1's, stopping at the first failure. */
    method BothPaths() returns (ok: bool)
      requires board.Valid()
      ensures ok <==> Reachable(GridOf(board.grid), board.p1.pos, P1_GOAL) && Reachable(GridOf(board.grid), board.p2.pos, P2_GOAL)
    {
      ok := board.activePlayer.HasPathToGoal(board.grid);
      if ok {
        ok := board.p2.HasPathToGoal(board.grid);
      }
      if ok {
        ok := board.p1.HasPathToGoal(board.grid);
      }
    }

    /**
     * handle_input for a click on board cell (x, y). Only a wall slot clicked while the
     * active player has walls does anything: the first such click sets the anchor; the
     * second checks the shape and, when it is right, attempts the wall (ending the turn
     * once it is placed, reporting the refusal otherwise), and always drops the anchor. A
     * click on a pawn cell drops the anchor. Nothing happens once there is a winner.
     */
    method HandleClick(cx: int, cy: int)
      requires Valid() && InBounds(Pos(cy, cx))
      modifies this`winner, this`wallAnchor, this`errMsg
      modifies board`activePlayer, board`history, board`redoStack, board.grid, board.p1, board.p2
      ensures Valid()
      ensures !(old(winner).None? && WallSlot(cx, cy) && old(board.activePlayer.wallsLeft) > 0
                && old(wallAnchor).Some? && WallShapeOk(old(wallAnchor).value.col, old(wallAnchor).value.row, cx, cy)) ==>
        && winner == old(winner) && board.activePlayer == old(board.activePlayer)
        && board.Timeline_() == old(board.Timeline_())
      ensures old(winner).None? && WallSlot(cx, cy) && old(board.activePlayer.wallsLeft) > 0 ==>
        wallAnchor == if old(wallAnchor).None? then Some(Pos(cy, cx)) else None
      ensures old(winner).None? && !WallSlot(cx, cy) ==> wallAnchor == None
      ensures old(winner).None? && WallSlot(cx, cy) && old(board.activePlayer.wallsLeft) > 0
                && old(wallAnchor).Some? && !WallShapeOk(old(wallAnchor).value.col, old(wallAnchor).value.row, cx, cy) ==>
        errMsg == "Invalid Shape"
    {
      if winner.Some? {
        return;
      }
      var isWallSlot := cx % 2 != 0 || cy % 2 != 0;
      if isWallSlot && board.activePlayer.wallsLeft > 0 {
        if wallAnchor.None? {
          WallSlotOffPawns(cx, cy);
          wallAnchor := Some(Pos(cy, cx));
        } else {
          WallSlotOffPawns(cx, cy);
          SecondClick(wallAnchor.value.col, wallAnchor.value.row, cx, cy);
          wallAnchor := None;
        }
      } else if !isWallSlot {
        wallAnchor := None;
      }
    }

    /**
     * The second wall click, from the anchor (ax, ay) to (cx, cy): a wrong shape is
     * reported and changes nothing else; a right one is attempted, ending the turn once
     * the wall is placed and reporting the refusal otherwise.
     */
    method SecondClick(ax: int, ay: int, cx: int, cy: int)
      requires board.Valid() && board.activePlayer.wallsLeft > 0
      requires InBounds(Pos(ay, ax)) && InBounds(Pos(cy, cx)) && WallSlot(ax, ay) && WallSlot(cx, cy)
      modifies this`winner, this`errMsg
      modifies board`activePlayer, board`history, board`redoStack, board.grid, board.p1, board.p2
      ensures board.Valid()
      ensures !WallShapeOk(ax, ay, cx, cy) ==>
        && errMsg == "Invalid Shape" && winner == old(winner)
        && board.activePlayer == old(board.activePlayer) && board.Timeline_() == old(board.Timeline_())
    {
      if WallShapeOk(ax, ay, cx, cy) {
        CorrectedWallKeepsClean(GridOf(board.grid), board.p1.pos, board.p2.pos, ax, ay, cx, cy, CentreCode(ay, cy));
        var midX, midY := (ax + cx) / 2, (ay + cy) / 2;
        var outcome := AttemptWall(Pos(ay, ax), Pos(midY, midX), Pos(cy, cx), CentreCode(ay, cy));
        if outcome == Placed {
          EndTurn();
        } else if outcome == BlocksPath {
          errMsg := "Blocks Path!";
        } else {
          errMsg := "Occupied!";
        }
      } else {
        errMsg := "Invalid Shape";
      }
    }

    /**
     * end_turn: the verdict on the current rows; with no winner the turn passes from
     * player 1 to player 2 (and, against the computer, run_ai plays at once) or from
     * player 2 back to player 1; with a winner the active player stays.
     */
    method EndTurn()
      requires board.Valid()
      modifies this`winner, board`activePlayer, board`history, board`redoStack, board.grid, board.p2
      decreases if board.activePlayer == board.p1 then 2 else 0
      ensures board.Valid()
      ensures var w := Verdict(old(board.p1.pos.row), old(board.p2.pos.row), old(winner));
        if old(board.activePlayer) == board.p1 && w.None? && board.vsAi then
          && board.GetSnapshot() == AiResult(old(board.GetSnapshot()))
          && board.history == old(board.history) + [old(board.Current()).(activeId := 2)]
          && board.redoStack == []
          && winner == Verdict(board.p1.pos.row, board.p2.pos.row, None)
          && board.activePlayer == (if winner.None? then board.p1 else board.p2)
        else
          && winner == w
          && board.activePlayer == (if w.Some? then old(board.activePlayer)
                                    else if old(board.activePlayer) == board.p1 then board.p2 else board.p1)
          && board.GetSnapshot() == old(board.GetSnapshot())
          && board.history == old(board.history) && board.redoStack == old(board.redoStack)
    {
      var p1Win := board.p1.pos.row == P1_GOAL;
      var p2Win := board.p2.pos.row == 16;
      if p1Win {
        winner := Some(1);
      } else if p2Win {
        winner := Some(2);
      }
      if board.activePlayer == board.p1 && winner.None? {
        board.activePlayer := board.p2;
        if board.vsAi {
          RunAi();
        }
      } else if winner.None? {
        board.activePlayer := board.p1;
      }
    }

    /**
     * run_ai as a sequential call: save a snapshot, let player 2 choose and play its move,
     * clear the redo stack, and end the turn.
     */
    method RunAi()
      requires board.Valid() && board.activePlayer == board.p2
      modifies this`winner, board`activePlayer, board`history, board`redoStack, board.grid, board.p2
      decreases 1
      ensures board.Valid()
      ensures board.GetSnapshot() == AiResult(old(board.GetSnapshot()))
      ensures board.history == old(board.history) + [old(board.Current())]
      ensures board.redoStack == []
      ensures winner == Verdict(board.p1.pos.row, board.p2.pos.row, old(winner))
      ensures board.activePlayer == (if winner.None? then board.p1 else board.p2)
    {
      board.SaveSnapshot();
      AiMove(board);
      board.ClearRedo();
      EndTurn();
    }
  }
}
