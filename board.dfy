/**
 * The live board (Board.py): the grid matrix, both players, the active player, and the
 * snapshot-based undo/redo history.
 */
module Boards {
  import opened Config
  import opened GridState
  import opened Players

  /** A history entry: what save_snapshot records, by value. */
  datatype Snapshot = Snapshot(grid: Grid, p1Pos: Pos, p1Walls: int, p2Pos: Pos, p2Walls: int, activeId: int)

  /** A snapshot of a state the game can be in. */
  ghost predicate SnapshotOk(s: Snapshot) {
    && Clean(s.grid, s.p1Pos, s.p2Pos)
    && 0 <= s.p1Walls <= START_WALLS && 0 <= s.p2Walls <= START_WALLS
    && (s.activeId == 1 || s.activeId == 2)
  }

  /** The board's history as a value: the current state with the undo and redo stacks
      (the last element of each is its top). */
  datatype Timeline = Timeline(current: Snapshot, history: seq<Snapshot>, redo: seq<Snapshot>)

  /** undo: refuse on an empty history; otherwise push the current state onto the redo stack
      and restore the state popped from the history. */
  function UndoStep(t: Timeline): (bool, Timeline) {
    if t.history == [] then (false, t)
    else (true, Timeline(t.history[|t.history| - 1], t.history[..|t.history| - 1], t.redo + [t.current]))
  }

  /** redo: the mirror image of undo, with the two stacks exchanged. */
  function RedoStep(t: Timeline): (bool, Timeline) {
    if t.redo == [] then (false, t)
    else (true, Timeline(t.redo[|t.redo| - 1], t.history + [t.current], t.redo[..|t.redo| - 1]))
  }

  /** An undo that restores something moves exactly one entry from the history to the redo
      stack; redo does the reverse. */
  lemma StackSizes(t: Timeline)
    ensures UndoStep(t).0 <==> t.history != []
    ensures UndoStep(t).0 ==> |UndoStep(t).1.history| == |t.history| - 1 && |UndoStep(t).1.redo| == |t.redo| + 1
    ensures RedoStep(t).0 <==> t.redo != []
    ensures RedoStep(t).0 ==> |RedoStep(t).1.redo| == |t.redo| - 1 && |RedoStep(t).1.history| == |t.history| + 1
  {
  }

  /** Undo followed by redo gives back the state, and both stacks, from before the undo. */
  lemma UndoThenRedo(t: Timeline)
    requires t.history != []
    ensures RedoStep(UndoStep(t).1) == (true, t)
  {
    var n := |t.history|;
    assert t.history[..n - 1] + [t.history[n - 1]] == t.history;
  }

  /** Redo followed by undo gives back the state, and both stacks, from before the redo. */
  lemma RedoThenUndo(t: Timeline)
    requires t.redo != []
    ensures UndoStep(RedoStep(t).1) == (true, t)
  {
    var n := |t.redo|;
    assert t.redo[..n - 1] + [t.redo[n - 1]] == t.redo;
  }

  /** The all-zero grid the board starts from. */
  function EmptyGrid(): (g: Grid)
    ensures WellFormed(g) && forall q | InBounds(q) :: At(g, q) == 0
  {
    seq(DIM, i => seq(DIM, j => 0))
  }

  class Board {
    var grid: array2<int>
    const p1: Player
    const p2: Player
    const vsAi: bool
    var activePlayer: Player
    var history: seq<Snapshot>
    var redoStack: seq<Snapshot>

    /** The board invariant: two distinct players with their fixed ids and objective rows,
        an active player that is one of them, wall counts in range, the pawn-cell invariant,
        and well-formed entries on both stacks. */
    ghost predicate Valid()
      reads this, p1, p2, grid
    {
      && Fits(grid)
      && p1 != p2 && p1.id == 1 && p2.id == 2
      && p1.objectiveRow == P1_GOAL && p2.objectiveRow == P2_GOAL
      && (activePlayer == p1 || activePlayer == p2)
      && 0 <= p1.wallsLeft <= START_WALLS && 0 <= p2.wallsLeft <= START_WALLS
      && Clean(GridOf(grid), p1.pos, p2.pos)
      && (forall i | 0 <= i < |history| :: SnapshotOk(history[i]))
      && (forall i | 0 <= i < |redoStack| :: SnapshotOk(redoStack[i]))
    }

    /** The record save_snapshot, undo and redo take of the current state. */
    function Current(): Snapshot
      reads this, p1, p2, grid
      requires Fits(grid)
    {
      Snapshot(GridOf(grid), p1.pos, p1.wallsLeft, p2.pos, p2.wallsLeft, activePlayer.id)
    }

    ghost function Timeline_(): Timeline
      reads this, p1, p2, grid
      requires Fits(grid)
    {
      Timeline(Current(), history, redoStack)
    }

    /** get_snapshot: independent copies of both [position, walls] pairs and of the grid. */
    function GetSnapshot(): (v: View)
      reads this, p1, p2, grid
      requires Fits(grid)
      ensures WellFormed(v.grid)
      ensures InBounds(p1.pos) && InBounds(p2.pos) ==> ViewOk(v)
      ensures v.p1 == Side(p1.pos, p1.wallsLeft) && v.p2 == Side(p2.pos, p2.wallsLeft)
      ensures forall q | InBounds(q) :: At(v.grid, q) == grid[q.row, q.col]
    {
      View(Side(p1.pos, p1.wallsLeft), Side(p2.pos, p2.wallsLeft), GridOf(grid))
    }

    /** A board of side 17 with both pawns on their starting cells, ten walls each, empty
        stacks, and player 1 to move. */
    constructor (vsAiMode: bool)
      ensures Valid() && fresh(grid) && fresh(p1) && fresh(p2)
      ensures vsAi == vsAiMode && activePlayer == p1 && history == [] && redoStack == []
      ensures p1.pos == Pos(16, 8) && p2.pos == Pos(0, 8)
      ensures p1.wallsLeft == START_WALLS && p2.wallsLeft == START_WALLS
      ensures GridOf(grid) == SetCell(SetCell(EmptyGrid(), Pos(16, 8), 1), Pos(0, 8), 2)
    {
      var g := new int[DIM, DIM]((i, j) => 0);
      GridsEqual(GridOf(g), EmptyGrid());
      var a := new Player(1, g, Pos(16, 8), P1_GOAL);
      var b := new Player(2, g, Pos(0, 8), DIM - 1);
      grid := g;
      p1 := a;
      p2 := b;
      vsAi := vsAiMode;
      activePlayer := a;
      history := [];
      redoStack := [];
      new;
      ghost var h := GridOf(grid);
      forall q | InBounds(q) && IsPawnCell(q)
        ensures At(h, q) == (if q == p1.pos then 1 else if q == p2.pos then 2 else 0)
      {
      }
    }

    /** Appends exactly one entry, the current state, to the history. */
    method SaveSnapshot()
      requires Valid()
      modifies this`history
      ensures Valid()
      ensures history == old(history) + [Current()]
    {
      history := history + [Current()];
    }

    /** Empties the redo stack and touches nothing else. */
    method ClearRedo()
      requires Valid()
      modifies this`redoStack
      ensures Valid()
      ensures redoStack == []
    {
      redoStack := [];
    }

    method Undo() returns (ok: bool)
      requires Valid()
      modifies this, p1, p2
      ensures Valid()
      ensures (ok, Timeline_()) == UndoStep(old(Timeline_()))
      ensures if ok then fresh(grid) else grid == old(grid)
    {
      if history == [] {
        return false;
      }
      var currentState := Current();
      redoStack := redoStack + [currentState];
      var prev := history[|history| - 1];
      history := history[..|history| - 1];
      ApplyState(prev);
      return true;
    }

    method Redo() returns (ok: bool)
      requires Valid()
      modifies this, p1, p2
      ensures Valid()
      ensures (ok, Timeline_()) == RedoStep(old(Timeline_()))
      ensures if ok then fresh(grid) else grid == old(grid)
    {
      if redoStack == [] {
        return false;
      }
      var currentState := Current();
      history := history + [currentState];
      var future := redoStack[|redoStack| - 1];
      redoStack := redoStack[..|redoStack| - 1];
      ApplyState(future);
      return true;
    }

    /** Restores a snapshot into a freshly allocated grid, so that the stored entry is
        copied and never aliased; the active player is chosen by the recorded id. */
    method ApplyState(state: Snapshot)
      requires Fits(grid) && p1 != p2 && p1.id == 1 && p2.id == 2
      requires SnapshotOk(state)
      modifies this`grid, this`activePlayer, p1, p2
      ensures fresh(grid) && Fits(grid)
      ensures Current() == state
      ensures activePlayer == (if state.activeId == 1 then p1 else p2)
    {
      var g := state.grid;
      grid := new int[DIM, DIM]((i, j) requires 0 <= i < DIM && 0 <= j < DIM => g[i][j]);
      GridsEqual(GridOf(grid), g);
      p1.pos := state.p1Pos;
      p1.wallsLeft := state.p1Walls;
      p2.pos := state.p2Pos;
      p2.wallsLeft := state.p2Walls;
      if state.activeId == 1 {
        activePlayer := p1;
      } else {
        activePlayer := p2;
      }
    }
  }
}
