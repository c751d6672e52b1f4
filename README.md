# Quoridor rules engine, search and undo history in Dafny

This project models the core of a two-player Quoridor game. Each player has a pawn and
ten walls. Player 1 starts at the bottom of a 9 x 9 pawn grid and races to the top row.
Player 2 starts at the top and races to the bottom row. The board is held as a 17 x 17
integer matrix:

- cells with both indices even are pawn cells and hold 0 or a player id (1 or 2);
- every other cell is a wall slot;
- a wall covers three consecutive slots: two endpoints marked 1, and a centre marked with
  the orientation code (1 for horizontal, 2 for vertical).

The model covers:

- **Pawn moves** (`Players`, Player.py). There is one class `Player` whose methods update
  its position and the live grid (`array2<int>`) in place. The methods are the eight
  direction keys, the orthogonal step, the jump over an occupied neighbour, and the
  diagonal sidestep. Each method is proved against a pure target function.
- **Connectivity** (`Paths`). This is the breadth-first search run by
  `has_path_to_goal` and by `_has_path`, modelled as a loop over a queue and a seen set.
  It is proved to answer exactly "the objective row is reachable by search steps". A
  search step needs the slot in between and the next pawn cell to be empty, so the other
  pawn blocks the way.
- **The computer player** (`AIPlayers`, AIPlayer.py), which covers:
  - state simulation on value copies;
  - move generation: pawn steps and jumps in a fixed order, then walls scanned
    intersection by intersection and kept when both paths survive;
  - the stable "pawns first" sort;
  - the heuristic;
  - minimax with alpha-beta pruning, proved equal to plain minimax inside the window
    (fail-soft bounds);
  - the root rule of `ai_move`;
  - the move applied to the live board.
- **The board** (`Boards`, Board.py). A class holding the grid, both players, the active
  player, and the snapshot undo/redo stacks. Undo and redo are proved to be the value
  functions `UndoStep`/`RedoStep`. Undo then redo is proved to give back the state and
  both stacks, and so is redo then undo.
- **The event rules of the window** (`Games`, main.py), which cover:
  - the direction-key protocol: save a snapshot, move, then clear the redo stack or pop
    the snapshot;
  - the two-click wall placement, with its emptiness test, tentative marking, path test
    and rollback;
  - `end_turn`, with win detection and the hand-over;
  - `run_ai`, as a sequential call.

Scores are the datatype `Score = NegInf | Fin(real) | PosInf`, which stands for the
Python program's floats with ±infinity. The board size, the search depth (1) and the wall weight
(1.5) are the constants in `Config`.

These behaviours of the code are kept as written, though a reader might not expect them:

- Move generation for the computer offers only orthogonal steps and jumps. There are no
  diagonal sidesteps.
- The diagonal check never looks at the slot between the mover and its neighbour.
- A rejected wall reports "Blocks Path!" without naming the player who would be cut off.
- The board size is fixed at 9, because Board.py and main.py hard-code row 16.
- When every root value is −∞, `ai_move` plays nothing.

One behaviour is not kept as written. The shape test of the wall clicks (main.py:242)
also accepts two clicks whose middle cell is a pawn cell; the model uses the corrected
test `Games.WallShapeOk`, which also requires the middle cell to be a wall slot (see
"## Findings", and the lines for `Games.Game.HandleClick`, `Games.Game.SecondClick` and
`Games.Game.AttemptWall` under "## Left out").

## Model

| member | source | states |
|---|---|---|
| `Players.MoveMap` | Player.py:17-26 | the definition of the key table: the four orthogonal keys give an axis and a step, the four diagonal keys an x and a y direction, and any other key nothing |
| `Players.RequestTarget` | Player.py:15-31 | the definition of where a key takes the pawn: the orthogonal or diagonal rule of its entry in the key table, or nowhere for an unknown key |
| `Players.OrthogonalTarget` | Player.py:33-52 | the definition of the orthogonal rule: off the board or a filled slot in between gives nothing, an occupied destination defers to the jump, otherwise the destination |
| `Players.JumpTarget` | Player.py:54-66 | the definition of the jump: the cell four away when it is on the board and the slot three away is empty |
| `Players.DiagonalTarget` | Player.py:68-105 | the definition of the diagonal rule: the diagonal cell when it is on the board and the x route or the y route holds |
| `Players.SidestepX` | Player.py:77-90 | the definition of the x route: the column neighbour is taken, its jump is blocked, and the slot from it toward the target is empty |
| `Players.SidestepY` | Player.py:76-100 | the definition of the y route: the row neighbour is taken, its jump is blocked, and the slot from it toward the target is empty |
| `Players.JumpBlocked` | Player.py:82-85 | the definition of the diagonal code's blocked test: the landing cell four away is off the board, or the slot three away (read as 0 off the board) is filled |
| `Players.Player.constructor` | Player.py:5-12 | the player gets its id, objective row, start cell and walls, and the grid gains its id on the start cell with every other cell unchanged |
| `Players.RecognisedKeys` | Player.py:17-26 | exactly the eight direction names are recognised; each orthogonal request has axis 0 or 1 and step ±1, and each diagonal request has directions ±1 |
| `Players.Player.HandleMoveRequest` | Player.py:15-31 | an unknown key, or a move that is not allowed, changes neither grid nor position and returns false; an allowed one moves the pawn to the target (old cell 0, new cell the id) and returns true |
| `Players.Player.CheckOrthogonal` | Player.py:33-52 | the destination two cells away must be on the board and the slot between must be empty; an occupied destination is handled as a jump; otherwise the pawn moves there, or nothing changes |
| `Players.Player.TryJump` | Player.py:54-66 | the pawn lands four cells away when that cell is on the board and the slot three cells away is empty, and otherwise nothing changes |
| `Players.Player.CheckDiagonal` | Player.py:68-105 | the diagonal cell must be on the board and a sidestep route must hold, in which case the pawn moves there; otherwise nothing changes |
| `Players.Player.DiagonalAllowed` | Player.py:74-103 | the result is exactly "the x route holds, or the y route holds", where the y route is tried only after the x route fails |
| `Players.Player.ProbeX` | Player.py:81-90 | the x route's test: a straight jump along the columns is blocked and the slot toward the diagonal cell is empty |
| `Players.Player.ProbeY` | Player.py:92-100 | the y route's test: a straight jump along the rows is blocked and the slot toward the diagonal cell is empty |
| `Players.Player.CellTaken` | Player.py:76-77 | the neighbour test: the cell is on the board and not empty, and a cell off the board counts as empty |
| `Players.Player.UpdatePos` | Player.py:107-110 | the new position is recorded, the old cell becomes 0, the new cell gets the id, and no other cell changes |
| `Players.Player.HasPathToGoal` | Player.py:112-137 | true exactly when the player's objective row is reachable on the given grid by search steps; the grid is not modified |
| `Players.DiagonalIffJumpBlocked` | Player.py:68-105 | a diagonal cell is reached exactly when it is on the board and, along one axis, the opponent is the neighbour, the straight jump over it fails, and the slot from the opponent toward the target is empty; the landing cell is the diagonal cell |
| `Players.JumpBlockedIff` | Player.py:85-86 | the diagonal code's "jump blocked" test agrees exactly with a failed `_try_jump` on the same axis |
| `Players.SidestepXIff` | Player.py:81-90 | on a clean board the x route holds exactly when the opponent is the column neighbour, its jump fails, and the slot toward the target is empty |
| `Players.SidestepYIff` | Player.py:92-100 | on a clean board the y route holds exactly when the opponent is the row neighbour, its jump fails, and the slot toward the target is empty |
| `Players.TargetGeometry` | Player.py:15-105 | every accepted target is on the board and differs from the start. It is a pawn cell when the start is one. It lies 2 or 4 matrix cells away along a row or a column (a step or a jump), or 2 cells away on both axes (a diagonal) |
| `Players.TargetAvoidsPawns` | Player.py:15-105 | on a clean board an accepted target is a pawn cell on the board that is neither the mover's nor the opponent's cell |
| `Players.OrthogonalAvoidsPawns` | Player.py:33-66 | the same for orthogonal steps and jumps |
| `Players.DiagonalAvoidsPawns` | Player.py:68-105 | the same for diagonal sidesteps |
| `Players.MovePreservesClean` | Player.py:107-110 | after an accepted key move, each player's id stands on exactly its own pawn cell and every other pawn cell is empty |
| `Players.MovedKeepsClean` | Player.py:107-110 | moving a pawn to an empty pawn cell keeps that pawn-cell invariant |
| `GridState.SetCell` | Player.py:12 | the grid with one cell overwritten, still 17 x 17 |
| `GridState.Moved` | Player.py:107-110 | the grid after a pawn leaves one cell for another: the old cell cleared, then the id written |
| `GridState.PlaceWall` | AIPlayer.py:76-79 | the grid after a wall is written: 1, the centre code, 1, in that order |
| `GridState.SetCellCells` | Player.py:12 | writing one cell changes that cell and no other |
| `GridState.MovedCells` | Player.py:108-110 | after a move the id is on the new cell, the old cell is 0, and every other cell is unchanged |
| `GridState.PlaceWallCells` | AIPlayer.py:76-79 | after a wall is written the endpoints hold 1, the centre holds the code, and every other cell is unchanged |
| `GridState.WallKeepsClean` | main.py:249 | walls written on wall slots keep the pawn-cell invariant |
| `GridState.GridOf` | Board.py:32 | the value copy of the live matrix agrees with it cell by cell |
| `Paths.HasPath` | AIPlayer.py:159-174 | the breadth-first search returns true exactly when a walk of search steps leads from the start to the objective row |
| `Paths.Expand` | AIPlayer.py:166-173 | one dequeued cell: every open neighbour ends up seen or queued, the seen set only grows and holds only board cells, and every seen cell has a walk from the start |
| `Paths.ClosedSetBlocks` | AIPlayer.py:174 | a set of seen cells closed under search steps and missing the objective row proves that row unreachable |
| `Paths.ReachableFromGoalRow` | Player.py:123-126 | a start on the objective row is reachable at once, whatever the grid holds |
| `Paths.ReachableSameZeros` | main.py:255 | grids with the same empty cells have the same reachability |
| `AIPlayers.PawnStep` | AIPlayer.py:125-139 | the definition of one direction of the generator: on the board with an empty slot, the opponent's cell turns into a jump over it when the far cell is on the board and its slot empty (and into nothing otherwise), and any other cell is taken as is without looking at it |
| `AIPlayers.PawnCandidate` | AIPlayer.py:123-139 | the definition of the k-th direction's candidate, in the order up, down, left, right |
| `AIPlayers.PawnMovesUpTo` | AIPlayer.py:123-139 | the candidates of the first k directions in order, all of them pawn moves on the board |
| `AIPlayers.PawnMoves` | AIPlayer.py:116-139 | the pawn part of the generated list for the side to move, all of them pawn moves on the board |
| `AIPlayers.WallAllowed` | AIPlayer.py:149-154 | the definition of the wall test: three empty cells, and both players reach their rows on the copy marked with 1 |
| `AIPlayers.Accepted` | AIPlayer.py:148-155 | the set of walls that pass the wall test |
| `AIPlayers.WallsBefore` | AIPlayer.py:142-155 | the accepted walls scanned before intersection (i, j), horizontal before vertical, all of them wall moves on the board |
| `AIPlayers.AllWalls` | AIPlayer.py:141-155 | every accepted wall in scan order |
| `AIPlayers.Moves` | AIPlayer.py:109-157 | the generated list: the pawn moves, then the walls when the mover has any left |
| `AIPlayers.Pawns` | AIPlayer.py:48 | the pawn moves of a list, in order |
| `AIPlayers.Walls` | AIPlayer.py:48 | the walls of a list, in order |
| `AIPlayers.Minimax` | AIPlayer.py:37-67 | the definition of the unpruned value: −∞ when player 1 is on row 0, else +∞ when player 2 is on row 16, else the heuristic at depth 0, else the search over the moves |
| `AIPlayers.Search` | AIPlayer.py:46-67 | the definition of the search below a node: the maximum (or minimum) child value over the sorted generated moves |
| `AIPlayers.Children` | AIPlayer.py:52-54 | one value per move: the child's minimax value one level deeper with the other side to move |
| `AIPlayers.Extreme` | AIPlayer.py:51-55 | the running maximum from −∞ (or minimum from +∞) of the first n values |
| `AIPlayers.RootValue` | AIPlayer.py:28-29 | the definition of a root move's value: its simulated child searched at the full depth with player 1 to move |
| `AIPlayers.RootValues` | AIPlayer.py:27-29 | the root value of each move, one per move |
| `AIPlayers.Best` | AIPlayer.py:24-32 | the running best of the first n values and its index, −1 when none beats −∞ |
| `AIPlayers.RootChoice` | AIPlayer.py:13-35 | the definition of the move `ai_move` picks: by `ChooseIndex` over the generated moves and their root values, or none |
| `AIPlayers.AiResult` | AIPlayer.py:13-35 | the definition of the state `ai_move` leaves: the chosen move simulated for player 2, or the unchanged state |
| `AIPlayers.SimulateMove` | AIPlayer.py:82-107 | a pawn move gives the mover the destination with the same walls and moves its id on the grid copy; a wall spends one wall and writes 1, code, 1; the other side is untouched |
| `AIPlayers.Heuristic` | AIPlayer.py:176-186 | the evaluation at depth 0 is always a finite score |
| `AIPlayers.HeuristicOrder` | AIPlayer.py:176-186 | the evaluation never drops when player 1 is farther from row 0, player 2 nearer to row 16, or player 2 holds more walls, and each extra wall adds at least 1.5 |
| `AIPlayers.GetMoves` | AIPlayer.py:109-157 | the generated list is the move list `Moves` of the side to move: pawn moves, then walls while the mover has any |
| `AIPlayers.PawnPass` | AIPlayer.py:123-139 | the pawn part of the generated list in the order up, down, left, right |
| `AIPlayers.PawnsGenerated` | AIPlayer.py:123-139 | a pawn move is generated exactly when one of the four directions yields its destination |
| `AIPlayers.PawnMovesExact` | AIPlayer.py:123-139 | membership in the first k pawn candidates is exactly "one of the first k directions yields it" |
| `AIPlayers.CandidateIsOrthogonal` | AIPlayer.py:125-139 | on a clean state, each direction's candidate is exactly the live orthogonal rule (`_check_orthogonal` with the jump); the generator has no diagonals |
| `AIPlayers.RowStepIsOrthogonal` | AIPlayer.py:125-139 | the same agreement for the two row directions |
| `AIPlayers.ColStepIsOrthogonal` | AIPlayer.py:125-139 | the same agreement for the two column directions |
| `AIPlayers.WallScan` | AIPlayer.py:141-155 | the wall part of the generated list is every accepted wall in scan order |
| `AIPlayers.ScanRow` | AIPlayer.py:143-155 | one row of intersections adds its accepted horizontal and vertical walls in column order |
| `AIPlayers.CheckWall` | AIPlayer.py:149-155 | a wall is kept exactly when its three slots are empty and, after marking, both players still reach their rows |
| `AIPlayers.WallsGenerated` | AIPlayer.py:141-155 | a wall is generated exactly when the mover has walls left, the wall is centred on an intersection, and it is allowed |
| `AIPlayers.WallsBeforeExact` | AIPlayer.py:143-155 | a wall is in the scan prefix exactly when it has wall shape, is scanned earlier, and is accepted |
| `AIPlayers.CentredOn` | AIPlayer.py:144-147 | the walls centred on an intersection are exactly its horizontal and its vertical wall |
| `AIPlayers.GeneratedWallKeepsPaths` | AIPlayer.py:148-155 | playing a generated wall leaves both players a path to their rows |
| `AIPlayers.GeneratedKeepsClean` | AIPlayer.py:82-157 | simulating any generated move keeps the pawn-cell invariant and a non-negative wall count |
| `AIPlayers.WallShapeOffPawns` | AIPlayer.py:144-147 | generated walls touch wall slots only |
| `AIPlayers.PawnsFirst` | AIPlayer.py:48 | the sorted list has every pawn move before every wall |
| `AIPlayers.SortPermutes` | AIPlayer.py:48 | the sort is a permutation |
| `AIPlayers.PartitionedSort` | AIPlayer.py:48 | the stable sort leaves a list that is already pawns then walls unchanged, order kept |
| `AIPlayers.AllWallsSort` | AIPlayer.py:48 | a list of walls alone is left as it is |
| `AIPlayers.SortKeepsGenerated` | AIPlayer.py:48 | the sort leaves the generated list unchanged |
| `AIPlayers.AlphaBeta` | AIPlayer.py:37-67 | the pruned search meets plain minimax inside any window: equal when the true value is inside, at most alpha below, at least beta above. Plain minimax checks the terminal rows before the depth test and searches the sorted moves |
| `AIPlayers.MaxLoop` | AIPlayer.py:50-58 | the maximiser's loop with its alpha update and cutoff meets the maximum child value under the same bounds |
| `AIPlayers.MinLoop` | AIPlayer.py:59-67 | the minimiser's loop with its beta update and cutoff meets the minimum child value under the same bounds |
| `AIPlayers.MaxChild` | AIPlayer.py:53-57 | one maximiser iteration keeps the loop's bound, and a cutoff already bounds the whole list |
| `AIPlayers.MinChild` | AIPlayer.py:62-66 | one minimiser iteration keeps the loop's bound, and a cutoff already bounds the whole list |
| `AIPlayers.MaxIteration` | AIPlayer.py:55-57 | the bound step of one maximiser iteration, on values |
| `AIPlayers.MinIteration` | AIPlayer.py:64-66 | the bound step of one minimiser iteration, on values |
| `AIPlayers.MaxStep` | AIPlayer.py:55-56 | taking the max of a bounded prefix and a bounded child gives a bounded prefix |
| `AIPlayers.MinStep` | AIPlayer.py:64-65 | the same for min |
| `AIPlayers.MaxCutoff` | AIPlayer.py:57 | once beta <= alpha the current value already bounds the whole child list |
| `AIPlayers.MinCutoff` | AIPlayer.py:66 | the same for the minimiser |
| `AIPlayers.ExtremeMonotone` | AIPlayer.py:50-67 | the running maximum only rises and the running minimum only falls |
| `AIPlayers.FullWindow` | AIPlayer.py:29 | with the root window (−∞, +∞) the pruned value is the minimax value |
| `AIPlayers.Max` | AIPlayer.py:55 | the maximum is at least both arguments and is one of them |
| `AIPlayers.Min` | AIPlayer.py:64 | the minimum is at most both arguments and is one of them |
| `AIPlayers.FirstWinning` | AIPlayer.py:19-22 | the result is the first pawn move onto row 16, or −1 when there is none |
| `AIPlayers.WinningScan` | AIPlayer.py:19-22 | the first loop finds exactly that index |
| `AIPlayers.BestScan` | AIPlayer.py:24-35 | the second loop picks the move of the running best over the root values, or none |
| `AIPlayers.RootScore` | AIPlayer.py:28-29 | one full-window search of a simulated move yields exactly its root value |
| `AIPlayers.RootValuesAt` | AIPlayer.py:27-29 | entry k of the root values is the minimax value of move k's child with the opponent to move |
| `AIPlayers.BestIsFirstMaximum` | AIPlayer.py:24-32 | the running best is the greatest value, is held by its index, beats every earlier value strictly and beats −∞; index −1 means every value is −∞ |
| `AIPlayers.RootRule` | AIPlayer.py:13-35 | the first winning pawn move is chosen when one exists; otherwise the chosen move has the greatest value, strictly more than every move before it and more than −∞; nothing is chosen exactly when no move wins and every value is −∞ |
| `AIPlayers.ChooseIndex` | AIPlayer.py:13-35 | the choice is an index of the move list or −1 |
| `AIPlayers.AiMove` | AIPlayer.py:13-35 | the board afterwards is the chosen move simulated for player 2 on the snapshot, or the unchanged board; the pawn-cell invariant is kept |
| `AIPlayers.PlayChosen` | AIPlayer.py:20-35 | playing a generated move on the live board has exactly the simulated effect and keeps the board invariant |
| `AIPlayers.ApplyMoveReal` | AIPlayer.py:69-80 | a pawn move clears the old cell, sets the position and writes the id; a wall writes 1, the code, 1 and spends a wall |
| `Boards.Board.constructor` | Board.py:6-27 | a 17 x 17 board with player 1 on (16, 8) and player 2 on (0, 8), ten walls each, empty stacks, player 1 to move, and the board invariant |
| `Boards.Board.GetSnapshot` | Board.py:91-96 | both [position, walls] pairs and a value copy of the grid that agrees with the matrix cell by cell |
| `Boards.Board.SaveSnapshot` | Board.py:29-39 | exactly one entry, the current state, is appended to the history |
| `Boards.Board.ClearRedo` | Board.py:41-43 | the redo stack is emptied and nothing else changes |
| `Boards.Board.Undo` | Board.py:45-60 | it is refused on an empty history; otherwise the current state goes onto the redo stack and the top of the history is restored into a fresh grid that is not aliased |
| `Boards.Board.Redo` | Board.py:62-77 | the same with the stacks exchanged |
| `Boards.Board.ApplyState` | Board.py:79-89 | the restored state equals the snapshot, in a freshly allocated grid, with the active player chosen by the recorded id |
| `Boards.UndoStep` | Board.py:45-60 | the definition of undo on values: refused on an empty history, otherwise the current state pushed on the redo stack and the top of the history restored |
| `Boards.RedoStep` | Board.py:62-77 | the definition of redo on values: the mirror image with the stacks exchanged |
| `Boards.StackSizes` | Board.py:45-77 | a successful undo moves exactly one entry from the history to the redo stack, a successful redo moves one back, and each fails exactly on an empty stack |
| `Boards.UndoThenRedo` | Board.py:45-77 | undo then redo restores the state and both stacks |
| `Boards.RedoThenUndo` | Board.py:45-77 | redo then undo restores the state and both stacks |
| `Boards.EmptyGrid` | Board.py:11 | the starting matrix is 17 x 17 and all zero |
| `Games.Game.constructor` | main.py:19-40 | a fresh board in the chosen mode, no wall anchor, no winner, no message |
| `Games.Game.HandleKey` | main.py:210-227 | nothing changes once there is a winner, while the computer is to move, or for an unknown key; the board invariant is kept |
| `Games.Game.KeyTurn` | main.py:220-227 | a key the active player cannot move by leaves winner, turn, state and both stacks unchanged |
| `Games.Game.KeyMove` | main.py:220-227 | an accepted move has moved the pawn, added one snapshot to the history and emptied the redo stack; a rejected one leaves the grid, position and both stacks as they were |
| `Games.Game.HandleClick` | main.py:229-270 | a click that does not lead to a wall attempt changes no game state; a first wall click (with walls left) sets the anchor, a second one clears it, and a click on a pawn cell clears it; a bad second click reports "Invalid Shape" |
| `Games.Game.SecondClick` | main.py:241-267 | a shape the rules reject reports "Invalid Shape" and changes nothing else |
| `Games.Game.AttemptWall` | main.py:243-265 | "Occupied" exactly when one of the three cells is taken, "Blocks Path" exactly when they are free but the marked grid cuts a player off, and "Placed" otherwise. A placed wall writes 1, the code, 1, spends a wall, adds one snapshot and empties the redo stack, and with a nonzero centre code both players still have a path on the committed grid. A rejection leaves grid, walls and both stacks unchanged |
| `Games.CommittedWallKeepsPaths` | main.py:251-255 | writing a nonzero centre code over the tentative marking changes no player's reachability, so the paths tested at main.py:251-253 survive the write at main.py:255 |
| `Games.Game.WallOnSaved` | main.py:249-262 | with a snapshot saved and the cells free, the wall is placed exactly when both paths survive; otherwise the marking is rolled back and the snapshot popped |
| `Games.Game.TentativeWall` | main.py:249-262 | the tentative marking is tested for both paths; success leaves the wall with its centre code and one wall fewer, and failure restores the grid |
| `Games.Game.CellsFree` | main.py:248 | true exactly when all three cells hold 0 |
| `Games.Game.BothPaths` | main.py:251-253 | true exactly when both players reach their objective rows on the current grid |
| `Games.Game.PopSnapshot` | main.py:227 | the history loses exactly its top entry |
| `Games.FillCells` | main.py:249 | writing a value into a list of cells gives the grid `Fill` describes |
| `Games.WriteCell` | main.py:255 | one write to the live grid is `SetCell` on its value |
| `Games.FillThree` | main.py:249 | filling the three wall cells is three single writes in order |
| `Games.FillClearsWall` | main.py:260 | writing 0 back over a tentative wall on free cells restores the grid |
| `Games.CentreOverMarked` | main.py:255 | writing the centre code over the tentative marking gives the placed wall |
| `Games.CentreCode` | main.py:255 | the code is HORIZONTAL exactly when the clicks share a row, and VERTICAL otherwise |
| `Games.WallSlot` | main.py:235 | the definition of a clicked wall slot: an odd column or an odd row |
| `Games.ShapeAsWritten` | main.py:242 | the definition of the shape test as written: two apart along a row with the same row, or two apart along a column with the same column |
| `Games.WallShapeOk` | main.py:242-243 | the corrected shape test: the written one, with the middle cell (main.py:243) a wall slot |
| `Games.Centre` | main.py:243 | the middle cell of the two clicks, in (row, column) order |
| `Games.Fill` | main.py:249 | the grid with the value written into each listed cell in turn |
| `Games.WallSlotOffPawns` | main.py:235 | a clicked wall slot is exactly a cell off the pawn grid |
| `Games.WallShapeOkIff` | main.py:242 | the corrected shape test is the written one plus an odd coordinate on the wall's own axis |
| `Games.AsWrittenAdmitsPawnCentre` | main.py:242-249 | the written shape test accepts (x=1, y=0) then (x=3, y=0), whose centre (0, 2) is a pawn cell; placing that wall breaks the pawn-cell invariant |
| `Games.CorrectedWallKeepsClean` | main.py:242-249 | with the corrected test the three cells are distinct and on the board, and the wall keeps the pawn-cell invariant |
| `Games.Verdict` | main.py:273-277 | player 1 on row 0 wins; otherwise player 2 on row 16 wins; otherwise the verdict carried in stands |
| `Games.Game.EndTurn` | main.py:272-285 | a win is recorded and the turn stays put. Without a win, the turn passes; against the computer, player 1's turn is followed by the computer's full move, with its snapshot and the redo stack cleared. Without a computer turn nothing else changes |
| `Games.Game.RunAi` | main.py:287-292 | one snapshot, the computer's chosen move, an emptied redo stack, then `end_turn`'s verdict and hand-over |

## Left out

- Rendering, fonts, the menu, the main loop and the pixel-to-cell mapping (`get_grid_from_mouse`) are left out. They are presentation and I/O; a click enters the model as a board coordinate.
- Threading and the `ai_thinking` flag are left out. `run_ai` is modelled as a sequential call made from `end_turn`, so key and click events that arrive while the computer thinks are not modelled.
- The Ctrl+Z and Ctrl+Y handlers (main.py:201-208) are not modelled as events; `Boards.Board.Undo` and `Boards.Board.Redo` model the operations they call. The handlers' double undo or redo against the computer is not modelled.
- The "z" key also means "bottomLeft", so Ctrl+Z falls through into the move branch as a diagonal move. That double action is not modelled.
- `show_err`'s timer and the dictionary of colours in Config.py are presentation. The message text is kept in `errMsg` for the invalid-shape branch only.
- The `print` on an unknown key at Player.py:30 is output and is left out.
- Floating point is not modelled: scores are `NegInf`, `Fin(real)` or `PosInf`, and 1.5 is exact as a real.
- The move tuples, tagged TYPE_PAWN or TYPE_WALL, become the `Move` datatype. The state lists become the `View` and `Side` datatypes.
- `has_path_to_goal` and `_has_path` are the same algorithm, so both use the single method `Paths.HasPath`.
- The player's `board_ref` back pointer is replaced by passing the grid array.
- The subclass AIPlayer is not a class of its own: `AIPlayers.AiMove` takes the board and acts on `board.p2`, which is a `Player`.
- The search depth (1) and the wall weight (1.5) are constants, not constructor parameters.
- The board size is fixed at 9, since Board.py and main.py hard-code row 16.
- The winner is `Some(1)` or `Some(2)` instead of the strings "PLAYER 1" and "PLAYER 2".
- The "one id cell per player" invariant is stated on pawn cells only, because wall slots also hold 1 and 2 (the wall marker and the centre codes).
- Games.Game.HandleKey: states only the cases where nothing changes; what an accepted key does is stated by `Games.Game.KeyMove` and `Games.Game.EndTurn`.
- Games.Game.KeyTurn: states only the rejected case; the accepted case is `Games.Game.KeyMove` followed by `Games.Game.EndTurn`.
- Games.Game.SecondClick: tests the corrected shape `Games.WallShapeOk`, not the test main.py:242 runs. For anchor (x=1, y=0) then click (x=3, y=0) main.py saves a snapshot, tests cells (0, 1), (0, 2), (0, 3) and, when both paths survive, writes HORIZONTAL into pawn cell (0, 2), spends a wall and ends the turn; the model reports "Invalid Shape" and changes nothing. Its contract also states only the invalid-shape branch; the valid-shape branch is `Games.Game.AttemptWall` followed by `Games.Game.EndTurn`.
- Games.Game.HandleClick: the same corrected shape test, through `Games.Game.SecondClick`, so the example above is refused where main.py attempts the wall. For a valid second click it states the anchor reset but not the wall's effect, which `Games.Game.AttemptWall` states.
- Games.Game.AttemptWall: with `Games.Game.WallOnSaved` and `Games.Game.TentativeWall`, requires the three cells to be wall slots. That holds under the corrected shape test only; the as-written attempt on a pawn-cell centre is modelled by `Games.AsWrittenAdmitsPawnCentre` instead.
- AIPlayers.Heuristic: its own contract says only that the score is finite; the ordering it promises is `AIPlayers.HeuristicOrder`.

## Findings

| source | as written | input that shows it | evidently intended | confidence | as-written member | corrected member |
|---|---|---|---|---|---|---|
| main.py:242 | the shape test checks only that the two clicks are two apart along a row or a column, so the centre may be a pawn cell | anchor (x=1, y=0), then click (x=3, y=0): both are wall slots, and the centre (row 0, column 2) is a pawn cell that gets a wall code | the centre of a wall is a wall slot (an intersection or an edge slot) | not executed | `Games.AsWrittenAdmitsPawnCentre` | `Games.CorrectedWallKeepsClean` (with `Games.WallShapeOk`, which the click handler uses) |
