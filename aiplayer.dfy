/**
 * The computer player (AIPlayer.py): move generation on a value copy of the board,
 * virtual moves, the static evaluation, depth-limited minimax with alpha-beta pruning,
 * and the root rule that picks a move and plays it on the live board.
 *
 * AIPlayer.py's AIPlayer is the Player subclass the board installs as player 2; here its
 * methods act on board.p2. Its search depth and wall weight are the defaults the board
 * never overrides (SEARCH_DEPTH and WALL_WEIGHT). The maximising side is player 2.
 */
module AIPlayers {
  import opened Config
  import opened Wrappers
  import opened GridState
  import opened Paths
  import opened Players
  import opened Boards

  /** A candidate move: a pawn destination, or the three cells of a wall. */
  datatype Move = PawnMove(dest: Pos) | WallMove(c1: Pos, c2: Pos, c3: Pos)

  predicate MoveFits(m: Move) {
    match m
    case PawnMove(d) => InBounds(d)
    case WallMove(c1, c2, c3) => InBounds(c1) && InBounds(c2) && InBounds(c3)
  }

  predicate AllFit(ms: seq<Move>) {
    forall i | 0 <= i < |ms| :: MoveFits(ms[i])
  }

  /* ---------------- Scores ---------------- */

  /** A search value: a finite evaluation or one of the two infinities. */
  datatype Score = NegInf | Fin(v: real) | PosInf

  predicate Le(a: Score, b: Score) {
    a.NegInf? || b.PosInf? || (a.Fin? && b.Fin? && a.v <= b.v)
  }

  predicate Lt(a: Score, b: Score) {
    !Le(b, a)
  }

  /** The larger of two values; the first on a tie, as with max(a, b). */
  function Max(a: Score, b: Score): (r: Score)
    ensures Le(a, r) && Le(b, r) && (r == a || r == b)
  {
    if Le(b, a) then a else b
  }

  /** The smaller of two values; the first on a tie, as with min(a, b). */
  function Min(a: Score, b: Score): (r: Score)
    ensures Le(r, a) && Le(r, b) && (r == a || r == b)
  {
    if Le(a, b) then a else b
  }

  /* ---------------- Virtual states ---------------- */

  /** The side to move: player 2 when maximising, player 1 otherwise. */
  function Mover(s: View, isMax: bool): Side {
    if isMax then s.p2 else s.p1
  }

  function Opponent(s: View, isMax: bool): Side {
    if isMax then s.p1 else s.p2
  }

  /** The id a simulated pawn move writes. */
  function MoverId(isMax: bool): int {
    if isMax then 2 else 1
  }

  function WithMover(s: View, isMax: bool, side: Side, g: Grid): View {
    if isMax then View(s.p1, side, g) else View(side, s.p2, g)
  }

  /** Both pawns stand where the records say and no other pawn cell is taken. */
  ghost predicate CleanView(s: View) {
    Clean(s.grid, s.p1.pos, s.p2.pos)
  }

  /**
   * _simulate_move: a fresh state (the input is a value and stays as it was). A pawn move
   * empties the mover's cell, writes its id on the destination and moves only its record;
   * a wall marks its endpoints 1 and its centre HORIZONTAL exactly when c1 and c2 share a
   * row (VERTICAL otherwise), and takes one wall from the mover alone.
   */
  function SimulateMove(s: View, m: Move, isMax: bool): (r: View)
    requires ViewOk(s) && MoveFits(m)
    ensures ViewOk(r)
    ensures Opponent(r, isMax) == Opponent(s, isMax)
    ensures m.PawnMove? ==>
      && Mover(r, isMax) == Side(m.dest, Mover(s, isMax).walls)
      && r.grid == Moved(s.grid, Mover(s, isMax).pos, m.dest, MoverId(isMax))
    ensures m.WallMove? ==> Mover(r, isMax) == Side(Mover(s, isMax).pos, Mover(s, isMax).walls - 1)
    ensures m.WallMove? ==>
      r.grid == PlaceWall(s.grid, m.c1, m.c2, m.c3, if m.c1.row == m.c2.row then HORIZONTAL else VERTICAL)
  {
    var me := Mover(s, isMax);
    match m
    case PawnMove(d) =>
      WithMover(s, isMax, Side(d, me.walls), Moved(s.grid, me.pos, d, MoverId(isMax)))
    case WallMove(c1, c2, c3) =>
      var connector := if c1.row == c2.row then HORIZONTAL else VERTICAL;
      WithMover(s, isMax, Side(me.pos, me.walls - 1), PlaceWall(s.grid, c1, c2, c3, connector))
  }

  function Abs(x: int): nat {
    if x < 0 then -x else x
  }

  /** _heuristic: P1's distance to its row, minus P2's distance to its row, plus
      WALL_WEIGHT for each wall P2 still holds. */
  function Heuristic(s: View): (r: Score)
    ensures r.Fin?
  {
    Fin((Abs(s.p1.pos.row - P1_GOAL) - Abs(s.p2.pos.row - P2_GOAL)) as real + s.p2.walls as real * WALL_WEIGHT)
  }

  /** The evaluation favours player 2: it never drops when P1 is farther from row 0, P2
      nearer to row 16, or P2 holds more walls, and each extra wall is worth WALL_WEIGHT. */
  lemma HeuristicOrder(s: View, t: View)
    requires Abs(s.p1.pos.row - P1_GOAL) <= Abs(t.p1.pos.row - P1_GOAL)
    requires Abs(t.p2.pos.row - P2_GOAL) <= Abs(s.p2.pos.row - P2_GOAL)
    requires s.p2.walls <= t.p2.walls
    ensures Le(Heuristic(s), Heuristic(t))
    ensures Heuristic(t).v - Heuristic(s).v >= (t.p2.walls - s.p2.walls) as real * WALL_WEIGHT
  {
  }

  /* ---------------- Move generation ---------------- */

  /** A step of the search table: two cells along one axis, the slot half-way. */
  predicate StepShape(dr: int, dc: int, wr: int, wc: int) {
    dr == 2 * wr && dc == 2 * wc && -1 <= wr <= 1 && -1 <= wc <= 1
  }

  lemma OffsetsShape(k: int)
    requires 0 <= k < 4
    ensures StepShape(Offsets(k).0, Offsets(k).1, Offsets(k).2, Offsets(k).3)
  {
  }

  /**
   * The pawn move _get_moves emits for one step (dr, dc, wr, wc): nothing when the
   * neighbour is off the board or the slot toward it is taken; over the opponent, the
   * landing cell when it is on the board and the slot behind the opponent is empty (else
   * nothing); otherwise the neighbour itself. The neighbour's own cell is not examined.
   */
  function PawnStep(g: Grid, me: Pos, opp: Pos, dr: int, dc: int, wr: int, wc: int): Option<Pos>
    requires WellFormed(g) && InBounds(me) && StepShape(dr, dc, wr, wc)
  {
    var n := Pos(me.row + dr, me.col + dc);
    var slot := Pos(me.row + wr, me.col + wc);
    if !InBounds(n) || !InBounds(slot) || At(g, slot) != 0 then None
    else if n == opp then
      var j := Pos(n.row + dr, n.col + dc);
      if InBounds(j) && At(g, Pos(n.row + wr, n.col + wc)) == 0 then Some(j) else None
    else Some(n)
  }

  /** The pawn move of search step k (up, down, left, right). */
  function PawnCandidate(g: Grid, me: Pos, opp: Pos, k: int): Option<Pos>
    requires WellFormed(g) && InBounds(me) && 0 <= k < 4
  {
    OffsetsShape(k);
    var (dr, dc, wr, wc) := Offsets(k);
    PawnStep(g, me, opp, dr, dc, wr, wc)
  }

  function CandidateList(c: Option<Pos>): seq<Move> {
    match c
    case None => []
    case Some(d) => [PawnMove(d)]
  }

  /** The pawn moves of search steps 0..k-1, in order. */
  function PawnMovesUpTo(g: Grid, me: Pos, opp: Pos, k: int): (r: seq<Move>)
    requires WellFormed(g) && InBounds(me) && 0 <= k <= 4
    ensures forall i | 0 <= i < |r| :: r[i].PawnMove? && MoveFits(r[i])
  {
    if k == 0 then []
    else PawnMovesUpTo(g, me, opp, k - 1) + CandidateList(PawnCandidate(g, me, opp, k - 1))
  }

  /** The pawn moves of the side to move, all four steps. */
  function PawnMoves(s: View, isMax: bool): (r: seq<Move>)
    requires ViewOk(s)
    ensures forall i | 0 <= i < |r| :: r[i].PawnMove? && MoveFits(r[i])
  {
    PawnMovesUpTo(s.grid, Mover(s, isMax).pos, Opponent(s, isMax).pos, 4)
  }

  /** Odd row and column strictly inside the border: where the generator centres walls. */
  predicate Intersection(y: int, x: int) {
    1 <= y < DIM - 1 && 1 <= x < DIM - 1 && y % 2 == 1 && x % 2 == 1
  }

  function Horizontal(y: int, x: int): Move
  {
    WallMove(Pos(y, x - 1), Pos(y, x), Pos(y, x + 1))
  }

  function Vertical(y: int, x: int): Move
  {
    WallMove(Pos(y - 1, x), Pos(y, x), Pos(y + 1, x))
  }

  /** A wall centred on a slot intersection inside the border (odd row and column),
      lying along the row or along the column. */
  predicate WallShape(m: Move) {
    && m.WallMove?
    && Intersection(m.c2.row, m.c2.col)
    && (m == WallMove(Pos(m.c2.row, m.c2.col - 1), m.c2, Pos(m.c2.row, m.c2.col + 1))
     || m == WallMove(Pos(m.c2.row - 1, m.c2.col), m.c2, Pos(m.c2.row + 1, m.c2.col)))
  }

  /** The wall test of _get_moves: its three cells are empty, and on a copy with the three
      cells marked 1 both players can still reach their objective rows. */
  ghost predicate WallAllowed(s: View, m: Move)
    requires ViewOk(s) && m.WallMove? && MoveFits(m)
  {
    && At(s.grid, m.c1) == 0 && At(s.grid, m.c2) == 0 && At(s.grid, m.c3) == 0
    && var t := PlaceWall(s.grid, m.c1, m.c2, m.c3, 1);
       Reachable(t, s.p1.pos, P1_GOAL) && Reachable(t, s.p2.pos, P2_GOAL)
  }

  /** The walls the test accepts on s. */
  ghost function Accepted(s: View): iset<Move> {
    iset m: Move | m.WallMove? && MoveFits(m) && ViewOk(s) && WallAllowed(s, m)
  }

  /** The wall move m when it is among those accepted, or nothing. */
  ghost function Keep(ok: iset<Move>, m: Move): seq<Move> {
    if m in ok then [m] else []
  }

  /**
   * The wall moves the scan emits before wall row i, wall column j (the intersection
   * (2i+1, 2j+1)) when it keeps the walls in ok: every row above, then row i left of
   * column j, each intersection trying its horizontal wall and then its vertical one.
   */
  ghost function WallsBefore(ok: iset<Move>, i: int, j: int): (r: seq<Move>)
    requires 0 <= i < SIZE && 0 <= j < SIZE
    requires i < SIZE - 1 || j == 0
    ensures forall i | 0 <= i < |r| :: r[i].WallMove? && MoveFits(r[i])
    decreases i, j
  {
    if j > 0 then
      var y, x := 2 * i + 1, 2 * j - 1;
      WallsBefore(ok, i, j - 1) + Keep(ok, Horizontal(y, x)) + Keep(ok, Vertical(y, x))
    else if i > 0 then WallsBefore(ok, i - 1, SIZE - 1)
    else []
  }

  /** Every wall move of the scan. */
  ghost function AllWalls(s: View): (r: seq<Move>)
    ensures forall i | 0 <= i < |r| :: r[i].WallMove? && MoveFits(r[i])
  {
    WallsBefore(Accepted(s), SIZE - 1, 0)
  }

  lemma NextColumn(ok: iset<Move>, i: int, j: int)
    requires 0 <= i < SIZE - 1 && 0 <= j < SIZE - 1
    ensures WallsBefore(ok, i, j + 1) ==
      WallsBefore(ok, i, j) + Keep(ok, Horizontal(2 * i + 1, 2 * j + 1)) + Keep(ok, Vertical(2 * i + 1, 2 * j + 1))
  {
  }

  lemma NextRow(ok: iset<Move>, i: int)
    requires 0 <= i < SIZE - 1
    ensures WallsBefore(ok, i + 1, 0) == WallsBefore(ok, i, SIZE - 1)
  {
  }

  /** _get_moves: the pawn moves, then the wall moves when the mover has a wall left. */
  ghost function Moves(s: View, isMax: bool): (r: seq<Move>)
    requires ViewOk(s)
    ensures AllFit(r)
  {
    PawnMoves(s, isMax) + (if Mover(s, isMax).walls > 0 then AllWalls(s) else [])
  }

  /** The wall test, run: emptiness first, then the two searches on the marked copy. */
  method CheckWall(s: View, m: Move) returns (ok: bool)
    requires ViewOk(s) && m.WallMove? && MoveFits(m)
    ensures ok <==> m in Accepted(s)
  {
    var grid := s.grid;
    if grid[m.c1.row][m.c1.col] == 0 && grid[m.c2.row][m.c2.col] == 0 && grid[m.c3.row][m.c3.col] == 0 {
      var testGrid := PlaceWall(grid, m.c1, m.c2, m.c3, 1);
      var p1Ok := HasPath(testGrid, s.p1.pos, P1_GOAL);
      if p1Ok {
        ok := HasPath(testGrid, s.p2.pos, P2_GOAL);
      } else {
        ok := false;
      }
    } else {
      ok := false;
    }
  }

  /** _get_moves, as AIPlayer.py runs it: one pass over the four steps, then the nested
      scan of the wall intersections when the mover has a wall left. */
  method GetMoves(s: View, isMax: bool) returns (moves: seq<Move>)
    requires ViewOk(s)
    ensures moves == Moves(s, isMax)
  {
    moves := PawnPass(s, isMax);
    var walls := Mover(s, isMax).walls;
    if walls > 0 {
      var wallMoves := WallScan(s);
      moves := moves + wallMoves;
    }
  }

  /** The first half of _get_moves: the loop over the four search steps. */
  method PawnPass(s: View, isMax: bool) returns (moves: seq<Move>)
    requires ViewOk(s)
    ensures moves == PawnMoves(s, isMax)
  {
    moves := [];
    var grid := s.grid;
    var pos := Mover(s, isMax).pos;
    var oppPos := Opponent(s, isMax).pos;
    var k := 0;
    while k < 4
      invariant 0 <= k <= 4
      invariant moves == PawnMovesUpTo(grid, pos, oppPos, k)
    {
      var (dr, dc, wr, wc) := Offsets(k);
      OffsetsShape(k);
      match PawnStep(grid, pos, oppPos, dr, dc, wr, wc) {
        case Some(d) =>
          moves := moves + [PawnMove(d)];
        case None =>
      }
      k := k + 1;
    }
  }

  /** The second half of _get_moves: the scan of the wall rows y = 1, 3, ..., 15. */
  method WallScan(s: View) returns (moves: seq<Move>)
    requires ViewOk(s)
    ensures moves == AllWalls(s)
  {
    moves := [];
    var y := 1;
    ghost var i := 0;
    while y < DIM - 1
      invariant 0 <= i < SIZE && y == 2 * i + 1
      invariant moves == WallsBefore(Accepted(s), i, 0)
    {
      moves := ScanRow(s, y, i, moves);
      NextRow(Accepted(s), i);
      y, i := y + 2, i + 1;
    }
  }

  /** The inner loop of the scan: the intersections x = 1, 3, ..., 15 of wall row y (the
      i-th), each tested horizontal first; the results are appended to moves0. */
  method ScanRow(s: View, y: int, ghost i: int, moves0: seq<Move>) returns (moves: seq<Move>)
    requires ViewOk(s) && 0 <= i < SIZE - 1 && y == 2 * i + 1
    requires moves0 == WallsBefore(Accepted(s), i, 0)
    ensures moves == WallsBefore(Accepted(s), i, SIZE - 1)
  {
    moves := moves0;
    var x := 1;
    ghost var j := 0;
    while x < DIM - 1
      invariant 0 <= j < SIZE && x == 2 * j + 1
      invariant moves == WallsBefore(Accepted(s), i, j)
    {
      var okH := CheckWall(s, Horizontal(y, x));
      moves := moves + (if okH then [Horizontal(y, x)] else []);
      var okV := CheckWall(s, Vertical(y, x));
      moves := moves + (if okV then [Vertical(y, x)] else []);
      NextColumn(Accepted(s), i, j);
      x, j := x + 2, j + 1;
    }
    assert j == SIZE - 1;
  }

  /** A generated pawn move is a search step Player would accept and nothing else: on a
      clean state, step k is exactly the orthogonal move along its axis. */
  function AxisOf(k: int): int {
    if k < 2 then 0 else 1
  }

  function StepOf(k: int): int {
    if k % 2 == 0 then -1 else 1
  }

  lemma CandidateIsOrthogonal(g: Grid, me: Pos, opp: Pos, mover: int, k: int)
    requires CleanFor(g, me, opp, mover) && 0 <= k < 4
    ensures PawnCandidate(g, me, opp, k) == OrthogonalTarget(g, me, AxisOf(k), StepOf(k))
  {
    if k < 2 {
      RowStepIsOrthogonal(g, me, opp, mover, StepOf(k));
    } else {
      ColStepIsOrthogonal(g, me, opp, mover, StepOf(k));
    }
  }

  /** A step along a column, as the generator takes it, is the mover's own up or down. */
  lemma RowStepIsOrthogonal(g: Grid, me: Pos, opp: Pos, mover: int, step: int)
    requires CleanFor(g, me, opp, mover) && (step == -1 || step == 1)
    ensures PawnStep(g, me, opp, 2 * step, 0, step, 0) == OrthogonalTarget(g, me, 0, step)
  {
    var n := Pos(me.row + 2 * step, me.col);
    if InBounds(n) {
      PawnCellShift(me, 2 * step, 0);
      OccupiedPawnCell(g, me, opp, mover, n);
    }
  }

  /** A step along a row, as the generator takes it, is the mover's own left or right. */
  lemma ColStepIsOrthogonal(g: Grid, me: Pos, opp: Pos, mover: int, step: int)
    requires CleanFor(g, me, opp, mover) && (step == -1 || step == 1)
    ensures PawnStep(g, me, opp, 0, 2 * step, 0, step) == OrthogonalTarget(g, me, 1, step)
  {
    var n := Pos(me.row, me.col + 2 * step);
    if InBounds(n) {
      PawnCellShift(me, 0, 2 * step);
      OccupiedPawnCell(g, me, opp, mover, n);
    }
  }

  /** The pawn moves generated are exactly the candidates of the steps taken so far. */
  lemma {:induction false} PawnMovesExact(g: Grid, me: Pos, opp: Pos, k: int, d: Pos)
    requires WellFormed(g) && InBounds(me) && 0 <= k <= 4
    ensures PawnMove(d) in PawnMovesUpTo(g, me, opp, k) <==>
      exists j | 0 <= j < k :: PawnCandidate(g, me, opp, j) == Some(d)
  {
    if k > 0 {
      PawnMovesExact(g, me, opp, k - 1, d);
    }
  }

  /** The walls of the generator's shape centred on an intersection are its horizontal
      and its vertical wall. */
  lemma CentredOn(m: Move, y: int, x: int)
    requires Intersection(y, x)
    ensures (WallShape(m) && m.c2 == Pos(y, x)) <==> (m == Horizontal(y, x) || m == Vertical(y, x))
  {
  }

  lemma KeepMember(ok: iset<Move>, w: Move, m: Move)
    ensures m in Keep(ok, w) <==> m == w && w in ok
  {
  }

  /** The intersection (2i+1, 2j+1) is inside the border when i and j are below 8. */
  lemma OddForm(i: int, j: int)
    requires 0 <= i < SIZE - 1 && 0 <= j < SIZE - 1
    ensures Intersection(2 * i + 1, 2 * j + 1)
  {
  }

  /** Between two consecutive odd numbers there is no other odd number. */
  lemma OddBetween(a: int, b: int)
    requires a % 2 == 1 && b % 2 == 1 && b - 2 <= a < b
    ensures a == b - 2
  {
  }

  /** The centre of m comes before the intersection (2i+1, 2j+1) in the scan. */
  predicate ScannedBefore(m: Move, i: int, j: int)
    requires m.WallMove?
  {
    m.c2.row < 2 * i + 1 || (m.c2.row == 2 * i + 1 && m.c2.col < 2 * j + 1)
  }

  /** A wall is emitted before wall row i, column j exactly when it has the generator's
      shape, its centre comes earlier in the scan, and it passes the wall test. */
  lemma {:induction false} WallsBeforeExact(ok: iset<Move>, i: int, j: int, m: Move)
    requires 0 <= i < SIZE && 0 <= j < SIZE
    requires i < SIZE - 1 || j == 0
    requires m.WallMove?
    ensures m in WallsBefore(ok, i, j) <==> WallShape(m) && ScannedBefore(m, i, j) && m in ok
    decreases i, j
  {
    if j > 0 {
      WallsBeforeExact(ok, i, j - 1, m);
      var y, x := 2 * i + 1, 2 * j - 1;
      OddForm(i, j - 1);
      CentredOn(m, y, x);
      KeepMember(ok, Horizontal(y, x), m);
      KeepMember(ok, Vertical(y, x), m);
      if WallShape(m) && m.c2.row == y && x <= m.c2.col < x + 2 {
        OddBetween(m.c2.col, x + 2);
      }
    } else if i > 0 {
      WallsBeforeExact(ok, i - 1, SIZE - 1, m);
      OddForm(i - 1, 0);
      if WallShape(m) && 2 * i - 1 <= m.c2.row < 2 * i + 1 {
        OddBetween(m.c2.row, 2 * i + 1);
      }
    }
  }

  /** Wall moves are generated only for a mover holding a wall: then exactly those with
      the generator's shape that pass the wall test. */
  lemma WallsGenerated(s: View, isMax: bool, m: Move)
    requires ViewOk(s) && m.WallMove? && MoveFits(m)
    ensures m in Moves(s, isMax) <==> Mover(s, isMax).walls > 0 && WallShape(m) && WallAllowed(s, m)
  {
    WallsBeforeExact(Accepted(s), SIZE - 1, 0, m);
  }

  /** A generated pawn move comes from one of the four checked steps. */
  lemma PawnsGenerated(s: View, isMax: bool, d: Pos)
    requires ViewOk(s)
    ensures PawnMove(d) in Moves(s, isMax) <==>
      exists k | 0 <= k < 4 :: PawnCandidate(s.grid, Mover(s, isMax).pos, Opponent(s, isMax).pos, k) == Some(d)
  {
    PawnMovesExact(s.grid, Mover(s, isMax).pos, Opponent(s, isMax).pos, 4, d);
  }

  /** Walls of the generator's shape cover only wall slots. */
  lemma WallShapeOffPawns(m: Move)
    requires WallShape(m)
    ensures !IsPawnCell(m.c1) && !IsPawnCell(m.c2) && !IsPawnCell(m.c3)
  {
  }

  /** Every generated move keeps the pawn-cell invariant and a non-negative wall count. */
  lemma GeneratedKeepsClean(s: View, isMax: bool, m: Move)
    requires ViewOk(s) && CleanView(s) && Mover(s, isMax).walls >= 0
    requires m in Moves(s, isMax)
    ensures CleanView(SimulateMove(s, m, isMax))
    ensures Mover(SimulateMove(s, m, isMax), isMax).walls >= 0
  {
    var r := SimulateMove(s, m, isMax);
    var me, opp, id := Mover(s, isMax).pos, Opponent(s, isMax).pos, MoverId(isMax);
    match m
    case PawnMove(d) =>
      PawnsGenerated(s, isMax, d);
      var k :| 0 <= k < 4 && PawnCandidate(s.grid, me, opp, k) == Some(d);
      assert CleanFor(s.grid, me, opp, id);
      CandidateIsOrthogonal(s.grid, me, opp, id, k);
      OrthogonalAvoidsPawns(s.grid, me, opp, id, AxisOf(k), StepOf(k));
      MovedKeepsClean(s.grid, me, opp, id, d);
      assert r.grid == Moved(s.grid, me, d, id);
    case WallMove(c1, c2, c3) =>
      WallsGenerated(s, isMax, m);
      WallShapeOffPawns(m);
      WallKeepsClean(s.grid, s.p1.pos, s.p2.pos, c1, c2, c3, if c1.row == c2.row then HORIZONTAL else VERTICAL);
  }

  /** A generated wall, once really placed with its centre code, leaves both players a
      path: the centre code changes no empty cell of the tentative copy. */
  lemma GeneratedWallKeepsPaths(s: View, isMax: bool, m: Move)
    requires ViewOk(s) && m.WallMove? && m in Moves(s, isMax)
    ensures Reachable(SimulateMove(s, m, isMax).grid, s.p1.pos, P1_GOAL)
    ensures Reachable(SimulateMove(s, m, isMax).grid, s.p2.pos, P2_GOAL)
  {
    WallsGenerated(s, isMax, m);
    var t := PlaceWall(s.grid, m.c1, m.c2, m.c3, 1);
    var h := SimulateMove(s, m, isMax).grid;
    assert SameZeros(t, h);
    ReachableSameZeros(t, h, s.p1.pos, P1_GOAL);
    ReachableSameZeros(t, h, s.p2.pos, P2_GOAL);
  }

  /* ---------------- Ordering ---------------- */

  function Pawns(ms: seq<Move>): (r: seq<Move>)
    ensures forall i | 0 <= i < |r| :: r[i].PawnMove?
    ensures AllFit(ms) ==> AllFit(r)
  {
    if ms == [] then []
    else (if ms[0].PawnMove? then [ms[0]] else []) + Pawns(ms[1..])
  }

  function Walls(ms: seq<Move>): (r: seq<Move>)
    ensures forall i | 0 <= i < |r| :: r[i].WallMove?
    ensures AllFit(ms) ==> AllFit(r)
  {
    if ms == [] then []
    else (if ms[0].WallMove? then [ms[0]] else []) + Walls(ms[1..])
  }

  /** The stable sort with key 0 for pawn moves and 1 for walls. */
  function PawnsFirst(ms: seq<Move>): (r: seq<Move>)
    ensures AllFit(ms) ==> AllFit(r)
    ensures forall i, j | 0 <= i < j < |r| :: r[j].PawnMove? ==> r[i].PawnMove?
  {
    Pawns(ms) + Walls(ms)
  }

  /** The sort only reorders. */
  lemma {:induction false} SortPermutes(ms: seq<Move>)
    ensures multiset(PawnsFirst(ms)) == multiset(ms)
  {
    if ms != [] {
      SortPermutes(ms[1..]);
      assert ms == [ms[0]] + ms[1..];
    }
  }

  lemma {:induction false} AllWallsSort(b: seq<Move>)
    requires forall i | 0 <= i < |b| :: b[i].WallMove?
    ensures Pawns(b) == [] && Walls(b) == b
  {
    if b != [] {
      AllWallsSort(b[1..]);
      assert b == [b[0]] + b[1..];
    }
  }

  lemma {:induction false} PartitionedSort(a: seq<Move>, b: seq<Move>)
    requires forall i | 0 <= i < |a| :: a[i].PawnMove?
    requires forall i | 0 <= i < |b| :: b[i].WallMove?
    ensures PawnsFirst(a + b) == a + b
    ensures Pawns(a + b) == a && Walls(a + b) == b
  {
    if a == [] {
      assert a + b == b;
      AllWallsSort(b);
    } else {
      PartitionedSort(a[1..], b);
      assert (a + b)[1..] == a[1..] + b;
      assert a == [a[0]] + a[1..];
    }
  }

  /** Generator output already lists pawn moves before walls, so the sort in the search
      changes nothing. */
  lemma SortKeepsGenerated(s: View, isMax: bool)
    requires ViewOk(s)
    ensures PawnsFirst(Moves(s, isMax)) == Moves(s, isMax)
  {
    PartitionedSort(PawnMoves(s, isMax), if Mover(s, isMax).walls > 0 then AllWalls(s) else []);
  }

  /* ---------------- Minimax ---------------- */

  /**
   * _minimax without pruning: P1 on row 0 is -inf, then P2 on row 16 is +inf, both before
   * the depth-0 evaluation; otherwise the best child value over the sorted moves for the
   * side to move (-inf for the maximiser and +inf for the minimiser when none exists).
   */
  ghost function Minimax(s: View, depth: nat, isMax: bool): Score
    requires ViewOk(s)
    decreases depth, 2
  {
    if s.p1.pos.row == P1_GOAL then NegInf
    else if s.p2.pos.row == P2_GOAL then PosInf
    else if depth == 0 then Heuristic(s)
    else Search(s, depth, isMax)
  }

  /** The search below a non-terminal state: the extreme child value over the sorted
      generated moves. */
  ghost function Search(s: View, depth: nat, isMax: bool): Score
    requires ViewOk(s) && depth >= 1
    decreases depth, 1
  {
    var ms := PawnsFirst(Moves(s, isMax));
    Extreme(isMax, Children(s, depth, isMax, ms), |ms|)
  }

  /** The value of each move's child state, one level deeper with the other side to move. */
  ghost function Children(s: View, depth: nat, isMax: bool, ms: seq<Move>): (vs: seq<Score>)
    requires ViewOk(s) && depth >= 1 && AllFit(ms)
    ensures |vs| == |ms|
    decreases depth, 0
  {
    seq(|ms|, k requires 0 <= k < |ms| => Minimax(SimulateMove(s, ms[k], isMax), depth - 1, !isMax))
  }

  /** The running maximum (or minimum) of the first n values, from -inf (or +inf). */
  function Extreme(isMax: bool, vs: seq<Score>, n: int): Score
    requires 0 <= n <= |vs|
  {
    if n == 0 then (if isMax then NegInf else PosInf)
    else if isMax then Max(Extreme(isMax, vs, n - 1), vs[n - 1])
    else Min(Extreme(isMax, vs, n - 1), vs[n - 1])
  }

  /** Fail-soft bounds: a result r for true value v inside the window (alpha, beta) is v
      itself, below the window when v is, and above it when v is. */
  predicate Bounded(r: Score, v: Score, alpha: Score, beta: Score) {
    && (Le(v, alpha) ==> Le(r, alpha))
    && (Le(beta, v) ==> Le(beta, r))
    && (Lt(alpha, v) && Lt(v, beta) ==> r == v)
  }

  /** With the root's window (-inf, +inf) the bounds pin the value down exactly. */
  lemma FullWindow(r: Score, v: Score)
    requires Bounded(r, v, NegInf, PosInf)
    ensures r == v
  {
  }

  lemma MaxAssoc(a: Score, b: Score, c: Score)
    ensures Max(Max(a, b), c) == Max(a, Max(b, c))
  {
  }

  lemma MinAssoc(a: Score, b: Score, c: Score)
    ensures Min(Min(a, b), c) == Min(a, Min(b, c))
  {
  }

  /** One maximiser iteration keeps the bounds: the child was searched in (max(alpha,
      best so far), beta). */
  lemma MaxStep(alpha: Score, beta: Score, cur: Score, acc: Score, e: Score, v: Score)
    requires Lt(alpha, beta) && Lt(Max(alpha, cur), beta)
    requires Bounded(cur, acc, alpha, beta)
    requires Bounded(e, v, Max(alpha, cur), beta)
    ensures Bounded(Max(cur, e), Max(acc, v), alpha, beta)
  {
  }

  lemma MinStep(alpha: Score, beta: Score, cur: Score, acc: Score, e: Score, v: Score)
    requires Lt(alpha, beta) && Lt(alpha, Min(beta, cur))
    requires Bounded(cur, acc, alpha, beta)
    requires Bounded(e, v, alpha, Min(beta, cur))
    ensures Bounded(Min(cur, e), Min(acc, v), alpha, beta)
  {
  }

  /** A maximiser cut-off: once the running alpha reaches beta, the prefix value is at
      least beta, and so is the value of the whole list. */
  lemma MaxCutoff(alpha: Score, beta: Score, cur: Score, acc: Score, total: Score)
    requires Lt(alpha, beta) && Le(beta, Max(alpha, cur))
    requires Bounded(cur, acc, alpha, beta) && Le(acc, total)
    ensures Bounded(cur, total, alpha, beta)
  {
  }

  lemma MinCutoff(alpha: Score, beta: Score, cur: Score, acc: Score, total: Score)
    requires Lt(alpha, beta) && Le(Min(beta, cur), alpha)
    requires Bounded(cur, acc, alpha, beta) && Le(total, acc)
    ensures Bounded(cur, total, alpha, beta)
  {
  }

  /** More values can only raise a maximum and lower a minimum. */
  lemma {:induction false} ExtremeMonotone(isMax: bool, vs: seq<Score>, i: int, n: int)
    requires 0 <= i <= n <= |vs|
    ensures isMax ==> Le(Extreme(isMax, vs, i), Extreme(isMax, vs, n))
    ensures !isMax ==> Le(Extreme(isMax, vs, n), Extreme(isMax, vs, i))
    decreases n
  {
    if i < n {
      ExtremeMonotone(isMax, vs, i, n - 1);
    }
  }

  /**
   * _minimax with alpha-beta pruning, as written: the same terminal tests, each child
   * searched with the running window, and a cut-off once beta <= alpha. Whenever the
   * window is non-empty the result satisfies the fail-soft bounds for the unpruned
   * value; for the root's infinite window that is the unpruned value itself.
   */
  method AlphaBeta(s: View, depth: nat, alpha: Score, beta: Score, isMax: bool) returns (r: Score)
    requires ViewOk(s)
    ensures Lt(alpha, beta) ==> Bounded(r, Minimax(s, depth, isMax), alpha, beta)
    decreases depth, 2
  {
    if s.p1.pos.row == P1_GOAL {
      return NegInf;
    }
    if s.p2.pos.row == P2_GOAL {
      return PosInf;
    }
    if depth == 0 {
      return Heuristic(s);
    }
    var moves := GetMoves(s, isMax);
    moves := PawnsFirst(moves);
    assert Search(s, depth, isMax) == Extreme(isMax, Children(s, depth, isMax, moves), |moves|);
    if isMax {
      r := MaxLoop(s, depth, alpha, beta, moves);
    } else {
      r := MinLoop(s, depth, alpha, beta, moves);
    }
  }

  /** The maximiser's loop of _minimax over the sorted moves: max_eval and alpha raised
      child by child, stopping once beta <= alpha. */
  method MaxLoop(s: View, depth: nat, alpha: Score, beta: Score, moves: seq<Move>) returns (maxEval: Score)
    requires ViewOk(s) && depth >= 1 && AllFit(moves)
    ensures Lt(alpha, beta) ==> Bounded(maxEval, Extreme(true, Children(s, depth, true, moves), |moves|), alpha, beta)
    decreases depth, 1
  {
    maxEval := NegInf;
    var a := alpha;
    var i := 0;
    while i < |moves|
      invariant 0 <= i <= |moves|
      invariant a == Max(alpha, maxEval)
      invariant Lt(alpha, beta) ==> Lt(a, beta) && Bounded(maxEval, Extreme(true, Children(s, depth, true, moves), i), alpha, beta)
    {
      var e := MaxChild(s, depth, alpha, beta, moves, i, maxEval);
      MaxAssoc(alpha, maxEval, e);
      maxEval := Max(maxEval, e);
      a := Max(a, e);
      i := i + 1;
      if Le(beta, a) {
        break;
      }
    }
  }

  /** One maximiser iteration: child i searched in the window (max(alpha, max_eval), beta).
      The running bounds extend to one more child, and to the whole list on a cut-off. */
  method MaxChild(s: View, depth: nat, alpha: Score, beta: Score, moves: seq<Move>, i: int, maxEval: Score)
      returns (e: Score)
    requires ViewOk(s) && depth >= 1 && AllFit(moves) && 0 <= i < |moves|
    ensures var vs := Children(s, depth, true, moves);
      Lt(alpha, beta) && Lt(Max(alpha, maxEval), beta) && Bounded(maxEval, Extreme(true, vs, i), alpha, beta)
      ==> && Bounded(Max(maxEval, e), Extreme(true, vs, i + 1), alpha, beta)
          && (Le(beta, Max(alpha, Max(maxEval, e))) ==> Bounded(Max(maxEval, e), Extreme(true, vs, |vs|), alpha, beta))
    decreases depth, 0
  {
    var sim := SimulateMove(s, moves[i], true);
    e := AlphaBeta(sim, depth - 1, Max(alpha, maxEval), beta, false);
    ghost var vs := Children(s, depth, true, moves);
    assert vs[i] == Minimax(sim, depth - 1, false);
    MaxIteration(alpha, beta, maxEval, vs, i, e);
  }

  /** The maximiser's iteration on values: with child i bounded in the narrowed window the
      running bounds extend to it, and a cut-off bounds the whole list. */
  lemma MaxIteration(alpha: Score, beta: Score, maxEval: Score, vs: seq<Score>, i: int, e: Score)
    requires 0 <= i < |vs|
    requires Lt(Max(alpha, maxEval), beta) ==> Bounded(e, vs[i], Max(alpha, maxEval), beta)
    ensures Lt(alpha, beta) && Lt(Max(alpha, maxEval), beta) && Bounded(maxEval, Extreme(true, vs, i), alpha, beta)
      ==> && Bounded(Max(maxEval, e), Extreme(true, vs, i + 1), alpha, beta)
          && (Le(beta, Max(alpha, Max(maxEval, e))) ==> Bounded(Max(maxEval, e), Extreme(true, vs, |vs|), alpha, beta))
  {
    if Lt(alpha, beta) && Lt(Max(alpha, maxEval), beta) && Bounded(maxEval, Extreme(true, vs, i), alpha, beta) {
      MaxStep(alpha, beta, maxEval, Extreme(true, vs, i), e, vs[i]);
      if Le(beta, Max(alpha, Max(maxEval, e))) {
        ExtremeMonotone(true, vs, i + 1, |vs|);
        MaxCutoff(alpha, beta, Max(maxEval, e), Extreme(true, vs, i + 1), Extreme(true, vs, |vs|));
      }
    }
  }

  /** The minimiser's loop: min_eval and beta lowered child by child, stopping once
      beta <= alpha. */
  method MinLoop(s: View, depth: nat, alpha: Score, beta: Score, moves: seq<Move>) returns (minEval: Score)
    requires ViewOk(s) && depth >= 1 && AllFit(moves)
    ensures Lt(alpha, beta) ==> Bounded(minEval, Extreme(false, Children(s, depth, false, moves), |moves|), alpha, beta)
    decreases depth, 1
  {
    minEval := PosInf;
    var b := beta;
    var i := 0;
    while i < |moves|
      invariant 0 <= i <= |moves|
      invariant b == Min(beta, minEval)
      invariant Lt(alpha, beta) ==> Lt(alpha, b) && Bounded(minEval, Extreme(false, Children(s, depth, false, moves), i), alpha, beta)
    {
      var e := MinChild(s, depth, alpha, beta, moves, i, minEval);
      MinAssoc(beta, minEval, e);
      minEval := Min(minEval, e);
      b := Min(b, e);
      i := i + 1;
      if Le(b, alpha) {
        break;
      }
    }
  }

  /** One minimiser iteration: child i searched in the window (alpha, min(beta, min_eval)). */
  method MinChild(s: View, depth: nat, alpha: Score, beta: Score, moves: seq<Move>, i: int, minEval: Score)
      returns (e: Score)
    requires ViewOk(s) && depth >= 1 && AllFit(moves) && 0 <= i < |moves|
    ensures var vs := Children(s, depth, false, moves);
      Lt(alpha, beta) && Lt(alpha, Min(beta, minEval)) && Bounded(minEval, Extreme(false, vs, i), alpha, beta)
      ==> && Bounded(Min(minEval, e), Extreme(false, vs, i + 1), alpha, beta)
          && (Le(Min(beta, Min(minEval, e)), alpha) ==> Bounded(Min(minEval, e), Extreme(false, vs, |vs|), alpha, beta))
    decreases depth, 0
  {
    var sim := SimulateMove(s, moves[i], false);
    e := AlphaBeta(sim, depth - 1, alpha, Min(beta, minEval), true);
    ghost var vs := Children(s, depth, false, moves);
    assert vs[i] == Minimax(sim, depth - 1, true);
    MinIteration(alpha, beta, minEval, vs, i, e);
  }

  /** The minimiser's iteration on values. */
  lemma MinIteration(alpha: Score, beta: Score, minEval: Score, vs: seq<Score>, i: int, e: Score)
    requires 0 <= i < |vs|
    requires Lt(alpha, Min(beta, minEval)) ==> Bounded(e, vs[i], alpha, Min(beta, minEval))
    ensures Lt(alpha, beta) && Lt(alpha, Min(beta, minEval)) && Bounded(minEval, Extreme(false, vs, i), alpha, beta)
      ==> && Bounded(Min(minEval, e), Extreme(false, vs, i + 1), alpha, beta)
          && (Le(Min(beta, Min(minEval, e)), alpha) ==> Bounded(Min(minEval, e), Extreme(false, vs, |vs|), alpha, beta))
  {
    if Lt(alpha, beta) && Lt(alpha, Min(beta, minEval)) && Bounded(minEval, Extreme(false, vs, i), alpha, beta) {
      MinStep(alpha, beta, minEval, Extreme(false, vs, i), e, vs[i]);
      if Le(Min(beta, Min(minEval, e)), alpha) {
        ExtremeMonotone(false, vs, i + 1, |vs|);
        MinCutoff(alpha, beta, Min(minEval, e), Extreme(false, vs, i + 1), Extreme(false, vs, |vs|));
      }
    }
  }

  /* ---------------- The root rule ---------------- */

  /** A pawn move onto player 2's objective row. */
  predicate Winning(m: Move) {
    m.PawnMove? && m.dest.row == P2_GOAL
  }

  /** The index of the first winning move, or -1 when there is none. */
  function FirstWinning(ms: seq<Move>): (i: int)
    ensures -1 <= i < |ms|
    ensures i >= 0 ==> Winning(ms[i])
    ensures forall j | 0 <= j < |ms| && (i == -1 || j < i) :: !Winning(ms[j])
  {
    if ms == [] then -1
    else if Winning(ms[0]) then 0
    else
      var k := FirstWinning(ms[1..]);
      if k == -1 then -1 else k + 1
  }

  /** What the root search finds for a move of player 2: the opponent to play, at the
      full search depth. */
  ghost function RootValue(s: View, m: Move): Score
    requires ViewOk(s) && MoveFits(m)
  {
    Minimax(SimulateMove(s, m, true), SEARCH_DEPTH, false)
  }

  /** The root value of each move, in order. */
  ghost function RootValues(s: View, ms: seq<Move>): (vs: seq<Score>)
    requires ViewOk(s) && AllFit(ms)
    ensures |vs| == |ms|
  {
    if ms == [] then [] else RootValues(s, ms[..|ms| - 1]) + [RootValue(s, ms[|ms| - 1])]
  }

  /** Entry k of the root values is the root value of move k. */
  lemma {:induction false} RootValuesAt(s: View, ms: seq<Move>, k: int)
    requires ViewOk(s) && AllFit(ms) && 0 <= k < |ms|
    ensures RootValues(s, ms)[k] == RootValue(s, ms[k])
  {
    if k < |ms| - 1 {
      RootValuesAt(s, ms[..|ms| - 1], k);
    }
  }

  /** The running best of ai_move's second loop over the first n values: the value and
      index of the first one that beats everything before it and -inf (index -1 when
      none does). */
  function Best(vs: seq<Score>, n: int): (r: (Score, int))
    requires 0 <= n <= |vs|
    ensures -1 <= r.1 < n
  {
    if n == 0 then (NegInf, -1)
    else
      var prev := Best(vs, n - 1);
      if Lt(prev.0, vs[n - 1]) then (vs[n - 1], n - 1) else prev
  }

  /** The running best is the maximum value; its index holds that value, beats every
      earlier value strictly and beats -inf; index -1 means every value is -inf. */
  lemma {:induction false} BestIsFirstMaximum(vs: seq<Score>, n: int)
    requires 0 <= n <= |vs|
    ensures var (b, i) := Best(vs, n);
      && (forall j | 0 <= j < n :: Le(vs[j], b))
      && (i == -1 ==> b == NegInf)
      && (i >= 0 ==> b == vs[i] && Lt(NegInf, b) && forall j | 0 <= j < i :: Lt(vs[j], b))
  {
    if n > 0 {
      BestIsFirstMaximum(vs, n - 1);
    }
  }

  /** ai_move's choice among moves ms with root values vs: the index of the first winning
      pawn move; otherwise the index of the running best; -1 when every value is -inf. */
  function ChooseIndex(ms: seq<Move>, vs: seq<Score>): (i: int)
    requires |vs| == |ms|
    ensures -1 <= i < |ms|
  {
    var w := FirstWinning(ms);
    if w >= 0 then w else Best(vs, |vs|).1
  }

  /**
   * The root rule, stated outright: a winning pawn move is taken first when one exists;
   * otherwise the chosen move has the greatest value of all, strictly more than every
   * move before it, and more than -inf; nothing is chosen exactly when no move wins and
   * every value is -inf.
   */
  lemma RootRule(ms: seq<Move>, vs: seq<Score>)
    requires |vs| == |ms|
    ensures var i := ChooseIndex(ms, vs);
      && (i == -1 <==> forall j | 0 <= j < |ms| :: !Winning(ms[j]) && vs[j] == NegInf)
      && ((exists j | 0 <= j < |ms| :: Winning(ms[j])) ==>
            0 <= i && Winning(ms[i]) && forall j | 0 <= j < i :: !Winning(ms[j]))
      && ((forall j | 0 <= j < |ms| :: !Winning(ms[j])) && 0 <= i ==>
            && Lt(NegInf, vs[i])
            && (forall j | 0 <= j < |ms| :: Le(vs[j], vs[i]))
            && (forall j | 0 <= j < i :: Lt(vs[j], vs[i])))
  {
    BestIsFirstMaximum(vs, |vs|);
  }

  /** ai_move's choice for player 2 on state s: the move ChooseIndex picks among the
      generated moves and their root values, if any. */
  ghost function RootChoice(s: View): Option<Move>
    requires ViewOk(s)
  {
    var ms := Moves(s, true);
    var i := ChooseIndex(ms, RootValues(s, ms));
    if i >= 0 then Some(ms[i]) else None
  }

  /** The state ai_move leaves: the chosen move simulated for player 2, or no change. */
  ghost function AiResult(s: View): View
    requires ViewOk(s)
  {
    match RootChoice(s)
    case None => s
    case Some(m) =>
      assert m in Moves(s, true);
      SimulateMove(s, m, true)
  }

  /* ---------------- The live board ---------------- */

  /**
   * _apply_move_real on the live grid: a pawn move clears the old cell, records the new
   * position and writes the id there; a wall writes 1, the centre code, 1, and spends a
   * wall.
   */
  method ApplyMoveReal(ai: Player, grid: array2<int>, m: Move)
    requires Fits(grid) && InBounds(ai.pos) && MoveFits(m)
    modifies ai`pos, ai`wallsLeft, grid
    ensures m.PawnMove? ==>
      && ai.pos == m.dest && ai.wallsLeft == old(ai.wallsLeft)
      && GridOf(grid) == Moved(old(GridOf(grid)), old(ai.pos), m.dest, ai.id)
    ensures m.WallMove? ==>
      && ai.pos == old(ai.pos) && ai.wallsLeft == old(ai.wallsLeft) - 1
      && GridOf(grid) == PlaceWall(old(GridOf(grid)), m.c1, m.c2, m.c3, if m.c1.row == m.c2.row then HORIZONTAL else VERTICAL)
  {
    ghost var g := GridOf(grid);
    match m
    case PawnMove(d) =>
      grid[ai.pos.row, ai.pos.col] := 0;
      ai.pos := d;
      grid[d.row, d.col] := ai.id;
      MovedCells(g, old(ai.pos), d, ai.id);
      GridsEqual(GridOf(grid), Moved(g, old(ai.pos), d, ai.id));
    case WallMove(c1, c2, c3) =>
      grid[c1.row, c1.col] := 1;
      grid[c2.row, c2.col] := if c1.row == c2.row then HORIZONTAL else VERTICAL;
      grid[c3.row, c3.col] := 1;
      ai.wallsLeft := ai.wallsLeft - 1;
      GridsEqual(GridOf(grid), PlaceWall(g, c1, c2, c3, if c1.row == c2.row then HORIZONTAL else VERTICAL));
  }

  /**
   * ai_move for player 2: the greedy scan for a winning pawn move, then one full-window
   * search per move keeping the first strictly best, then the chosen move (if any) on
   * the live board. The board invariant is kept.
   */
  method AiMove(board: Board)
    requires board.Valid()
    modifies board.grid, board.p2
    ensures board.Valid()
    ensures board.GetSnapshot() == AiResult(old(board.GetSnapshot()))
  {
    var state := board.GetSnapshot();
    assert CleanView(state) by {
      GridsEqual(state.grid, GridOf(board.grid));
    }
    var validMoves := GetMoves(state, true);
    var w := WinningScan(validMoves);
    if w >= 0 {
      PlayChosen(board, state, validMoves[w]);
      return;
    }
    var bestMove := BestScan(state, validMoves);
    if bestMove.Some? {
      PlayChosen(board, state, bestMove.value);
    }
  }

  /** ai_move's first loop: the index of the first pawn move onto row 16, or -1. */
  method WinningScan(ms: seq<Move>) returns (w: int)
    ensures w == FirstWinning(ms)
  {
    var i := 0;
    while i < |ms|
      invariant 0 <= i <= |ms|
      invariant forall j | 0 <= j < i :: !Winning(ms[j])
    {
      var m := ms[i];
      if m.PawnMove? && m.dest.row == P2_GOAL {
        return i;
      }
      i := i + 1;
    }
    return -1;
  }

  /** ai_move's second loop: each move searched with the full window from the opponent's
      side; a value strictly above the best so far (initially -inf) replaces it. */
  method BestScan(state: View, ms: seq<Move>) returns (bestMove: Option<Move>)
    requires ViewOk(state) && AllFit(ms)
    ensures var i := Best(RootValues(state, ms), |ms|).1;
      bestMove == if i >= 0 then Some(ms[i]) else None
  {
    var bestVal := NegInf;
    bestMove := None;
    ghost var bestIdx := -1;
    var i := 0;
    while i < |ms|
      invariant 0 <= i <= |ms|
      invariant (bestVal, bestIdx) == Best(RootValues(state, ms), i)
      invariant bestMove == (if bestIdx >= 0 then Some(ms[bestIdx]) else None)
    {
      var val := RootScore(state, ms, i);
      if Lt(bestVal, val) {
        bestVal := val;
        bestMove := Some(ms[i]);
        bestIdx := i;
      }
      i := i + 1;
    }
  }

  /** One move of the second loop: simulated, then searched from the opponent's side with
      the full window, which yields exactly its root value. */
  method RootScore(state: View, ms: seq<Move>, i: int) returns (val: Score)
    requires ViewOk(state) && AllFit(ms) && 0 <= i < |ms|
    ensures val == RootValues(state, ms)[i]
  {
    var nextState := SimulateMove(state, ms[i], true);
    val := AlphaBeta(nextState, SEARCH_DEPTH, NegInf, PosInf, false);
    FullWindow(val, Minimax(nextState, SEARCH_DEPTH, false));
    RootValuesAt(state, ms, i);
  }

  /** Plays a generated move for player 2 on the live board; the board reads back as the
      simulated state and keeps its invariant. */
  method PlayChosen(board: Board, state: View, m: Move)
    requires board.Valid() && state == board.GetSnapshot() && ViewOk(state) && CleanView(state)
    requires m in Moves(state, true)
    modifies board.grid, board.p2
    ensures board.Valid()
    ensures board.GetSnapshot() == SimulateMove(state, m, true)
  {
    GridsEqual(state.grid, GridOf(board.grid));
    ApplyMoveReal(board.p2, board.grid, m);
    GeneratedKeepsClean(state, true, m);
    GridsEqual(board.GetSnapshot().grid, GridOf(board.grid));
  }
}
