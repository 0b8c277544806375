/**
 * The tic-tac-toe board as a value: nine cells, the eight winning lines,
 * the win and full-board tests, mark counts, and the status derived from
 * a board. Index 0-2 is the bottom row, 3-5 the middle row, 6-8 the top
 * row (the numpad layout).
 */
module Board {

  /** A cell holds " " (Empty), "X" (the player's mark) or "O" (the bot's mark). */
  datatype Cell = Empty | X | O

  type CellIndex = i: int | 0 <= i < 9

  /** A board of the game: exactly nine cells. */
  predicate IsBoard(b: seq<Cell>) { |b| == 9 }

  /** A line is three indices of the board. */
  predicate ValidLine(line: seq<int>)
  {
    |line| == 3 && 0 <= line[0] < 9 && 0 <= line[1] < 9 && 0 <= line[2] < 9
  }

  /** The winCombinations table: three rows, three columns, two diagonals. */
  function WinCombinations(): (lines: seq<seq<int>>)
    ensures |lines| == 8
    ensures forall i :: 0 <= i < |lines| ==> ValidLine(lines[i])
  {
    [ [6, 7, 8], [3, 4, 5], [0, 1, 2],
      [0, 3, 6], [1, 4, 7], [2, 5, 8],
      [0, 4, 8], [2, 4, 6] ]
  }

  /** All three cells of `line` hold the same mark and that mark is not Empty. */
  predicate LineComplete(b: seq<Cell>, line: seq<int>)
    requires IsBoard(b) && ValidLine(line)
  {
    b[line[0]] == b[line[1]] && b[line[2]] == b[line[0]] && b[line[0]] != Empty
  }

  /** Some line of the table is complete: what checkForWin reports. */
  predicate HasWin(b: seq<Cell>)
    requires IsBoard(b)
  {
    exists i :: 0 <= i < 8 && LineComplete(b, WinCombinations()[i])
  }

  /** No cell is Empty: the tie test `" " !in positions`, which counts no Empty cell. */
  predicate IsFull(b: seq<Cell>): (full: bool)
    ensures full <==> Count(b, Empty) == 0
  {
    CountBounded(b, Empty);
    Empty !in b
  }

  /** Number of cells of `b` holding `c`. */
  function Count(b: seq<Cell>, c: Cell): (n: nat)
  {
    if b == [] then 0 else (if b[0] == c then 1 else 0) + Count(b[1..], c)
  }

  lemma {:induction false} CountBounded(b: seq<Cell>, c: Cell)
    ensures Count(b, c) <= |b|
    ensures Count(b, c) == 0 <==> c !in b
  {
    if b != [] {
      CountBounded(b[1..], c);
      assert b == [b[0]] + b[1..];
    }
  }

  /** Every cell holds exactly one of the three values. */
  lemma {:induction false} CountsSum(b: seq<Cell>)
    ensures Count(b, Empty) + Count(b, X) + Count(b, O) == |b|
  {
    if b != [] {
      CountsSum(b[1..]);
    }
  }

  /** Writing `m` into cell `i` moves that one cell from its old value's count to `m`'s. */
  lemma {:induction false} CountUpdate(b: seq<Cell>, i: int, m: Cell, c: Cell)
    requires 0 <= i < |b|
    ensures Count(b[i := m], c) == Count(b, c) - (if b[i] == c then 1 else 0) + (if m == c then 1 else 0)
  {
    if i == 0 {
      assert b[i := m][1..] == b[1..];
    } else {
      assert b[i := m][1..] == b[1..][i - 1 := m];
      CountUpdate(b[1..], i - 1, m, c);
    }
  }

  /** Writing a mark into an Empty cell: one mark more of that kind, one Empty cell less. */
  lemma PlaceCounts(b: seq<Cell>, i: int, m: Cell)
    requires 0 <= i < |b| && b[i] == Empty && m != Empty
    ensures Count(b[i := m], m) == Count(b, m) + 1
    ensures Count(b[i := m], Empty) == Count(b, Empty) - 1
    ensures forall c :: c != m && c != Empty ==> Count(b[i := m], c) == Count(b, c)
  {
    CountUpdate(b, i, m, m);
    CountUpdate(b, i, m, Empty);
    forall c | c != m && c != Empty
      ensures Count(b[i := m], c) == Count(b, c)
    {
      CountUpdate(b, i, m, c);
    }
  }

  /** Every cell marked in `b` holds the same mark in `b'`: no mark is erased or replaced. */
  predicate KeepsMarks(b: seq<Cell>, b': seq<Cell>)
  {
    |b| == |b'| && forall i :: 0 <= i < |b| && b[i] != Empty ==> b'[i] == b[i]
  }

  /** Writing into an Empty cell keeps every mark; keeping marks composes over several moves. */
  lemma PlaceKeepsMarks(b: seq<Cell>, i: int, m: Cell, b0: seq<Cell>)
    requires 0 <= i < |b| && b[i] == Empty
    requires KeepsMarks(b0, b)
    ensures KeepsMarks(b, b[i := m]) && KeepsMarks(b0, b[i := m])
  {
  }

  lemma KeepsMarksTransitive(b0: seq<Cell>, b1: seq<Cell>, b2: seq<Cell>)
    requires KeepsMarks(b0, b1) && KeepsMarks(b1, b2)
    ensures KeepsMarks(b0, b2)
  {
  }

  /**
   * While the player's and the bot's marks are equal in number (after each
   * bot move, and at the start of every round) the board has an Empty cell:
   * nine is odd, so only the player's move can fill the board.
   */
  lemma EqualCountsLeaveAnEmptyCell(b: seq<Cell>)
    requires IsBoard(b) && Count(b, X) == Count(b, O)
    ensures !IsFull(b)
    ensures Count(b, Empty) % 2 == 1
  {
    CountsSum(b);
    CountBounded(b, Empty);
  }

  /** A full board reached by alternating moves holds five player marks and four bot marks. */
  lemma FullBoardEndsOnPlayerMove(b: seq<Cell>)
    requires IsBoard(b) && IsFull(b)
    requires Count(b, X) == Count(b, O) || Count(b, X) == Count(b, O) + 1
    ensures Count(b, X) == 5 && Count(b, O) == 4
  {
    CountsSum(b);
    CountBounded(b, Empty);
    if Count(b, X) == Count(b, O) {
      EqualCountsLeaveAnEmptyCell(b);
    }
  }

  /** Every complete line of the table holds `m`. */
  predicate AllWinsAre(b: seq<Cell>, m: Cell)
    requires IsBoard(b)
  {
    forall j :: 0 <= j < 8 && LineComplete(b, WinCombinations()[j]) ==> b[WinCombinations()[j][0]] == m
  }

  /**
   * If a board with no win gets one more mark `m`, every line it then
   * completes passes through the new cell and holds `m`: a win belongs to
   * whoever moved last.
   */
  lemma {:induction false} NewWinBelongsToMover(b: seq<Cell>, i: int, m: Cell)
    requires IsBoard(b) && 0 <= i < 9 && b[i] == Empty && m != Empty
    requires !HasWin(b)
    ensures forall j :: 0 <= j < 8 && LineComplete(b[i := m], WinCombinations()[j]) ==>
              i in WinCombinations()[j] && b[i := m][WinCombinations()[j][0]] == m
    ensures AllWinsAre(b[i := m], m)
  {
    var b' := b[i := m];
    forall j | 0 <= j < 8 && LineComplete(b', WinCombinations()[j])
      ensures i in WinCombinations()[j] && b'[WinCombinations()[j][0]] == m
    {
      var line := WinCombinations()[j];
      assert i in line;
      var k :| 0 <= k < 3 && line[k] == i;
      assert b'[line[k]] == m;
    }
  }

  // ---------------------------------------------------------------------
  // A game as a sequence of moves: the player moves first, then the two
  // alternate; each move goes to an Empty cell of a board without a win.

  /** The mark of move number `k`, counting from 0. */
  function Mark(k: nat): (m: Cell)
    ensures m != Empty
  {
    if k % 2 == 0 then X else O
  }

  /**
   * Proof helper: after whole rounds and at most one more, the move count is
   * odd exactly when one move followed them. It keeps `%` out of the proof
   * of a round appended to a game.
   */
  lemma WholeRoundsKeepParity(whole: nat, since: nat, total: nat)
    requires whole % 2 == 0 && since <= 2 && total == whole + since
    ensures total % 2 == (if since == 1 then 1 else 0)
  {
  }

  /** The board after `moves` are played on `b` in order, alternating X and O. */
  function Play(b: seq<Cell>, moves: seq<CellIndex>): (r: seq<Cell>)
    requires IsBoard(b)
    ensures IsBoard(r)
    decreases |moves|
  {
    if moves == [] then b
    else Play(b, moves[..|moves| - 1])[moves[|moves| - 1] := Mark(|moves| - 1)]
  }

  /**
   * Every move went to an Empty cell, and no move was made once the board
   * had a win: the last move is legal on the board its prefix leaves, and
   * so is the prefix.
   */
  ghost predicate LegalPlay(b: seq<Cell>, moves: seq<CellIndex>)
    requires IsBoard(b)
    decreases |moves|
  {
    moves == [] ||
    var prior := moves[..|moves| - 1];
    LegalPlay(b, prior) && Play(b, prior)[moves[|moves| - 1]] == Empty && !HasWin(Play(b, prior))
  }

  /** `b` is what the legal game `moves` left of `start`, every mark of `start` still in place. */
  ghost predicate PlayedFrom(start: seq<Cell>, moves: seq<CellIndex>, b: seq<Cell>)
    requires IsBoard(start)
  {
    b == Play(start, moves) && LegalPlay(start, moves) && KeepsMarks(start, b)
  }

  /** A legal game extended by one move to an Empty cell of a board without a win stays legal. */
  lemma LegalPlayExtends(b: seq<Cell>, moves: seq<CellIndex>, i: CellIndex)
    requires IsBoard(b) && LegalPlay(b, moves)
    requires Play(b, moves)[i] == Empty && !HasWin(Play(b, moves))
    ensures Play(b, moves + [i]) == Play(b, moves)[i := Mark(|moves|)]
    ensures LegalPlay(b, moves + [i])
  {
    assert (moves + [i])[..|moves|] == moves;
  }

  /** Playing `ms` then `ns` is playing `ns` on the board `ms` leaves, when `ms` is whole rounds (even length). */
  lemma {:induction false} PlayConcat(b: seq<Cell>, ms: seq<CellIndex>, ns: seq<CellIndex>)
    requires IsBoard(b) && |ms| % 2 == 0
    ensures Play(b, ms + ns) == Play(Play(b, ms), ns)
    decreases |ns|
  {
    if ns == [] {
      assert ms + ns == ms;
    } else {
      var last := |ns| - 1;
      assert (ms + ns)[..|ms + ns| - 1] == ms + ns[..last];
      assert (ms + ns)[|ms + ns| - 1] == ns[last];
      PlayConcat(b, ms, ns[..last]);
    }
  }

  /** A legal game of whole rounds followed by a legal continuation from its board is legal. */
  lemma {:induction false} LegalPlayConcat(b: seq<Cell>, ms: seq<CellIndex>, ns: seq<CellIndex>)
    requires IsBoard(b) && |ms| % 2 == 0
    requires LegalPlay(b, ms) && LegalPlay(Play(b, ms), ns)
    ensures LegalPlay(b, ms + ns)
    decreases |ns|
  {
    if ns == [] {
      assert ms + ns == ms;
    } else {
      var last := |ns| - 1;
      assert (ms + ns)[..|ms + ns| - 1] == ms + ns[..last];
      assert (ms + ns)[|ms + ns| - 1] == ns[last];
      LegalPlayConcat(b, ms, ns[..last]);
      PlayConcat(b, ms, ns[..last]);
    }
  }

  // ---------------------------------------------------------------------
  // An independent description of the winning lines: three cells in a
  // straight line on the 3x3 grid, in one of four directions. The cell in
  // row r (0 at the bottom) and column c (0 at the left) has index 3 * r + c.

  datatype Direction = East | North | NorthEast | NorthWest

  function DRow(d: Direction): (dr: int) { if d == East then 0 else 1 }
  function DCol(d: Direction): (dc: int)
  {
    match d
    case East => 1
    case North => 0
    case NorthEast => 1
    case NorthWest => -1
  }

  predicate OnGrid(r: int, c: int) { 0 <= r < 3 && 0 <= c < 3 }

  function At(r: int, c: int): (i: CellIndex)
    requires OnGrid(r, c)
  {
    3 * r + c
  }

  /** Three cells from row `r`, column `c` in direction `d` all lie on the grid. */
  predicate LineFits(r: int, c: int, d: Direction)
  {
    OnGrid(r, c) && OnGrid(r + 2 * DRow(d), c + 2 * DCol(d))
  }

  function StraightLine(r: int, c: int, d: Direction): (line: seq<int>)
    requires LineFits(r, c, d)
    ensures ValidLine(line)
  {
    [At(r, c), At(r + DRow(d), c + DCol(d)), At(r + 2 * DRow(d), c + 2 * DCol(d))]
  }

  function Reverse(line: seq<int>): (r: seq<int>)
    requires ValidLine(line)
    ensures ValidLine(r)
  {
    [line[2], line[1], line[0]]
  }

  /** Three equal marks lie in a straight line somewhere on the grid. */
  ghost predicate ThreeInARow(b: seq<Cell>)
    requires IsBoard(b)
  {
    exists r, c, d :: LineFits(r, c, d) && LineComplete(b, StraightLine(r, c, d))
  }

  /** The start cell (row, column) and direction of each entry of the table. */
  function EntryAsStraightLine(j: int): (start: (int, int, Direction))
  {
    match j
    case 0 => (2, 0, East)
    case 1 => (1, 0, East)
    case 2 => (0, 0, East)
    case 3 => (0, 0, North)
    case 4 => (0, 1, North)
    case 5 => (0, 2, North)
    case 6 => (0, 0, NorthEast)
    case _ => (0, 2, NorthWest)
  }

  /** Two lines list the same cells in the same order. */
  predicate SameLine(l1: seq<int>, l2: seq<int>)
    requires ValidLine(l1) && ValidLine(l2)
  {
    l1[0] == l2[0] && l1[1] == l2[1] && l1[2] == l2[2]
  }

  /** Entries whose start cell and direction `EntryAsStraightLine` gives correctly. */
  predicate EntryMatches(j: int)
    requires 0 <= j < 8
  {
    var (r, c, d) := EntryAsStraightLine(j);
    LineFits(r, c, d) && SameLine(WinCombinations()[j], StraightLine(r, c, d))
  }

  // Rows, columns and diagonals are checked separately; this keeps each proof small.
  lemma RowEntriesAreStraight(j: int)
    requires 0 <= j < 3
    ensures EntryMatches(j)
  {
  }

  lemma ColumnEntriesAreStraight(j: int)
    requires 3 <= j < 6
    ensures EntryMatches(j)
  {
  }

  lemma DiagonalEntriesAreStraight(j: int)
    requires 6 <= j < 8
    ensures EntryMatches(j)
  {
  }

  /** Every entry of the table is a straight line of the grid. */
  lemma EntryIsStraight(j: int)
    requires 0 <= j < 8
    ensures EntryMatches(j)
  {
    if j < 3 {
      RowEntriesAreStraight(j);
    } else if j < 6 {
      ColumnEntriesAreStraight(j);
    } else {
      DiagonalEntriesAreStraight(j);
    }
  }

  /** Every straight line of the grid is in the table, read forwards or backwards. */
  lemma StraightLinesAreInTable(r: int, c: int, d: Direction)
    requires LineFits(r, c, d)
    ensures exists j :: 0 <= j < 8 &&
              (SameLine(WinCombinations()[j], StraightLine(r, c, d)) ||
               SameLine(WinCombinations()[j], Reverse(StraightLine(r, c, d))))
  {
    var t := WinCombinations();
    match d
    case East =>
      assert c == 0;
      if r == 0 { assert SameLine(t[2], StraightLine(r, c, d)); }
      else if r == 1 { assert SameLine(t[1], StraightLine(r, c, d)); }
      else { assert SameLine(t[0], StraightLine(r, c, d)); }
    case North =>
      assert r == 0;
      if c == 0 { assert SameLine(t[3], StraightLine(r, c, d)); }
      else if c == 1 { assert SameLine(t[4], StraightLine(r, c, d)); }
      else { assert SameLine(t[5], StraightLine(r, c, d)); }
    case NorthEast =>
      assert r == 0 && c == 0;
      assert SameLine(t[6], StraightLine(r, c, d));
    case NorthWest =>
      assert r == 0 && c == 2;
      assert SameLine(t[7], StraightLine(r, c, d));
  }

  /** checkForWin's table scan agrees with the geometric description of a win. */
  lemma WinIffThreeInARow(b: seq<Cell>)
    requires IsBoard(b)
    ensures HasWin(b) <==> ThreeInARow(b)
  {
    if HasWin(b) {
      var j :| 0 <= j < 8 && LineComplete(b, WinCombinations()[j]);
      EntryIsStraight(j);
      var (r, c, d) := EntryAsStraightLine(j);
      assert SameLine(WinCombinations()[j], StraightLine(r, c, d));
      assert LineComplete(b, StraightLine(r, c, d));
    }
    if ThreeInARow(b) {
      var r, c, d :| LineFits(r, c, d) && LineComplete(b, StraightLine(r, c, d));
      StraightLinesAreInTable(r, c, d);
      var j :| 0 <= j < 8 &&
        (SameLine(WinCombinations()[j], StraightLine(r, c, d)) ||
         SameLine(WinCombinations()[j], Reverse(StraightLine(r, c, d))));
      assert LineComplete(b, WinCombinations()[j]);
    }
  }

  // ---------------------------------------------------------------------
  // The result of a game, derived from the board.

  datatype Outcome = InProgress | PlayerWin | BotWin | Tie

  /**
   * The status of a board: a win belongs to whoever moved last (the player
   * when X is ahead), a win is looked for before a tie, and a tie is a full
   * board without a win.
   */
  function Status(b: seq<Cell>): (s: Outcome)
    requires IsBoard(b)
  {
    if HasWin(b) then (if Count(b, X) > Count(b, O) then PlayerWin else BotWin)
    else if IsFull(b) then Tie
    else InProgress
  }

  /** A board at the start of a round: as many X as O, and nobody has won. */
  predicate RoundStart(b: seq<Cell>)
  {
    IsBoard(b) && Count(b, X) == Count(b, O) && !HasWin(b)
  }

  /**
   * How a game that stopped at board `b` after `moveCount` moves with
   * `outcome` looks: the outcome is the board's status; a win is the last
   * mover's and every complete line is theirs; the marks add up.
   */
  predicate GameStopped(b: seq<Cell>, outcome: Outcome, moveCount: nat)
    requires IsBoard(b)
  {
    && outcome == Status(b)
    && (outcome == PlayerWin ==> moveCount % 2 == 1 && AllWinsAre(b, X))
    && (outcome == BotWin ==> moveCount % 2 == 0 && moveCount > 0 && AllWinsAre(b, O))
    && (outcome == PlayerWin || outcome == Tie ==> Count(b, X) == Count(b, O) + 1)
    && (outcome == BotWin ==> Count(b, X) == Count(b, O) && !IsFull(b))
    && (outcome == Tie ==> Count(b, X) == 5 && Count(b, O) == 4)
  }

  /** The status of boards reached by alternating play, each move by X followed by one by O. */
  lemma StatusOfPlayedBoard(b: seq<Cell>)
    requires IsBoard(b) && (Count(b, X) == Count(b, O) || Count(b, X) == Count(b, O) + 1)
    ensures Status(b) == Tie ==> Count(b, X) == 5 && Count(b, O) == 4
    ensures Status(b) == PlayerWin <==> HasWin(b) && Count(b, X) == Count(b, O) + 1
    ensures Status(b) == BotWin <==> HasWin(b) && Count(b, X) == Count(b, O)
    ensures Status(b) == BotWin ==> !IsFull(b)
  {
    if IsFull(b) {
      FullBoardEndsOnPlayerMove(b);
    }
    if Count(b, X) == Count(b, O) {
      EqualCountsLeaveAnEmptyCell(b);
    }
  }
}
