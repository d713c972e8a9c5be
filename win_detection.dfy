/** Win and draw detection on a 3x3 tic-tac-toe board.

    A board is a sequence of nine cells in row-major order (row = index / 3,
    column = index % 3). A cell that the source represents as `null` is
    `Empty` here, so the source's truthiness test `squares[a]` is
    `squares[a] != Empty`.
 */
module WinDetection {

  datatype Cell = Empty | X | O

  /** The result of the winner scan: the mark and the three indices of the
      first completed line, or no winner at all. */
  datatype Outcome = NoWinner | Winner(mark: Cell, line: seq<nat>)

  /** The eight lines in the order the scan visits them: three rows top to
      bottom, three columns left to right, then the two diagonals. */
  const Lines: seq<seq<nat>> := [
    [0, 1, 2],
    [3, 4, 5],
    [6, 7, 8],
    [0, 3, 6],
    [1, 4, 7],
    [2, 5, 8],
    [0, 4, 8],
    [2, 4, 6]
  ]

  const EmptyBoard: seq<Cell> := [Empty, Empty, Empty, Empty, Empty, Empty, Empty, Empty, Empty]

  /** Each line is three different board indices. */
  lemma LineShape(k: nat)
    requires k < |Lines|
    ensures |Lines[k]| == 3 && Lines[k][0] < 9 && Lines[k][1] < 9 && Lines[k][2] < 9
    ensures Lines[k][0] != Lines[k][1] && Lines[k][1] != Lines[k][2] && Lines[k][0] != Lines[k][2]
  {
  }

  /** The eight lines are pairwise different. */
  lemma LinesDistinct(i: nat, j: nat)
    requires i < |Lines| && j < |Lines| && i != j
    ensures Lines[i] != Lines[j]
  {
    assert Lines[i][0] != Lines[j][0] || Lines[i][1] != Lines[j][1] || Lines[i][2] != Lines[j][2];
  }

  /** Line `k` holds three equal marks. */
  predicate LineWon(b: seq<Cell>, k: nat)
    requires |b| == 9 && k < |Lines|
  {
    var a, c, d := Lines[k][0], Lines[k][1], Lines[k][2];
    b[a] != Empty && b[a] == b[c] && b[a] == b[d]
  }

  /** Line `j` is complete and no line before it in scan order is. */
  predicate FirstWon(b: seq<Cell>, j: nat)
    requires |b| == 9
  {
    j < |Lines| && LineWon(b, j) && forall j' :: 0 <= j' < j ==> !LineWon(b, j')
  }

  /** If one of the first `n` lines is complete, some line is the first
      complete one. */
  lemma {:induction false} FirstWonExists(b: seq<Cell>, n: nat)
    requires |b| == 9 && n <= |Lines|
    requires exists j :: 0 <= j < n && LineWon(b, j)
    ensures exists j: nat :: FirstWon(b, j)
  {
    var j :| 0 <= j < n && LineWon(b, j);
    if exists j' :: 0 <= j' < j && LineWon(b, j') {
      FirstWonExists(b, j);
    } else {
      assert FirstWon(b, j);
    }
  }

  /** There is at most one first complete line. */
  lemma FirstWonUnique(b: seq<Cell>)
    requires |b| == 9
    ensures forall j1: nat, j2: nat :: FirstWon(b, j1) && FirstWon(b, j2) ==> j1 == j2
  {
    forall j1: nat, j2: nat | FirstWon(b, j1) && FirstWon(b, j2) ensures j1 == j2 {
      assert LineWon(b, j1) && LineWon(b, j2);
    }
  }

  /** The outcome of the scan: no winner when no line is complete; otherwise
      the mark and the cells of the first complete line in scan order. */
  function FirstWinner(b: seq<Cell>): (r: Outcome)
    requires |b| == 9
    ensures r.NoWinner? <==> forall j :: 0 <= j < |Lines| ==> !LineWon(b, j)
    ensures r.Winner? ==>
      r.mark != Empty && |r.line| == 3 && r.line[0] < 9 && r.line[1] < 9 && r.line[2] < 9 &&
      b[r.line[0]] == r.mark && b[r.line[1]] == r.mark && b[r.line[2]] == r.mark
  {
    if exists j :: 0 <= j < |Lines| && LineWon(b, j) then
      FirstWonExists(b, |Lines|);
      FirstWonUnique(b);
      var j: nat :| FirstWon(b, j);
      LineShape(j);
      Winner(b[Lines[j][0]], Lines[j])
    else NoWinner
  }

  /** The scan reports line `j` exactly when `j` is the first complete line:
      rows before columns before diagonals. */
  lemma FirstWinnerIsFirst(b: seq<Cell>, j: nat)
    requires |b| == 9 && j < |Lines|
    ensures FirstWinner(b) == Winner(b[Lines[j][0]], Lines[j]) <==> FirstWon(b, j)
  {
    if FirstWon(b, j) || FirstWinner(b) == Winner(b[Lines[j][0]], Lines[j]) {
      FirstWonExists(b, |Lines|);
      FirstWonUnique(b);
      var j': nat :| FirstWon(b, j');
      assert FirstWinner(b) == Winner(b[Lines[j'][0]], Lines[j']);
      if j != j' {
        LinesDistinct(j, j');
      }
    }
  }

  /** A board on which none of the eight lines, checked one by one, is
      complete has no winner. */
  lemma NoLineNoWinner(b: seq<Cell>)
    requires |b| == 9
    requires !LineWon(b, 0) && !LineWon(b, 1) && !LineWon(b, 2) && !LineWon(b, 3)
    requires !LineWon(b, 4) && !LineWon(b, 5) && !LineWon(b, 6) && !LineWon(b, 7)
    ensures FirstWinner(b) == NoWinner
  {
    forall k | 0 <= k < |Lines| ensures !LineWon(b, k) {
      assert k == 0 || k == 1 || k == 2 || k == 3 || k == 4 || k == 5 || k == 6 || k == 7;
    }
  }

  /** The scan as the source runs it: an index loop over the lines with an
      early return on the first complete one. */
  method CalculateWinner(squares: seq<Cell>) returns (r: Outcome)
    requires |squares| == 9
    ensures r == FirstWinner(squares)
  {
    var i := 0;
    while i < |Lines|
      invariant 0 <= i <= |Lines|
      invariant forall j :: 0 <= j < i ==> !LineWon(squares, j)
    {
      var a, b, c := Lines[i][0], Lines[i][1], Lines[i][2];
      if squares[a] != Empty && squares[a] == squares[b] && squares[a] == squares[c] {
        FirstWinnerIsFirst(squares, i);
        return Winner(squares[a], Lines[i]);
      }
      i := i + 1;
    }
    return NoWinner;
  }

  /** No cell of the board is empty. */
  predicate IsFull(b: seq<Cell>)
  {
    forall j :: 0 <= j < |b| ==> b[j] != Empty
  }

  /** The fullness test as the source runs it: a scan that stops at the first
      empty cell. */
  method CalculateFull(squares: seq<Cell>) returns (full: bool)
    ensures full <==> IsFull(squares)
    ensures !full ==> exists j :: 0 <= j < |squares| && squares[j] == Empty
  {
    for i := 0 to |squares|
      invariant forall j :: 0 <= j < i ==> squares[j] != Empty
    {
      if squares[i] == Empty {
        return false;
      }
    }
    return true;
  }

  /** The starting board has no winner and is not full. */
  lemma EmptyBoardUndecided()
    ensures FirstWinner(EmptyBoard).NoWinner?
    ensures !IsFull(EmptyBoard)
  {
    assert EmptyBoard[0] == Empty;
    forall j | 0 <= j < |Lines| ensures !LineWon(EmptyBoard, j) {
      LineShape(j);
    }
  }
}
