/** Concrete positions and clicks. */
module Scenarios {
  import opened WinDetection
  import opened GameState
  import opened Render

  /** Highlighting the top row on a clear board. */
  lemma TopRowHighlights()
    ensures SetLine(NoHighlights, [0, 1, 2]) == [true, true, true, false, false, false, false, false, false]
  {
    var top := SetLine(NoHighlights, [0, 1, 2]);
    assert top[0] && top[1] && top[2];
    assert !top[3] && !top[4] && !top[5] && !top[6] && !top[7] && !top[8];
  }

  /** A move that leaves the board without a winner carries the highlights
      over unchanged. */
  lemma QuietMove(s: Snapshot, i: nat, m: Cell, b: seq<Cell>)
    requires |s.squares| == 9 && i < 9 && b == s.squares[i := m]
    requires FirstWinner(b) == NoWinner
    ensures Play(s, i, m) == Snapshot(b, s.highlights, Some(i))
  {
  }

  /** X plays 0, O plays 4: both clicks are accepted and nothing is
      highlighted. */
  lemma CentreOpening()
    ensures var s1 := Play(Initial, 0, X);
            var s2 := Play(s1, 4, O);
            Legal(Initial, 0) && Legal(s1, 4) &&
            s2 == Snapshot([X, Empty, Empty, Empty, O, Empty, Empty, Empty, Empty], NoHighlights, Some(4))
  {
    OpeningMove(0);
    var b1 := EmptyBoard[0 := X];
    var b2 := [X, Empty, Empty, Empty, O, Empty, Empty, Empty, Empty];
    NoLineNoWinner(b2);
    QuietMove(Snapshot(b1, NoHighlights, Some(0)), 4, O, b2);
  }

  /** From there X plays 1: accepted, no line. */
  lemma ThirdMove()
    ensures var s2 := Snapshot([X, Empty, Empty, Empty, O, Empty, Empty, Empty, Empty], NoHighlights, Some(4));
            Legal(s2, 1) &&
            Play(s2, 1, X) == Snapshot([X, X, Empty, Empty, O, Empty, Empty, Empty, Empty], NoHighlights, Some(1))
  {
    var b2 := [X, Empty, Empty, Empty, O, Empty, Empty, Empty, Empty];
    var b3 := [X, X, Empty, Empty, O, Empty, Empty, Empty, Empty];
    NoLineNoWinner(b2);
    NoLineNoWinner(b3);
    QuietMove(Snapshot(b2, NoHighlights, Some(4)), 1, X, b3);
  }

  /** Then O plays 3: accepted, no line, and X may still move onto 2. */
  lemma FourthMove()
    ensures var s3 := Snapshot([X, X, Empty, Empty, O, Empty, Empty, Empty, Empty], NoHighlights, Some(1));
            var s4 := Snapshot([X, X, Empty, O, O, Empty, Empty, Empty, Empty], NoHighlights, Some(3));
            Legal(s3, 3) && Play(s3, 3, O) == s4 && Legal(s4, 2)
  {
    var b3 := [X, X, Empty, Empty, O, Empty, Empty, Empty, Empty];
    var b4 := [X, X, Empty, O, O, Empty, Empty, Empty, Empty];
    NoLineNoWinner(b3);
    NoLineNoWinner(b4);
    QuietMove(Snapshot(b3, NoHighlights, Some(1)), 3, O, b4);
  }

  /** A move that completes a line sets the highlights of that line. */
  lemma WinningMove(s: Snapshot, i: nat, m: Cell, b: seq<Cell>, line: seq<nat>)
    requires |s.squares| == 9 && i < 9 && b == s.squares[i := m]
    requires FirstWinner(b) == Winner(m, line)
    ensures Play(s, i, m) == Snapshot(b, SetLine(s.highlights, line), Some(i))
  {
  }

  /** The game of moves 0, 4, 1, 3, 2: X completes the top row with the fifth
      click, wins, and exactly the top row is highlighted. */
  lemma TopRowWin()
    ensures var s1 := Play(Initial, 0, X);
            var s2 := Play(s1, 4, O);
            var s3 := Play(s2, 1, X);
            var s4 := Play(s3, 3, O);
            var s5 := Play(s4, 2, X);
            Legal(Initial, 0) && Legal(s1, 4) && Legal(s2, 1) && Legal(s3, 3) && Legal(s4, 2) &&
            StatusOf(s5.squares, false) == Won(X) &&
            s5.highlights == [true, true, true, false, false, false, false, false, false]
  {
    CentreOpening();
    ThirdMove();
    FourthMove();
    var s4 := Snapshot([X, X, Empty, O, O, Empty, Empty, Empty, Empty], NoHighlights, Some(3));
    var b5 := [X, X, X, O, O, Empty, Empty, Empty, Empty];
    FirstWinnerIsFirst(b5, 0);
    assert FirstWinner(b5) == Winner(X, [0, 1, 2]);
    WinningMove(s4, 2, X, b5, [0, 1, 2]);
    TopRowHighlights();
  }

  /** X holds both the top row and the left column: the scan reports the
      row, which it visits first, and only the row is highlighted. */
  lemma RowBeforeColumn()
    ensures var b := [X, X, X, X, O, O, X, O, O];
            FirstWinner(b) == Winner(X, [0, 1, 2]) && StatusOf(b, false) == Won(X) &&
            HighlightsFor(b) == [true, true, true, false, false, false, false, false, false]
  {
    var b := [X, X, X, X, O, O, X, O, O];
    FirstWinnerIsFirst(b, 0);
    TopRowHighlights();
  }

  /** The board X: 0, 1, 5, 6, 8 and O: 2, 3, 4, 7 is full without a line:
      a draw. */
  lemma FullBoardDraw()
    ensures StatusOf([X, X, O, O, O, X, X, O, X], true) == Draw
  {
    NoLineNoWinner([X, X, O, O, O, X, X, O, X]);
  }

  /** The first move of a game is always accepted and completes no line. */
  lemma OpeningMove(i: nat)
    requires i < 9
    ensures Legal(Initial, i) && FirstWinner(EmptyBoard[i := X]) == NoWinner
    ensures Play(Initial, i, X) == Snapshot(EmptyBoard[i := X], NoHighlights, Some(i))
  {
    EmptyBoardUndecided();
    var b := EmptyBoard[i := X];
    forall j | 0 <= j < |Lines| ensures !LineWon(b, j) {
      LineShape(j);
    }
  }

  /** A second click on the same cell is ignored. */
  method OccupiedIgnored() returns (length: nat, xToMove: bool)
    ensures length == 2 && !xToMove
  {
    var g := new Game();
    OpeningMove(4);
    g.HandleClick(4);
    g.HandleClick(4);
    length, xToMove := |g.history|, g.xIsNext;
  }

  /** Jumping back to the start and playing elsewhere replaces the move
      that was undone: the history again holds two snapshots, and the
      second has X on the new cell and nothing on the old one. */
  method RewriteFirstMove() returns (length: nat, newCell: Cell, oldCell: Cell)
    ensures length == 2 && newCell == X && oldCell == Empty
  {
    var g := new Game();
    OpeningMove(4);
    g.HandleClick(4);
    g.JumpTo(0);
    OpeningMove(0);
    g.HandleClick(0);
    length, newCell, oldCell := |g.history|, g.history[1].squares[0], g.history[1].squares[4];
  }

  /** Three moves, a jump back to step 1 and a move elsewhere: the two later
      snapshots are dropped, the history ends with the new move, and the
      undone X on cell 1 is gone. */
  method TimeTravel() returns (length: nat, step: nat, undone: Cell, played: Cell)
    ensures length == 3 && step == 2 && undone == Empty && played == O
  {
    var g := new Game();
    OpeningMove(0);
    CentreOpening();
    ThirdMove();
    var s1 := Snapshot([X, Empty, Empty, Empty, Empty, Empty, Empty, Empty, Empty], NoHighlights, Some(0));
    var s2 := Snapshot([X, Empty, Empty, Empty, O, Empty, Empty, Empty, Empty], NoHighlights, Some(4));
    g.HandleClick(0);
    assert g.stepNumber == 1 && g.history[1] == s1;
    g.HandleClick(4);
    assert g.stepNumber == 2 && g.history[2] == s2;
    g.HandleClick(1);
    assert g.stepNumber == 3 && g.history[1] == s1;
    g.JumpTo(1);
    g.HandleClick(8);
    assert g.history[2].squares == s1.squares[8 := O];
    length, step := |g.history|, g.stepNumber;
    undone, played := g.history[2].squares[1], g.history[2].squares[8];
  }
}
