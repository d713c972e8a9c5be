/** What the game's render derives from its state, apart from markup: the
    status line and the text of the move list, shown oldest first or, when
    the reverse flag is set, newest first. */
module Render {
  import opened WinDetection
  import opened GameState
  import opened Decimal

  datatype Status = Won(mark: Cell) | Draw | Next(mark: Cell)

  /** The status of a board: a winner when the scan finds a line, otherwise a
      draw when the board is full, otherwise the player to move. */
  function StatusOf(b: seq<Cell>, xIsNext: bool): (st: Status)
    requires |b| == 9
    ensures st.Won? <==> FirstWinner(b).Winner?
    ensures st.Won? ==> st.mark == FirstWinner(b).mark && st.mark != Empty
    ensures st.Draw? <==> FirstWinner(b).NoWinner? && IsFull(b)
    ensures st.Next? <==> FirstWinner(b).NoWinner? && exists j :: 0 <= j < 9 && b[j] == Empty
    ensures st.Next? ==> st.mark == Mark(xIsNext)
  {
    var w := FirstWinner(b);
    if w.Winner? then Won(w.mark)
    else if IsFull(b) then Draw
    else Next(Mark(xIsNext))
  }

  function MarkText(m: Cell): string
  {
    match m
    case X => "X"
    case O => "O"
    case Empty => ""
  }

  function StatusText(st: Status): string
  {
    match st
    case Won(m) => "Winner: " + MarkText(m)
    case Draw => "Draw"
    case Next(m) => "Next player: " + MarkText(m)
  }

  /** Different statuses of a game in progress or over read differently. */
  lemma StatusTextInjective(a: Status, b: Status)
    requires a.Won? || a.Next? ==> a.mark != Empty
    requires b.Won? || b.Next? ==> b.mark != Empty
    requires StatusText(a) == StatusText(b)
    ensures a == b
  {
    var t := StatusText(a);
    if a.Draw? || b.Draw? {
      assert |StatusText(a)| == 4 <==> a.Draw?;
      assert |StatusText(b)| == 4 <==> b.Draw?;
    } else {
      assert t[0] == StatusText(b)[0];
      assert |t| == |StatusText(b)|;
      assert t[|t| - 1] == StatusText(b)[|t| - 1];
    }
  }

  const StartLabel: string := "Go to game start"
  const MovePrefix: string := "Go to move #"

  /** The label of move-list entry `move`. The cell of the last move is shown
      as 1-based (row, column). A missing last move counts as 0, as
      JavaScript's arithmetic treats `null`; a valid history never has one
      past entry 0. */
  function MoveLabel(move: nat, lastMove: Option<nat>): string
  {
    if move == 0 then StartLabel
    else
      var c := if lastMove.Some? then lastMove.value else 0;
      MovePrefix + NatToString(move) + " (" + NatToString(c / 3 + 1) + "," + NatToString(c % 3 + 1) + ")"
  }

  /** What a label tells the reader: the game start, or a move number and
      the cell played. */
  datatype Entry = GameStart | MoveTo(move: nat, cell: nat)

  /** Reads a move-list label back. */
  function ParseLabel(s: string): Option<Entry>
  {
    if s == StartLabel then Some(GameStart)
    else if |s| >= |MovePrefix| + 7 && s[..|MovePrefix|] == MovePrefix then
      var n := ParseNat(s[|MovePrefix|..|s| - 6]);
      var row := DigitValue(s[|s| - 4]);
      var col := DigitValue(s[|s| - 2]);
      if n > 0 && 1 <= row <= 3 && 1 <= col <= 3 then Some(MoveTo(n, (row - 1) * 3 + (col - 1)))
      else None
    else None
  }

  /** A move label assembled from a move number and a 1-based row and
      column reads back as that move and the cell at that row and column. */
  lemma ParseMoveLabel(move: nat, row: nat, col: nat)
    requires move > 0 && 1 <= row <= 3 && 1 <= col <= 3
    ensures ParseLabel(MovePrefix + NatToString(move) + " (" + [DigitChar(row)] + "," + [DigitChar(col)] + ")") ==
      Some(MoveTo(move, (row - 1) * 3 + (col - 1)))
  {
    var digits := NatToString(move);
    var s := MovePrefix + digits + " (" + [DigitChar(row)] + "," + [DigitChar(col)] + ")";
    assert s == MovePrefix + digits + [' ', '(', DigitChar(row), ',', DigitChar(col), ')'];
    assert s[..|MovePrefix|] == MovePrefix;
    assert s[|MovePrefix|..|s| - 6] == digits;
    assert s != StartLabel by { assert |s| > |StartLabel|; }
    ParseNatToString(move);
  }

  /** The labels are faithful: the start label reads back as the game start,
      and the label of a move onto a board cell reads back as that move
      number and that cell. */
  lemma LabelRoundTrip(move: nat, lastMove: Option<nat>)
    requires move > 0 ==> lastMove.Some? && lastMove.value < 9
    ensures ParseLabel(MoveLabel(move, lastMove)) ==
      if move == 0 then Some(GameStart) else Some(MoveTo(move, lastMove.value))
  {
    if move > 0 {
      var c := lastMove.value;
      assert NatToString(c / 3 + 1) == [DigitChar(c / 3 + 1)];
      assert NatToString(c % 3 + 1) == [DigitChar(c % 3 + 1)];
      ParseMoveLabel(move, c / 3 + 1, c % 3 + 1);
    }
  }

  /** Labels of different entries differ. */
  lemma LabelsDistinct(m1: nat, l1: Option<nat>, m2: nat, l2: Option<nat>)
    requires m1 > 0 ==> l1.Some? && l1.value < 9
    requires m2 > 0 ==> l2.Some? && l2.value < 9
    requires m1 != m2
    ensures MoveLabel(m1, l1) != MoveLabel(m2, l2)
  {
    LabelRoundTrip(m1, l1);
    LabelRoundTrip(m2, l2);
  }

  function Reverse<T>(s: seq<T>): (r: seq<T>)
    ensures |r| == |s|
    ensures forall k :: 0 <= k < |s| ==> r[k] == s[|s| - 1 - k]
  {
    if s == [] then [] else Reverse(s[1..]) + [s[0]]
  }

  /** Reversing twice gives back the original order. */
  lemma ReverseReverse<T>(s: seq<T>)
    ensures Reverse(Reverse(s)) == s
  {
  }

  /** The labels of the history's entries, oldest first. */
  function Labels(h: seq<Snapshot>): (r: seq<string>)
    ensures |r| == |h|
    ensures forall k :: 0 <= k < |h| ==> r[k] == MoveLabel(k, h[k].lastMove)
  {
    seq(|h|, k requires 0 <= k < |h| => MoveLabel(k, h[k].lastMove))
  }

  /** Entry `k > 0` of a valid history is labelled with its move number
      and the cell its move was played on. */
  lemma LabelAt(h: seq<Snapshot>, k: nat)
    requires ValidHistory(h) && 0 < k < |h|
    ensures h[k].lastMove.Some? && ParseLabel(Labels(h)[k]) == Some(MoveTo(k, h[k].lastMove.value))
  {
    ValidAt(h, k);
    LabelRoundTrip(k, h[k].lastMove);
  }

  /** Two entries of a valid history have different labels. */
  lemma LabelsDiffer(h: seq<Snapshot>, i: nat, j: nat)
    requires ValidHistory(h) && i < j < |h|
    ensures Labels(h)[i] != Labels(h)[j]
  {
    ValidAt(h, j);
    if i > 0 {
      ValidAt(h, i);
    }
    LabelsDistinct(i, h[i].lastMove, j, h[j].lastMove);
  }

  /** The labels of a valid history tell its story: entry 0 is the game
      start, every later entry reads back as its move number and the cell
      that move was played on, and no two entries share a label. */
  lemma LabelsFaithful(h: seq<Snapshot>)
    requires ValidHistory(h)
    ensures |h| > 0 && Labels(h)[0] == StartLabel
    ensures forall k :: 0 < k < |h| ==>
      h[k].lastMove.Some? && ParseLabel(Labels(h)[k]) == Some(MoveTo(k, h[k].lastMove.value))
    ensures forall i, j :: 0 <= i < j < |h| ==> Labels(h)[i] != Labels(h)[j]
  {
    ValidAt(h, 0);
    forall k | 0 < k < |h|
      ensures h[k].lastMove.Some? && ParseLabel(Labels(h)[k]) == Some(MoveTo(k, h[k].lastMove.value))
    {
      LabelAt(h, k);
    }
    forall i, j | 0 <= i < j < |h|
      ensures Labels(h)[i] != Labels(h)[j]
    {
      LabelsDiffer(h, i, j);
    }
  }

  /** The move list as displayed. */
  function MoveList(h: seq<Snapshot>, reverse: bool): (r: seq<string>)
    ensures |r| == |h|
    ensures forall k :: 0 <= k < |h| ==>
      r[k] == (if reverse then MoveLabel(|h| - 1 - k, h[|h| - 1 - k].lastMove) else MoveLabel(k, h[k].lastMove))
  {
    if reverse then Reverse(Labels(h)) else Labels(h)
  }

  /** Flipping the order flag reverses the displayed list, and reversing
      that again restores it. */
  lemma ToggleReverses(h: seq<Snapshot>, reverse: bool)
    ensures MoveList(h, !reverse) == Reverse(MoveList(h, reverse))
    ensures Reverse(MoveList(h, !reverse)) == MoveList(h, reverse)
  {
    ReverseReverse(MoveList(h, reverse));
    ReverseReverse(Labels(h));
  }

  /** A full board has all its cells counted. */
  lemma {:induction false} FilledFull(b: seq<Cell>)
    requires IsFull(b)
    ensures Filled(b) == |b|
  {
    if b != [] {
      FilledFull(b[..|b| - 1]);
    }
  }

  /** In a valid history a line completed at step `k` was completed by the
      move of step `k - 1`: the winner is the player who moved last. */
  lemma WinnerMovedLast(h: seq<Snapshot>, k: nat)
    requires ValidHistory(h) && k < |h| && |h[k].squares| == 9 && FirstWinner(h[k].squares).Winner?
    ensures k > 0 && FirstWinner(h[k].squares).mark == MarkAt(k - 1)
  {
    if k == 0 {
      ValidAt(h, 0);
      EmptyBoardUndecided();
    } else {
      ValidAt(h, k);
      var prev, b := h[k - 1].squares, h[k].squares;
      var p := h[k].lastMove.value;
      var w := FirstWinner(b);
      var j :| 0 <= j < |Lines| && w.line == Lines[j];
      LineShape(j);
      assert !LineWon(prev, j);
      var t :| 0 <= t < 3 && w.line[t] == p;
      assert b[p] == MarkAt(k - 1);
    }
  }

  /** The status the game shows at step `k` of a valid history: a win by the
      player who moved last, a draw only once all nine cells are played,
      otherwise the turn of X on even steps and of O on odd ones. */
  lemma {:induction false} StatusAtStep(h: seq<Snapshot>, k: nat, xIsNext: bool)
    requires ValidHistory(h) && k < |h| && |h[k].squares| == 9 && xIsNext == (k % 2 == 0)
    ensures StatusOf(h[k].squares, xIsNext).Won? ==>
      k > 0 && StatusOf(h[k].squares, xIsNext).mark == MarkAt(k - 1)
    ensures StatusOf(h[k].squares, xIsNext).Draw? ==> k == 9
    ensures StatusOf(h[k].squares, xIsNext).Next? ==>
      StatusOf(h[k].squares, xIsNext).mark == MarkAt(k) && k < 9
  {
    var b := h[k].squares;
    FilledAtStep(h, k);
    if FirstWinner(b).Winner? {
      WinnerMovedLast(h, k);
    } else if IsFull(b) {
      FilledFull(b);
    } else {
      var j :| 0 <= j < 9 && b[j] == Empty;
      FilledUpdate(b, j, X);
    }
  }

  /** The caption of the order button. */
  function ReverseButtonText(reverse: bool): string
  {
    if reverse then "Show history in desc" else "Show history in asc"
  }

  /** The caption tells the two orders apart, so flipping the flag always
      changes it. */
  lemma OrderButtonToggles(reverse: bool)
    ensures ReverseButtonText(!reverse) != ReverseButtonText(reverse)
  {
    assert ReverseButtonText(true)[18] != ReverseButtonText(false)[18];
  }

  /** The position in the displayed list of the entry for `step`, the one
      whose button is marked as selected. */
  function DisplayIndex(n: nat, step: nat, reverse: bool): (p: nat)
    requires step < n
    ensures p < n
    ensures reverse ==> p + step == n - 1
    ensures !reverse ==> p == step
  {
    if reverse then n - 1 - step else step
  }

  /** The selected button carries the label of the step on display, in
      either order. */
  lemma SelectedShowsStep(h: seq<Snapshot>, step: nat, reverse: bool)
    requires step < |h|
    ensures MoveList(h, reverse)[DisplayIndex(|h|, step, reverse)] == MoveLabel(step, h[step].lastMove)
  {
  }

  datatype View = View(status: Status, statusText: string, moves: seq<string>, selected: nat, orderButton: string)

  /** The text the game renders from its state: the status of the snapshot on
      display, the move list in the chosen order with the entry of the
      current step selected, and the caption of the order button. */
  function RenderView(g: Game): (v: View)
    reads g
    requires g.Valid()
    ensures |v.moves| == |g.history| <= 10
    ensures v.selected < |v.moves| && v.moves[v.selected] == MoveLabel(g.stepNumber, g.history[g.stepNumber].lastMove)
    ensures v.status.Won? ==> g.stepNumber > 0 && v.status.mark == MarkAt(g.stepNumber - 1)
    ensures v.status.Draw? ==> g.stepNumber == 9
    ensures v.status.Next? ==> v.status.mark == MarkAt(g.stepNumber)
  {
    var h, k := g.history, g.stepNumber;
    ValidAt(h, k);
    StatusAtStep(h, k, g.xIsNext);
    HistoryBound(h);
    SelectedShowsStep(h, k, g.showHistoryReverse);
    var st := StatusOf(h[k].squares, g.xIsNext);
    View(st, StatusText(st), MoveList(h, g.showHistoryReverse), DisplayIndex(|h|, k, g.showHistoryReverse),
         ReverseButtonText(g.showHistoryReverse))
  }
}
