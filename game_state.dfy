/** The game's state machine: a history of board snapshots, a pointer into
    it, whose turn it is, and the order in which the move list is shown.
    Each handler of the source's `Game` component is one atomic update of
    these fields.
 */
module GameState {
  import opened WinDetection

  datatype Option<T> = None | Some(value: T)

  /** One point in the game: the board, which cells are highlighted as part
      of a winning line, and the cell of the move that produced it. */
  datatype Snapshot = Snapshot(squares: seq<Cell>, highlights: seq<bool>, lastMove: Option<nat>)

  const NoHighlights: seq<bool> := [false, false, false, false, false, false, false, false, false]

  /** The single snapshot a new game starts with. */
  const Initial: Snapshot := Snapshot(EmptyBoard, NoHighlights, None)

  /** The mark the player to move places. */
  function Mark(xIsNext: bool): (m: Cell)
    ensures m != Empty
  {
    if xIsNext then X else O
  }

  /** Consecutive steps belong to different players. */
  lemma Alternates(step: nat)
    ensures ((step + 1) % 2 == 0) == (step % 2 != 0)
    ensures MarkAt(step + 1) != MarkAt(step)
  {
  }

  /** The mark placed by the move made at step `step`: X on even steps. */
  function MarkAt(step: nat): Cell
  {
    Mark(step % 2 == 0)
  }

  /** The highlight bits a board calls for: set exactly on the cells of the
      line the winner scan reports, all clear when there is none. */
  function HighlightsFor(b: seq<Cell>): (h: seq<bool>)
    requires |b| == 9
    ensures |h| == 9
    ensures forall j :: 0 <= j < 9 ==>
      (h[j] <==> FirstWinner(b).Winner? && j in FirstWinner(b).line)
  {
    var w := FirstWinner(b);
    if w.Winner? then SetLine(NoHighlights, w.line) else NoHighlights
  }

  /** A snapshot has nine cells, and its highlight bits are the ones its
      board calls for. */
  predicate Consistent(s: Snapshot)
  {
    |s.squares| == 9 && s.highlights == HighlightsFor(s.squares)
  }

  /** A move onto cell `i` is accepted: nobody has won yet and the cell is empty. */
  predicate Legal(s: Snapshot, i: nat)
    requires |s.squares| == 9 && i < 9
  {
    FirstWinner(s.squares).NoWinner? && s.squares[i] == Empty
  }

  /** `h` with the bits at the indices of `line` set. */
  function SetLine(h: seq<bool>, line: seq<nat>): (r: seq<bool>)
    ensures |r| == |h|
    ensures forall j :: 0 <= j < |h| ==> (r[j] <==> h[j] || j in line)
  {
    seq(|h|, j requires 0 <= j < |h| => h[j] || j in line)
  }

  /** The snapshot a legal move onto cell `i` with mark `m` appends: the board
      with `i` filled, the previous highlights with the new board's winning
      line (if any) set, and `i` as the last move. */
  function Play(s: Snapshot, i: nat, m: Cell): Snapshot
    requires |s.squares| == 9 && i < 9
  {
    var b := s.squares[i := m];
    var w := FirstWinner(b);
    Snapshot(b, if w.Winner? then SetLine(s.highlights, w.line) else s.highlights, Some(i))
  }

  /** `next` follows `prev` by one move with mark `m`: `prev` had no winner,
      and `next` differs from it in exactly one cell, the last move's, which
      was empty and now holds `m`. */
  predicate Follows(prev: Snapshot, next: Snapshot, m: Cell)
  {
    |prev.squares| == 9 && FirstWinner(prev.squares).NoWinner? &&
    next.lastMove.Some? && next.lastMove.value < 9 &&
    prev.squares[next.lastMove.value] == Empty &&
    next.squares == prev.squares[next.lastMove.value := m]
  }

  /** The history invariant: it starts with the initial snapshot, and each
      later snapshot is consistent and follows its predecessor by a move of
      the player whose turn it was (X on even steps). */
  predicate ValidHistory(h: seq<Snapshot>)
    decreases |h|
  {
    if |h| <= 1 then h == [Initial]
    else
      ValidHistory(h[..|h| - 1]) && Consistent(h[|h| - 1]) &&
      Follows(h[|h| - 2], h[|h| - 1], MarkAt(|h| - 2))
  }

  /** The initial snapshot is consistent: its board has no winning line and
      nothing is highlighted. */
  lemma InitialConsistent()
    ensures Consistent(Initial)
  {
    EmptyBoardUndecided();
  }

  /** Every non-empty prefix of a valid history is valid. */
  lemma {:induction false} ValidPrefix(h: seq<Snapshot>, n: nat)
    requires ValidHistory(h) && 1 <= n <= |h|
    ensures ValidHistory(h[..n])
    decreases |h|
  {
    if n < |h| {
      assert h[..|h| - 1][..n] == h[..n];
      ValidPrefix(h[..|h| - 1], n);
    } else {
      assert h[..n] == h;
    }
  }

  /** What a valid history says about each of its snapshots: the first is the
      initial one, each is consistent, and each later one follows its
      predecessor by a move of the player of that step. */
  lemma ValidAt(h: seq<Snapshot>, k: nat)
    requires ValidHistory(h) && k < |h|
    ensures h[0] == Initial
    ensures Consistent(h[k])
    ensures k > 0 ==> Follows(h[k - 1], h[k], MarkAt(k - 1))
  {
    ValidPrefix(h, k + 1);
    ValidPrefix(h, 1);
    assert h[..1][0] == h[0];
    if k == 0 {
      InitialConsistent();
    } else {
      var p := h[..k + 1];
      assert p[|p| - 1] == h[k] && p[|p| - 2] == h[k - 1];
    }
  }

  /** A legal move from a consistent snapshot yields a consistent snapshot
      that follows it: the previous highlights were all clear, so the new
      ones are exactly the new winning line. */
  lemma PlayPreserves(s: Snapshot, i: nat, m: Cell)
    requires Consistent(s) && i < 9 && Legal(s, i) && m != Empty
    ensures Consistent(Play(s, i, m))
    ensures Follows(s, Play(s, i, m), m)
  {
  }

  /** Number of non-empty cells of a board. */
  function Filled(b: seq<Cell>): (n: nat)
    ensures n <= |b|
  {
    if b == [] then 0 else Filled(b[..|b| - 1]) + (if b[|b| - 1] != Empty then 1 else 0)
  }

  /** Filling one empty cell adds one to the count of filled cells. */
  lemma {:induction false} FilledUpdate(b: seq<Cell>, i: nat, m: Cell)
    requires i < |b| && b[i] == Empty && m != Empty
    ensures Filled(b[i := m]) == Filled(b) + 1
  {
    var b' := b[i := m];
    if i < |b| - 1 {
      assert b'[..|b'| - 1] == b[..|b| - 1][i := m];
      FilledUpdate(b[..|b| - 1], i, m);
    } else {
      assert b'[..|b'| - 1] == b[..|b| - 1];
    }
  }

  /** A board with no marks has a count of zero. */
  lemma {:induction false} FilledNone(b: seq<Cell>)
    requires forall j :: 0 <= j < |b| ==> b[j] == Empty
    ensures Filled(b) == 0
  {
    if b != [] {
      FilledNone(b[..|b| - 1]);
    }
  }

  /** Snapshot `k` of a valid history has exactly `k` marks on its board. */
  lemma {:induction false} FilledAtStep(h: seq<Snapshot>, k: nat)
    requires ValidHistory(h) && k < |h|
    ensures Filled(h[k].squares) == k
  {
    ValidAt(h, k);
    if k == 0 {
      FilledNone(EmptyBoard);
    } else {
      FilledAtStep(h, k - 1);
      FilledUpdate(h[k - 1].squares, h[k].lastMove.value, MarkAt(k - 1));
    }
  }

  /** A valid history never holds more than ten snapshots (the empty board
      and one per cell). */
  lemma HistoryBound(h: seq<Snapshot>)
    requires ValidHistory(h)
    ensures |h| <= 10
  {
    if |h| > 10 {
      FilledAtStep(h, 10);
    }
  }

  /** Cutting a valid history after step `s` and appending the snapshot of a
      legal move by the player of step `s` gives a valid history. */
  lemma {:induction false} AppendMove(h: seq<Snapshot>, s: nat, i: nat, h': seq<Snapshot>)
    requires ValidHistory(h) && s < |h| && i < 9
    requires |h[s].squares| == 9 && Legal(h[s], i)
    requires h' == h[..s + 1] + [Play(h[s], i, MarkAt(s))]
    ensures ValidHistory(h')
  {
    ValidAt(h, s);
    ValidPrefix(h, s + 1);
    PlayPreserves(h[s], i, MarkAt(s));
    assert h'[..|h'| - 1] == h[..s + 1];
  }

  /** The new snapshot of a move, built as the click handler builds it: copy
      the current board and highlights into fresh arrays, write the mark into
      cell `i`, and, if the new board has a winning line, set the highlight
      bit of each of its cells. */
  method PlaceMark(current: Snapshot, i: nat, mark: Cell) returns (next: Snapshot)
    requires |current.squares| == 9 && |current.highlights| == 9 && i < 9
    ensures next == Play(current, i, mark)
  {
    var squares := new Cell[9](j requires 0 <= j < 9 => current.squares[j]);
    var highlights := new bool[9](j requires 0 <= j < 9 => current.highlights[j]);
    squares[i] := mark;
    assert squares[..] == current.squares[i := mark];
    var winning := CalculateWinner(squares[..]);
    if winning.Winner? {
      var lines := winning.line;
      for t := 0 to |lines|
        modifies highlights
        invariant forall j :: 0 <= j < 9 ==>
          (highlights[j] <==> current.highlights[j] || j in lines[..t])
      {
        highlights[lines[t]] := true;
        assert lines[..t + 1] == lines[..t] + [lines[t]];
      }
      assert lines[..|lines|] == lines;
      assert highlights[..] == SetLine(current.highlights, lines);
    } else {
      assert highlights[..] == current.highlights;
    }
    next := Snapshot(squares[..], highlights[..], Some(i));
  }

  class Game {
    var history: seq<Snapshot>
    var stepNumber: nat
    var xIsNext: bool
    var showHistoryReverse: bool

    /** The object invariant: a valid history, a pointer into it, and the
        turn derived from the pointer (X on even steps). */
    ghost predicate Valid()
      reads this
    {
      ValidHistory(history) && stepNumber < |history| && xIsNext == (stepNumber % 2 == 0)
    }

    /** The snapshot on display. */
    function Current(): (s: Snapshot)
      reads this
      requires Valid()
      ensures Consistent(s)
    {
      ValidAt(history, stepNumber);
      history[stepNumber]
    }

    /** A new game: one empty snapshot, X to move, history shown in
        ascending order. */
    constructor ()
      ensures Valid()
      ensures history == [Initial] && stepNumber == 0 && xIsNext && !showHistoryReverse
    {
      history := [Initial];
      stepNumber := 0;
      xIsNext := true;
      showHistoryReverse := false;
      new;
    }

    /** A click on cell `i`. Ignored after a win or on an occupied cell;
        otherwise the history after the current step is discarded and the
        snapshot with the current player's mark on `i` is appended. */
    method HandleClick(i: nat)
      requires Valid() && i < 9
      modifies this
      ensures Valid()
      ensures showHistoryReverse == old(showHistoryReverse)
      ensures var cur := old(Current());
        if Legal(cur, i) then
          history == old(history[..stepNumber + 1]) + [Play(cur, i, Mark(old(xIsNext)))] &&
          stepNumber == old(stepNumber) + 1 && xIsNext == !old(xIsNext)
        else
          history == old(history) && stepNumber == old(stepNumber) && xIsNext == old(xIsNext)
    {
      var h, k, mark := history, stepNumber, Mark(xIsNext);
      ValidAt(h, k);
      var past := h[..k + 1];
      var current := past[|past| - 1];
      assert current == h[k];
      var winner := CalculateWinner(current.squares);
      if winner.Winner? || current.squares[i] != Empty {
        return;
      }
      var next := PlaceMark(current, i, mark);
      var extended := past + [next];
      AppendMove(h, k, i, extended);
      Alternates(k);
      history, stepNumber, xIsNext := extended, |past|, !xIsNext;
    }

    /** A click on the history entry `step`: moves the pointer there and
        re-derives whose turn it is; the history is untouched. */
    method JumpTo(step: nat)
      requires Valid() && step < |history|
      modifies this
      ensures Valid()
      ensures history == old(history) && showHistoryReverse == old(showHistoryReverse)
      ensures stepNumber == step && xIsNext == (step % 2 == 0)
    {
      stepNumber := step;
      xIsNext := step % 2 == 0;
    }

    /** A click on the order button: flips the display order of the move
        list and nothing else. */
    method HandleHistoryReverseClick()
      requires Valid()
      modifies this
      ensures Valid()
      ensures showHistoryReverse == !old(showHistoryReverse)
      ensures history == old(history) && stepNumber == old(stepNumber) && xIsNext == old(xIsNext)
    {
      showHistoryReverse := !showHistoryReverse;
    }
  }
}
