# Tic-tac-toe game logic, modelled and verified in Dafny

This project models the game logic of the tic-tac-toe app of `src/index.js`:

- **Win and draw detection** (`calculateWinner`, `calculateFull`). The
  winner scan visits the eight lines in a fixed order (rows top to bottom,
  columns left to right, then the two diagonals). It reports the mark and
  the cells of the first complete line. The fullness test reports whether
  no cell is empty.
- **The `Game` component's state machine**:
  - the state fields `history`, `stepNumber`, `xIsNext` and
    `showHistoryReverse`;
  - the click handler `handleClick`, which ignores a click after a win or
    on an occupied cell, and otherwise drops the "future" snapshots and
    appends a new one with the mark placed and the winning line
    highlighted;
  - the history navigation `jumpTo`;
  - the order toggle `handleHistoryReverseClick`.
- **What `render` derives from that state**, apart from markup:
  - the status line (winner, otherwise draw, otherwise next player);
  - the move-list labels, oldest or newest first;
  - the selected entry;
  - the caption of the order button.

Files:

- `win_detection.dfy`, module `WinDetection`:
  - the board, the eight lines, and the scan as a specification function
    (`FirstWinner`);
  - the index loop of the source (`CalculateWinner`), proved equal to it;
  - the fullness predicate and its loop (`CalculateFull`).
- `game_state.dfy`, module `GameState`:
  - snapshots, and the history invariant `ValidHistory`;
  - `PlaceMark`, the array-copy-and-write step of the click handler;
  - the class `Game`, whose fields are the component's state and whose
    methods are the three handlers. Every handler keeps the object
    invariant `Valid()`.
- `decimal.dfy`, module `Decimal`: decimal text of a natural number, as
  JavaScript's string concatenation prints it, and its parser.
- `render.dfy`, module `Render`:
  - the status and its text;
  - the move labels and a parser for them (a round-trip partner);
  - the displayed move list and `RenderView`.
- `scenarios.dfy`, module `Scenarios`: concrete games.
  - The top-row win 0, 4, 1, 3, 2.
  - A full board without a line is a draw.
  - A board with two complete lines reports the one scanned first.
  - A click on an occupied cell is ignored.
  - Jumping back and playing elsewhere drops the later snapshots.

Correspondences:

- A `null` cell of the source is `Empty`. The truthiness test
  `squares[a]` is `squares[a] != Empty`.
- The pair `[winner, line]` of `calculateWinner` is the datatype
  `Outcome`, and `[null, null]` is `NoWinner`.
- `setState` is one atomic assignment of the fields it names.

### The history invariant

`ValidHistory` says:

- the history starts with the empty board, nothing highlighted and no
  last move;
- every later snapshot differs from its predecessor in exactly the cell of
  its `lastMove`;
- that cell was empty and holds the mark of the player whose turn it was
  (X on even steps);
- the predecessor had no winner;
- the highlights of every snapshot are set exactly on the cells of the
  winning line the scan reports for its board, and are all clear when
  there is none.

`Game.Valid()` adds `stepNumber < |history|` and
`xIsNext == (stepNumber % 2 == 0)`.

From the invariant the model proves:

- a snapshot at step `k` has `k` marks, so the history never holds more
  than ten snapshots;
- a winner shown at step `k` is the player who moved at step `k - 1`;
- a draw is shown only at step 9.

### Scan order matters in real games

It is tempting to assume that a legal game can never complete two lines at
once, so that the scan order would not matter. It can:

- X on 1, 2, 3, 6 and O on 4, 5, 7, 8 has no complete line.
- X then plays 0 and completes the top row and the left column at once.

The model follows the code. The scan reports the row, which it visits
first, and only the row is highlighted (`Scenarios.RowBeforeColumn`,
whose board is exactly this one).

## Model

| member | source | states |
|---|---|---|
| WinDetection.LineShape | src/index.js:162-171 | each of the eight lines is three different indices of the 3x3 board |
| WinDetection.LinesDistinct | src/index.js:162-171 | no line appears twice in the table |
| WinDetection.FirstWonExists | src/index.js:172-177 | if any line is complete, a first complete line in scan order exists |
| WinDetection.FirstWonUnique | src/index.js:172-177 | the first complete line in scan order is unique |
| WinDetection.FirstWinner | src/index.js:161-179 | no winner exactly when no line is complete; otherwise the mark is non-empty and sits on all three cells of the reported line |
| WinDetection.FirstWinnerIsFirst | src/index.js:172-177 | the scan reports line `j` if and only if `j` is complete and no earlier line in row, column, diagonal order is |
| WinDetection.NoLineNoWinner | src/index.js:172-178 | when each of the eight lines is individually incomplete the scan returns no winner |
| WinDetection.CalculateWinner | src/index.js:161-179 | the index loop with early return computes exactly `FirstWinner` |
| WinDetection.CalculateFull | src/index.js:181-188 | the loop returns true if and only if no cell is empty (`IsFull`), and when false an empty cell exists |
| WinDetection.EmptyBoardUndecided | src/index.js:53 | the starting board has no winner and is not full |
| Decimal.DigitChar | src/index.js:111 | a digit value maps to a character between '0' and '9' |
| Decimal.NatToString | src/index.js:111 | the decimal text of a number is non-empty, all digits, without a leading zero, and one character long exactly for numbers below ten |
| Decimal.ParseNatToString | src/index.js:111 | parsing the decimal text of `n` gives `n` back |
| Decimal.NatToStringInjective | src/index.js:111 | different numbers print differently |
| GameState.Mark | src/index.js:73 | the mark placed is X when `xIsNext`, otherwise O, never empty |
| GameState.Alternates | src/index.js:87 | consecutive steps have opposite parity and different marks |
| GameState.HighlightsFor | src/index.js:74-79 | the highlight bits a board calls for are set exactly on the cells of the line the scan reports |
| GameState.InitialConsistent | src/index.js:52-56 | the initial snapshot's highlights are the all-false ones its empty board calls for |
| GameState.ValidPrefix | src/index.js:64 | every non-empty prefix of a valid history is valid, so truncating at the current step keeps the invariant |
| GameState.ValidAt | src/index.js:52-56 | in a valid history entry 0 is the initial snapshot, every entry is consistent, and each later one follows its predecessor by one move of the right player |
| GameState.PlayPreserves | src/index.js:66-85 | the snapshot `Play` builds for a legal move from a consistent snapshot is consistent (highlights exactly its winning line) and follows it by one write of the mark into an empty cell |
| GameState.Filled | src/index.js:73 | the count of marks never exceeds the board size |
| GameState.FilledUpdate | src/index.js:73 | filling an empty cell adds exactly one mark |
| GameState.FilledNone | src/index.js:53 | a board of empty cells has no marks |
| GameState.FilledAtStep | src/index.js:63-89 | snapshot `k` of a valid history carries exactly `k` marks |
| GameState.HistoryBound | src/index.js:63-89 | a valid history holds at most ten snapshots |
| GameState.AppendMove | src/index.js:64-88 | truncating after the current step and appending the snapshot of a legal move keeps the history valid |
| GameState.PlaceMark | src/index.js:66-84 | copying the board and highlights, writing the mark and running the highlight loop over the new winning line yields exactly the snapshot `Play` describes, whose highlights are the old bits with the line's bits set (`SetLine`) |
| GameState.Game.Current | src/index.js:106 | the snapshot on display is consistent |
| GameState.Game.constructor | src/index.js:49-61 | the new game holds one empty snapshot, X to move, ascending order, and satisfies the invariant |
| GameState.Game.HandleClick | src/index.js:63-89 | when the move is not `Legal` (a winner already, or cell `i` occupied) nothing changes; otherwise the history is the old prefix up to the current step plus the new snapshot, the step advances by one, the turn flips, and the invariant holds |
| GameState.Game.JumpTo | src/index.js:97-102 | the pointer moves to `step`, the turn is X exactly on even steps, the history is untouched, and the invariant holds |
| GameState.Game.HandleHistoryReverseClick | src/index.js:91-95 | only the order flag changes, and it flips; the invariant holds |
| Render.StatusOf | src/index.js:127-134 | a win exactly when the scan finds a line, with its mark; a draw exactly when there is no line and the board is full; otherwise the next player from `xIsNext`, and an empty cell exists |
| Render.StatusTextInjective | src/index.js:129-133 | the status texts (`StatusText`, with `MarkText` for the mark) of different statuses differ |
| Render.ParseMoveLabel | src/index.js:110-112 | a label built from a move number and a 1-based row and column reads back as that move and cell |
| Render.LabelRoundTrip | src/index.js:110-113 | the label text `MoveLabel` builds reads back: the start label as the game start, the label of move `m` onto cell `c` as `m` and `c` |
| Render.LabelsDistinct | src/index.js:109-113 | `MoveLabel` gives entries with different move numbers different labels |
| Render.Reverse | src/index.js:123-125 | the reversed list has the same length with entry `k` taken from position `n - 1 - k` |
| Render.ReverseReverse | src/index.js:123-125 | reversing twice restores the list |
| Render.LabelAt | src/index.js:109-113 | in a valid history the label of entry `k > 0` reads back as move `k` onto the cell recorded as its last move |
| Render.LabelsDiffer | src/index.js:109-113 | two entries of a valid history never share a label |
| Render.LabelsFaithful | src/index.js:109-113 | the labels of a valid history (`Labels`): entry 0 is the start label, every later entry reads back as its move number and cell, and all labels differ |
| Render.MoveList | src/index.js:109-125 | the displayed list has one entry per snapshot, oldest first, or newest first when the flag is set |
| Render.ToggleReverses | src/index.js:91-95 | flipping the flag reverses the displayed list, and reversing that list again gives back the original |
| Render.FilledFull | src/index.js:181-188 | a board that `IsFull` has all its cells counted as marks |
| Render.WinnerMovedLast | src/index.js:69-73 | in a valid history a winner at step `k` is the player who moved at step `k - 1` |
| Render.StatusAtStep | src/index.js:127-134 | at step `k` a win names the player of step `k - 1`, a draw happens only at step 9, and otherwise the player of step `k` is next |
| Render.SelectedShowsStep | src/index.js:118-125 | the selected entry, at the step's position or its mirror when reversed (`DisplayIndex`), carries the label of the step on display |
| Render.OrderButtonToggles | src/index.js:136-138 | the order button's caption (`ReverseButtonText`) differs between the two orders |
| Render.RenderView | src/index.js:104-138 | the rendered move list has one entry per snapshot (at most ten), the selected entry shows the current step's label, and the status names the player who moved last, a draw only at step 9, or the player of the current step |
| Scenarios.TopRowHighlights | src/index.js:74-79 | marking the top row on clear highlights sets exactly cells 0, 1 and 2 |
| Scenarios.QuietMove | src/index.js:74-84 | a move after which there is no winner keeps the previous highlights |
| Scenarios.WinningMove | src/index.js:74-84 | a move completing a line sets that line's bits on top of the previous highlights |
| Scenarios.OpeningMove | src/index.js:63-89 | the first move is accepted anywhere and completes no line |
| Scenarios.CentreOpening | src/index.js:63-89 | X on 0 and O on 4 are accepted, with nothing highlighted |
| Scenarios.ThirdMove | src/index.js:63-89 | X on 1 is then accepted, with nothing highlighted |
| Scenarios.FourthMove | src/index.js:63-89 | O on 3 is then accepted and X may still move onto 2 |
| Scenarios.TopRowWin | src/index.js:63-134 | the moves 0, 4, 1, 3, 2 are all accepted, X wins, and exactly the top row is highlighted |
| Scenarios.RowBeforeColumn | src/index.js:172-177 | with both the top row and the left column complete the scan reports the row and only it is highlighted |
| Scenarios.FullBoardDraw | src/index.js:127-134 | X on 0, 1, 5, 6, 8 and O on 2, 3, 4, 7 is a draw |
| Scenarios.OccupiedIgnored | src/index.js:69-72 | a second click on the same cell leaves two snapshots and O to move |
| Scenarios.RewriteFirstMove | src/index.js:63-102 | jumping to the start and playing elsewhere leaves two snapshots, with the new cell marked and the old one empty |
| Scenarios.TimeTravel | src/index.js:63-102 | after three moves, a jump to step 1 and a move, the history holds three snapshots, the undone move is gone and the new one is present |

## Left out

- The `Square` and `Board` components, the JSX of `render`, `ReactDOM.render` and the CSS import (src/index.js:1-46 and 192-195). They are presentation and framework plumbing. The move list is modelled as its sequence of label texts, the selected entry as its position, and the order button as its caption.
- React's asynchronous, batched `setState`. Each handler is modelled as one atomic update of the fields it names.
- The `key` and `className` attributes of the move-list items. They appear only as `DisplayIndex`, the position of the selected entry.
- GameState.Game.HandleClick: requires the cell index to be below 9. The board only ever passes 0 to 8. With a larger index, JavaScript would write past the end of the copied array and grow it, and the model does not follow that.
- GameState.Game.JumpTo: requires `step < |history|`. The move list only offers existing steps, and the source defines nothing for other values.
- Render.MoveLabel: the source computes the row and column from `lastMove` with floating-point division and `Math.floor`. For the indices 0 to 8 this is integer division and remainder, which the model uses. A `null` last move counts as 0, as JavaScript arithmetic treats it. A valid history has `null` only in entry 0, whose label is the start label.
- The array `moves.reverse()` in `render` reverses a fresh array in place. The model reverses the sequence of labels, which has the same result, since nothing else shares that array.
