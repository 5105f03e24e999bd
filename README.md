# 2048 engine and history log, modelled in Dafny

This project models two parts of a Python 2048 game.

- The game engine of `src/logic.py`:
  - tile spawning (`add_two`, `new_game`);
  - the end-of-game classifier `game_state` (1 win, 0 ongoing, -1 lost);
  - the grid transforms `reverse` and `transpose`;
  - the two move primitives `cover_up` (slide the tiles of every row to the
    left) and `merge` (one left-to-right pass that doubles equal neighbours);
  - the four moves `up`, `down`, `left` and `right`, each built as
    transform, `cover_up`, `merge`, `cover_up`, inverse transform.
- The move log of `src/history.py`, class `History`:
  - a game is a text file with one line per board snapshot (16 integers
    separated by spaces, row by row);
  - the move letters are buffered in memory and written as a last line,
    with no separator, when the log is closed;
  - in read mode the boards are parsed back and the last line gives the moves.

The engine works on boards as two-dimensional arrays (`array2<int>`), as the
numpy code does. `game_state`, `reverse`, `transpose`, `cover_up` and
`merge` are methods with the source's loops and their loop invariants, and
the four moves are methods composing them. Each of these is proved against
a specification function on `Grid = seq<seq<int>>`: `Cells(m)` is the grid
an array holds. `AddTwo` (no loop: the random retry becomes a choice of an
empty cell) and `NewGame` state their results directly on the array's
cells.

Modules:
- `Rows` (`rows.dfy`): one row. `Slide` is what `cover_up` does to a row;
  `Sweep` is what `merge` does, one merge step at a time; `MoveRow` is a
  whole left move. Lemmas give their meaning: order kept, total kept,
  idempotence, when the `done` flag is set, and the closed form of a move.
- `Grids` (`grids.dfy`): grids, `Mirror`/`Reversed`/`Transposed`, the board
  total, the board invariant `BoardOk` (every cell is 0 or a power of two of
  at least 2) and the predicates `game_state` asks about.
- `Moves` (`moves.dfy`): the four moves on grids and their laws.
- `Logic` (`logic.dfy`): the imperative engine on arrays.
- `Text` (`text.dfy`): what the log relies on from Python's text handling:
  - `readlines` (`Lines`), which keeps each `"\n"` and also yields a last
    line with no `"\n"`;
  - `str.split()` on whitespace (`Split`);
  - `int()` (`ParseInt`), with an optional sign and ASCII digits;
  - `list()` of a string (`Chars`);
  - indexing a list, negative indices included (`PyIndex`).
- `HistoryLog` (`history.dfy`): the `History` class, with the file held as
  its text, plus the demonstration at the end of `src/history.py`.
- `Wrappers` (`wrappers.dfy`): `Option`, `Result` and `Outcome`.

An exception the source raises is modelled as a `Failure`/`Fail` value
carrying a `HistoryError`. A call that raises leaves the object unchanged.

## Model

| member | source | states |
|---|---|---|
| Rows.SumSlide | src/logic.py:85-96 | sliding a row's tiles left keeps the row's total |
| Rows.NonZeroSlide | src/logic.py:85-96 | after `cover_up` a row holds the same tiles in the same order (its non-zero values are unchanged) |
| Rows.SlideIdempotent | src/logic.py:85-96 | sliding twice is the same as sliding once, and a slid row never sets `done` again |
| Rows.ShiftsIff | src/logic.py:91-95 | `cover_up` sets `done` for a row exactly when some tile ends at a different column, i.e. exactly when the row changes |
| Rows.SumSweep | src/logic.py:98-105 | the merge pass keeps the row's total (the doubled cell absorbs the zeroed one) |
| Rows.SweepMergesIff | src/logic.py:98-105 | the merge pass sets `done` for a row exactly when it changes the row |
| Rows.SweepCount | src/logic.py:98-105 | the merge pass never adds tiles, and removes at least one whenever it fires |
| Rows.SweepStep | src/logic.py:100-104 | one iteration of the merge loop at column j keeps the final result of the sweep (finished prefix plus the sweep of the rest); an iteration that does not fire changes nothing and adds nothing to the flag |
| Rows.MergeStepsInvariant | src/logic.py:99-104 | after j steps of the inner loop, the finished prefix agrees with the whole pass, and the flag so far combined with the rest of the pass gives the pass's flag |
| Rows.MergeStepsSweep | src/logic.py:99-104 | running the inner loop to the end gives the pass and its flag |
| Rows.SweepCollapse | src/logic.py:98-105 | on a slid row, the merge pass leaves the tiles in pairwise-merged order, with no cascading |
| Rows.SumMoveRow | src/logic.py:129-136 | a whole left move keeps the row's total |
| Rows.MoveRowCollapse | src/logic.py:129-136 | a left move on a row gives its tiles pairwise merged from the left, then zeros |
| Rows.MoveRowDoneIff | src/logic.py:129-136 | a left move's flag is set exactly when the row changes |
| Rows.CollapseOk | src/logic.py:98-105 | pairing equal tiles from the left and doubling each pair, on tiles that are powers of two of at least 2, gives only such tiles |
| Rows.MoveRowOk | src/logic.py:129-136 | on a row whose cells are all empty or powers of two of at least 2, a left move keeps that so |
| Grids.ReversedTwice | src/logic.py:62-68 | `reverse` undoes itself |
| Grids.TransposedTwice | src/logic.py:71-77 | `transpose` undoes itself on a square board |
| Grids.TotalReversed | src/logic.py:62-68 | `reverse` keeps the board's total |
| Grids.TotalTransposed | src/logic.py:71-77 | `transpose` keeps the board's total |
| Grids.SpawnOk | src/logic.py:24-31 | writing 2 into one cell, with every other cell unchanged, keeps the board invariant (every cell empty or a power of two of at least 2) |
| Moves.SlideAllIdempotent | src/logic.py:85-96 | `cover_up` applied to its own output gives the same board and `done = false` |
| Moves.MoveLeftTiles | src/logic.py:129-136 | every row after `left` is its tiles pairwise merged from the left, then zeros |
| Moves.MoveLeftTotal | src/logic.py:129-136 | `left` keeps the board's total |
| Moves.MoveLeftChanged | src/logic.py:129-136 | the flag `left` returns is set exactly when the board changes |
| Moves.LeftExample | src/logic.py:129-136 | `left` on a board whose first row is 2 2 0 0 and is otherwise empty gives 4 0 0 0 in that row and `done = true` |
| Moves.NoCascadeExample | src/logic.py:98-105 | 2 2 4 0 moves left to 4 4 0 0: the new 4 does not merge again |
| Moves.MoveRightTotal | src/logic.py:138-147 | `right` keeps the board's total |
| Moves.MoveRightChanged | src/logic.py:138-147 | the flag `right` returns is set exactly when the board changes |
| Moves.MoveUpTotal | src/logic.py:107-116 | `up` keeps the board's total |
| Moves.MoveUpChanged | src/logic.py:107-116 | the flag `up` returns is set exactly when the board changes |
| Moves.MoveDownTotal | src/logic.py:118-127 | `down` keeps the board's total |
| Moves.MoveDownChanged | src/logic.py:118-127 | the flag `down` returns is set exactly when the board changes |
| Moves.MoveLeftOk | src/logic.py:129-136 | `left` keeps the board invariant: every cell empty or a power of two of at least 2 |
| Moves.MoveRightOk | src/logic.py:138-147 | `right` keeps the board invariant |
| Moves.MoveUpOk | src/logic.py:107-116 | `up` keeps the board invariant |
| Moves.MoveDownOk | src/logic.py:118-127 | `down` keeps the board invariant |
| Logic.AddTwo | src/logic.py:24-31 | on a square board with an empty cell, exactly one empty cell becomes 2 and every other cell is unchanged, so the board invariant is kept |
| Logic.NewGame | src/logic.py:17-21 | an n-by-n board with exactly two distinct cells holding 2 and zeros elsewhere, which satisfies the board invariant |
| Logic.Contains | src/logic.py:37-45 | the nested scan finds `v` exactly when some cell holds it |
| Logic.Touching | src/logic.py:47-58 | the three adjacency loops find a pair exactly when two horizontally or vertically adjacent cells are equal |
| Logic.GameState | src/logic.py:34-59 | 1 exactly when some cell is 2048; -1 exactly when there is no 2048, no empty cell and no equal adjacent pair; 0 otherwise |
| Logic.Reverse | src/logic.py:62-68 | a fresh board of the same shape holding every row mirrored |
| Logic.Transpose | src/logic.py:71-77 | a fresh board holding the transpose of a square board |
| Logic.CoverRow | src/logic.py:89-95 | the inner loop of `cover_up` writes the row's slid form and reports whether some tile moved |
| Logic.CoverUp | src/logic.py:85-96 | a fresh board holding every row slid, with `done` exactly when some row has a tile that moved |
| Logic.MergePair | src/logic.py:101-104 | one step of the merge loop on one row, and whether it fired |
| Logic.MergeRow | src/logic.py:100-104 | the inner merge loop leaves the row swept, touches no other row, and sets the flag when it fires |
| Logic.Merge | src/logic.py:98-105 | the board is swept row by row in place, and the flag is the input flag or some row merged |
| Logic.Up | src/logic.py:107-116 | the result and flag of the composed up move on the grid model |
| Logic.Down | src/logic.py:118-127 | the result and flag of the composed down move on the grid model |
| Logic.Left | src/logic.py:129-136 | the result and flag of the composed left move on the grid model |
| Logic.Right | src/logic.py:138-147 | the result and flag of the composed right move on the grid model |
| Text.LinesConcat | src/history.py:66 | `readlines` loses nothing: joining the lines gives the text back |
| Text.LinesEndings | src/history.py:66 | every line is non-empty, every line but the last ends in a newline, and no line has a newline before its end |
| Text.LinesOfLines | src/history.py:54 | text made of newline-terminated lines reads back as those lines |
| Text.SplitJoin | src/history.py:69 | words joined by single spaces split back into the same words |
| Text.IntRoundTrip | src/history.py:69 | `int()` of an integer's decimal text is that integer, negatives included |
| Text.CharsConcat | src/history.py:30 | `list()` of the joined one-letter moves gives the moves back |
| Text.PyIndexFromEnd | src/history.py:68 | list indexing reaches each element at its position and at its position minus the length, succeeds exactly on those indices, and always lands on the element at the index modulo the length |
| HistoryLog.BoardRoundTrip | src/history.py:51-54 | a 4x4 board written by `saveMatrix` parses back, by `loadMatrix`, to the same board |
| HistoryLog.LogLines | src/history.py:54 | a log of saved boards reads back as one line per board, in order |
| HistoryLog.ClosedLogLines | src/history.py:96 | the moves written by `close` are one extra line after the boards, or no line when there are no moves |
| HistoryLog.ClosedLogReads | src/history.py:30 | a log closed with one-letter moves reads back as the boards' lines plus the moves' line, whose characters are the moves |
| HistoryLog.ReopenWithoutMoves | src/history.py:32 | closed with no moves, a log of k boards counts k-1 boards and its last board is taken as the moves line |
| HistoryLog.History.Open | src/history.py:12-43 | a bad mode is refused; write mode starts empty with zero counters; read mode fails on a missing or empty file and otherwise takes the moves from the last line and counts the other lines as boards |
| HistoryLog.History.SaveMatrix | src/history.py:46-55 | refused in read mode; otherwise one encoded board line is appended and the board count goes up by one, with the moves untouched |
| HistoryLog.History.LoadMatrix | src/history.py:58-73 | refused in write mode; no board at or past the count; otherwise line `index` parsed into a board |
| HistoryLog.History.SaveMove | src/history.py:76-81 | refused in read mode; otherwise the move is appended to the buffer and the move count goes up by one, with the file untouched |
| HistoryLog.History.ReadMoves | src/history.py:83-91 | refused in write mode; an empty file fails; otherwise the file's last line |
| HistoryLog.History.Close | src/history.py:93-97 | the buffered moves are appended after the last snapshot with no separator, and the file is closed |
| HistoryLog.Record | src/history.py:110-124 | saving every board, each followed by its move while moves remain, and closing leaves the file text as the boards' log followed by the joined moves |
| HistoryLog.Replay | src/history.py:126-134 | reopening such a file gives the board count, the moves, and every board back, with no board at the count |
| HistoryLog.RecordAndReplay | src/history.py:107-134 | write k boards and between 1 and k one-letter moves (k as in the demonstration, or k-1 as in a played game), close and reopen: the count is k, every board loads back unchanged under the modelled encoding, one past the last loads as none, and the moves read back are the moves saved |

## Left out

- `GRID_LEN` comes from `constants.py`, which is not part of this model. It is taken as 4, the size `loadMatrix` reshapes to.
- The `timer` decorator, the `print` calls in the moves and in `History`, and `date_filename` read the clock or print. They are not modelled.
- `src/replay.py`, `replay.py` and `src/model.py` (the Tkinter viewer and the learning agent) are not part of this model.
- Logic.AddTwo: the source retries random cells until one is empty. The model picks any empty cell and requires that one exists, since the source's loop never ends on a full board.
- Logic.NewGame: requires `n >= 2`. For `n == 0` the source raises, because `random.randint(0, -1)` has an empty range; for `n == 1` the second `add_two` finds no empty cell and loops forever. Neither case is modelled.
- Logic.Merge: numpy's 64-bit integers are modelled as unbounded, so doubling a tile never wraps around.
- Logic.Transpose: the source builds a new board of the input's shape and so only works on square boards; the model requires a square board.
- Logic.CoverUp: the moves require a 4-by-4 board, because `cover_up` and `merge` loop over `GRID_LEN` whatever the board's size.
- File access is modelled on the file's text. Path building, the `.txt` suffix, `os.remove` of an old file and `open` are not modelled. `History.Open` receives the file's content as an `Option` (none when the file is missing).
- HistoryLog.EncodeBoard: numpy's `str()` of a board is modelled as the 16 integers separated by single spaces. numpy's column padding and its line wrapping at 75 characters are not modelled. With any tile of 1024 or more numpy prints every cell 4 characters wide, which makes the board 81 characters long, so numpy writes it over two lines; every board of the demonstration at the end of `src/history.py` holds 1024 and 2048, so with numpy's real formatting that demonstration would not read its boards back. The round trip proved here holds for the modelled encoding only.
- Text.ParseInt: Python's `int()` also accepts surrounding whitespace, `_` separators and non-ASCII digits; only an optional sign followed by ASCII digits is modelled, which covers what `str.split()` yields from a saved board.
- Text.Lines: only `"\n"` ends a line; the universal-newline translation of `"\r"` and `"\r\n"` that Python applies when reading a text file is not modelled.
- HistoryLog.ParseBoard: numpy's `reshape(4, 4)` raises for a line without exactly 16 numbers; the model reports `WrongShape` for any count other than 16, without the numpy message.
- HistoryLog.RecordAndReplay: stated for at least one move and no more moves than boards, each board followed by its move while moves remain. With no moves at all the file no longer reads back that way, which `ReopenWithoutMoves` states. Its boards come back unchanged only under the modelled single-space encoding (see EncodeBoard above).
- The demonstration passes plain nested lists to `saveMatrix`, where `np.matrix.flatten` expects a numpy array and may refuse a list. The model takes the demonstration's lists as boards and does not model that call's behaviour on a list.
