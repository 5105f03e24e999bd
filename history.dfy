/** The move history of a game (history.py): board snapshots written one
    per line as 16 integers separated by spaces, moves buffered in memory and
    written by `close` as one final line of letters, and the read side that
    parses the lines back. The file is modelled as the text it holds. */
module HistoryLog {
  import opened Wrappers
  import opened Text
  import opened Grids

  /** The side of the boards `loadMatrix` reshapes to. */
  const Side := 4

  /** What makes an operation of the log raise. */
  datatype HistoryError =
    | BadMode         // the mode is neither "r" nor "w"
    | FileMissing     // opening a file for reading that does not exist
    | EmptyLog        // the assertion that the file holds at least one line
    | ModeViolation   // an operation the current mode forbids
    | ClosedFile      // writing to the file after `close`
    | NotWritable     // writing to a file opened for reading
    | IndexOutOfRange // a list index past either end
    | NotANumber      // `int()` on a token that is not an integer
    | WrongShape      // `reshape(4, 4)` on a count other than 16

  datatype Mode = Read | Write

  // ---------------------------------------------------------------------
  // One board on one line

  /** The cells of a board in row-major order. */
  function Flatten(g: Grid): seq<int>
  {
    if g == [] then [] else g[0] + Flatten(g[1..])
  }

  /** The decimal text of each number. */
  function Words(xs: seq<int>): (ws: seq<string>)
    ensures |ws| == |xs|
    ensures forall i :: 0 <= i < |xs| ==> ws[i] == IntToString(xs[i])
  {
    seq(|xs|, i requires 0 <= i < |xs| => IntToString(xs[i]))
  }

  /** The line `saveMatrix` writes for a board: its cells, row-major,
      separated by single spaces, then a newline. */
  function EncodeBoard(g: Grid): string
  {
    JoinSpaces(Words(Flatten(g))) + "\n"
  }

  /** `[int(num) for num in words]`: the first token that is not an integer raises. */
  function ParseAll(ws: seq<string>): (r: Option<seq<int>>)
    ensures r.Some? ==> |r.value| == |ws|
  {
    if ws == [] then Some([])
    else
      match ParseInt(ws[0])
      case None => None
      case Some(x) =>
        match ParseAll(ws[1..])
        case None => None
        case Some(rest) => Some([x] + rest)
  }

  /** `reshape(4, 4)` of 16 numbers: consecutive runs of four become the rows. */
  function Reshape(xs: seq<int>): (g: Grid)
    requires |xs| == Side * Side
    ensures IsSquare(g, Side)
  {
    seq(Side, i requires 0 <= i < Side => xs[Side * i..Side * i + Side])
  }

  /** What `loadMatrix` makes of one line: split on whitespace, each token
      through `int()`, then reshaped to 4 by 4. */
  function ParseBoard(line: string): Result<Grid, HistoryError>
  {
    match ParseAll(Split(line))
    case None => Failure(NotANumber)
    case Some(xs) => if |xs| != Side * Side then Failure(WrongShape) else Success(Reshape(xs))
  }

  /** Reading numbers back from their decimal text gives the numbers. */
  lemma {:induction false} ParseAllWords(xs: seq<int>)
    ensures ParseAll(Words(xs)) == Some(xs)
  {
    if xs != [] {
      IntRoundTrip(xs[0]);
      assert Words(xs)[1..] == Words(xs[1..]);
      ParseAllWords(xs[1..]);
      assert [xs[0]] + xs[1..] == xs;
    }
  }

  /** Row i of a board of width Side sits at cells Side * i up to Side * i + Side of its flattening. */
  lemma {:induction false} FlattenRows(g: Grid)
    requires IsRect(g, Side)
    ensures |Flatten(g)| == Side * |g|
    ensures forall i :: 0 <= i < |g| ==> Flatten(g)[Side * i..Side * i + Side] == g[i]
  {
    if g != [] {
      var rest := g[1..];
      FlattenRows(rest);
      var f := Flatten(g);
      assert f == g[0] + Flatten(rest);
      forall i | 0 <= i < |g| ensures f[Side * i..Side * i + Side] == g[i] {
        if i > 0 {
          assert f[Side * i..Side * i + Side] == Flatten(rest)[Side * (i - 1)..Side * (i - 1) + Side];
          assert rest[i - 1] == g[i];
        }
      }
    }
  }

  /** A 4-by-4 board written by `saveMatrix` is read back by `loadMatrix` unchanged. */
  lemma {:induction false} BoardRoundTrip(g: Grid)
    requires IsSquare(g, Side)
    ensures ParseBoard(EncodeBoard(g)) == Success(g)
  {
    var xs := Flatten(g);
    SplitJoin(Words(xs), "\n");
    assert Split("\n") == [];
    assert Split(EncodeBoard(g)) == Words(xs);
    ParseAllWords(xs);
    FlattenRows(g);
    assert Reshape(xs) == g;
  }

  // ---------------------------------------------------------------------
  // The whole file

  /** The snapshot lines of the boards, in order. */
  function BoardLines(boards: seq<Grid>): (ls: seq<string>)
    ensures |ls| == |boards|
    ensures forall i :: 0 <= i < |boards| ==> ls[i] == EncodeBoard(boards[i])
  {
    seq(|boards|, i requires 0 <= i < |boards| => EncodeBoard(boards[i]))
  }

  /** The text of a log the boards were saved to, in order. */
  function Log(boards: seq<Grid>): string
  {
    Concat(BoardLines(boards))
  }

  /** A snapshot line ends in its only newline. */
  lemma {:induction false} EncodeBoardProper(g: Grid)
    ensures ProperLine(EncodeBoard(g))
  {
    var body := JoinSpaces(Words(Flatten(g)));
    JoinNoNewline(Words(Flatten(g)));
    assert EncodeBoard(g)[..|EncodeBoard(g)| - 1] == body;
  }

  /** Saving one more board adds its line at the end of the log. */
  lemma {:induction false} LogSnoc(boards: seq<Grid>, g: Grid)
    ensures Log(boards + [g]) == Log(boards) + EncodeBoard(g)
  {
    assert BoardLines(boards + [g]) == BoardLines(boards) + [EncodeBoard(g)];
    ConcatSnoc(BoardLines(boards), EncodeBoard(g));
  }

  /** `readlines` on a log followed by anything gives one line per board, then the lines of what follows. */
  lemma {:induction false} LogLines(boards: seq<Grid>, tail: string)
    ensures Lines(Log(boards) + tail) == BoardLines(boards) + Lines(tail)
  {
    forall i | 0 <= i < |boards| ensures ProperLine(BoardLines(boards)[i]) {
      EncodeBoardProper(boards[i]);
    }
    LinesOfLines(BoardLines(boards), tail);
  }

  /** The lines of a closed log: one per board, then the move letters if there are any. */
  lemma {:induction false} ClosedLogLines(boards: seq<Grid>, letters: string)
    requires '\n' !in letters
    ensures Lines(Log(boards) + letters) == BoardLines(boards) + (if letters == [] then [] else [letters])
  {
    LogLines(boards, letters);
    if letters != [] {
      LinesLast(letters);
    }
  }

  /** A log closed with no moves reads back one snapshot short, and its last
      snapshot line is taken for the move line. */
  lemma {:induction false} ReopenWithoutMoves(boards: seq<Grid>)
    requires boards != []
    ensures |Lines(Log(boards) + "")| - 1 == |boards| - 1
    ensures Lines(Log(boards) + "")[|boards| - 1] == EncodeBoard(boards[|boards| - 1])
  {
    ClosedLogLines(boards, "");
  }

  // ---------------------------------------------------------------------
  // The History object

  class History {
    var mode: Mode
    /** The text of the file written so far, or read. */
    var file: string
    var isOpen: bool
    var moves: seq<string>
    var nOfMatrices: int
    var numberOfMoves: int
    /** The boards saved in write mode, in order. */
    ghost var saved: seq<Grid>

    /** The counters agree with what the object holds. */
    ghost predicate Valid()
      reads this
    {
      numberOfMoves == |moves|
      && (mode == Write ==> nOfMatrices == |saved| && (isOpen ==> file == Log(saved)))
      && (mode == Read ==> isOpen && Lines(file) != [] && nOfMatrices == |Lines(file)| - 1)
    }

    /** Write mode: any existing file is replaced by an empty one. */
    constructor Writing()
      ensures mode == Write && file == [] && isOpen && saved == []
      ensures moves == [] && nOfMatrices == 0 && numberOfMoves == 0
      ensures Valid()
    {
      mode, file, isOpen, saved := Write, [], true, [];
      moves, nOfMatrices, numberOfMoves := [], 0, 0;
    }

    /** Read mode: the moves are the characters of the last line, and every
        other line counts as a board. */
    constructor Reading(text: string)
      requires Lines(text) != []
      ensures mode == Read && file == text && isOpen && saved == []
      ensures moves == Chars(Lines(text)[|Lines(text)| - 1])
      ensures nOfMatrices == |Lines(text)| - 1
      ensures numberOfMoves == |Lines(text)[|Lines(text)| - 1]|
      ensures Valid()
    {
      var lines := Lines(text);
      mode, file, isOpen, saved := Read, text, true, [];
      moves := Chars(lines[|lines| - 1]);
      nOfMatrices := |lines| - 1;
      numberOfMoves := |lines[|lines| - 1]|;
    }

    /** `History(mode, ...)`: disk is the text of the named file, if it exists. */
    static method Open(mode: string, disk: Option<string>) returns (r: Result<History, HistoryError>)
      ensures r == Failure(BadMode) <==> mode != "r" && mode != "w"
      ensures mode == "w" ==>
        r.Success? && fresh(r.value) && r.value.mode == Write && r.value.file == []
        && r.value.isOpen && r.value.saved == [] && r.value.moves == [] && r.value.nOfMatrices == 0
        && r.value.numberOfMoves == 0
      ensures mode == "r" && disk.None? ==> r == Failure(FileMissing)
      ensures mode == "r" && disk.Some? && Lines(disk.value) == [] ==> r == Failure(EmptyLog)
      ensures mode == "r" && disk.Some? && Lines(disk.value) != [] ==>
        var lines := Lines(disk.value);
        r.Success? && fresh(r.value) && r.value.mode == Read && r.value.file == disk.value
        && r.value.isOpen && r.value.moves == Chars(lines[|lines| - 1])
        && r.value.nOfMatrices == |lines| - 1 && r.value.numberOfMoves == |lines[|lines| - 1]|
      ensures r.Success? ==> r.value.Valid()
    {
      if mode != "r" && mode != "w" {
        return Failure(BadMode);
      }
      if mode == "r" {
        if disk.None? {
          return Failure(FileMissing);
        }
        if Lines(disk.value) == [] {
          return Failure(EmptyLog);
        }
        var h := new History.Reading(disk.value);
        return Success(h);
      }
      var h := new History.Writing();
      return Success(h);
    }

    /** `saveMatrix`: one snapshot line more in the file and one more board counted. */
    method SaveMatrix(matrix: Grid) returns (o: Outcome<HistoryError>)
      requires Valid()
      modifies this
      ensures Valid()
      ensures old(mode) == Read ==> o == Fail(ModeViolation) && unchanged(this)
      ensures old(mode) == Write && !old(isOpen) ==> o == Fail(ClosedFile) && unchanged(this)
      ensures old(mode) == Write && old(isOpen) ==>
        o == Pass && mode == Write && isOpen && file == old(file) + EncodeBoard(matrix)
        && saved == old(saved) + [matrix] && nOfMatrices == old(nOfMatrices) + 1
        && moves == old(moves) && numberOfMoves == old(numberOfMoves)
    {
      if mode == Read {
        return Fail(ModeViolation);
      }
      if !isOpen {
        return Fail(ClosedFile);
      }
      file := file + EncodeBoard(matrix);
      LogSnoc(saved, matrix);
      saved := saved + [matrix];
      nOfMatrices := nOfMatrices + 1;
      return Pass;
    }

    /** `loadMatrix(index)`: no board past the count, otherwise line `index`
        (negative indices count from the end) parsed back into a board. */
    method LoadMatrix(index: int) returns (r: Result<Option<Grid>, HistoryError>)
      ensures mode == Write ==> r == Failure(ModeViolation)
      ensures mode == Read && index >= nOfMatrices ==> r == Success(None)
      ensures mode == Read && index < nOfMatrices && PyIndex(Lines(file), index).None? ==>
        r == Failure(IndexOutOfRange)
      ensures mode == Read && index < nOfMatrices && PyIndex(Lines(file), index).Some? ==>
        var parsed := ParseBoard(PyIndex(Lines(file), index).value);
        r == if parsed.Success? then Success(Some(parsed.value)) else Failure(parsed.error)
    {
      if mode == Write {
        return Failure(ModeViolation);
      }
      if index >= nOfMatrices {
        return Success(None);
      }
      var lines := Lines(file);
      var line := PyIndex(lines, index);
      if line.None? {
        return Failure(IndexOutOfRange);
      }
      var parsed := ParseBoard(line.value);
      if parsed.Failure? {
        return Failure(parsed.error);
      }
      return Success(Some(parsed.value));
    }

    /** `saveMove`: the move joins the buffer; the file is not touched. */
    method SaveMove(move: string) returns (o: Outcome<HistoryError>)
      requires Valid()
      modifies this
      ensures Valid()
      ensures old(mode) == Read ==> o == Fail(ModeViolation) && unchanged(this)
      ensures old(mode) == Write ==>
        o == Pass && moves == old(moves) + [move] && numberOfMoves == old(numberOfMoves) + 1
        && mode == Write && file == old(file) && isOpen == old(isOpen) && saved == old(saved)
        && nOfMatrices == old(nOfMatrices)
    {
      if mode == Read {
        return Fail(ModeViolation);
      }
      moves := moves + [move];
      numberOfMoves := numberOfMoves + 1;
      return Pass;
    }

    /** `readMoves`: the last line of the file. */
    method ReadMoves() returns (r: Result<string, HistoryError>)
      ensures mode == Write ==> r == Failure(ModeViolation)
      ensures mode == Read && Lines(file) == [] ==> r == Failure(EmptyLog)
      ensures mode == Read && Lines(file) != [] ==> r == Success(Lines(file)[|Lines(file)| - 1])
    {
      if mode == Write {
        return Failure(ModeViolation);
      }
      var lines := Lines(file);
      if lines == [] {
        return Failure(EmptyLog);
      }
      return Success(lines[|lines| - 1]);
    }

    /** `close`: the buffered moves are written after the last snapshot, with
        no separator, and the file is closed. A file opened for reading
        cannot be written, so there the call raises and the file stays open. */
    method Close() returns (o: Outcome<HistoryError>)
      requires Valid()
      modifies this
      ensures Valid()
      ensures old(mode) == Read ==> o == Fail(NotWritable) && unchanged(this)
      ensures old(mode) == Write && !old(isOpen) ==> o == Fail(ClosedFile) && unchanged(this)
      ensures old(mode) == Write && old(isOpen) ==>
        o == Pass && !isOpen && file == old(file) + Concat(old(moves)) && mode == Write
        && moves == old(moves) && numberOfMoves == old(numberOfMoves) && saved == old(saved)
        && nOfMatrices == old(nOfMatrices)
    {
      if mode == Read {
        return Fail(NotWritable);
      }
      if !isOpen {
        return Fail(ClosedFile);
      }
      file := file + Concat(moves);
      isOpen := false;
      return Pass;
    }
  }

  /** The moves a log is closed with: single letters, none of them a newline. */
  predicate MoveLetters(letters: seq<string>)
  {
    forall i :: 0 <= i < |letters| ==> |letters[i]| == 1 && letters[i][0] != '\n'
  }

  /** A log closed with at least one move reads back as one line per board
      and the joined moves as the last line, whose characters are the moves. */
  lemma {:induction false} ClosedLogReads(boards: seq<Grid>, letters: seq<string>)
    requires letters != [] && MoveLetters(letters)
    ensures Lines(Log(boards) + Concat(letters)) == BoardLines(boards) + [Concat(letters)]
    ensures Chars(Concat(letters)) == letters
  {
    CharsConcat(letters);
    forall i | 0 <= i < |letters| ensures '\n' !in letters[i] {
      assert letters[i] == [letters[i][0]];
    }
    ConcatNoNewline(letters);
    ClosedLogLines(boards, Concat(letters));
  }

  /** One turn of a recorded game: save the board, then its move. */
  method SaveTurn(h: History, board: Grid, letter: string)
    requires h.Valid() && h.mode == Write && h.isOpen
    modifies h
    ensures h.Valid() && h.mode == Write && h.isOpen
    ensures h.saved == old(h.saved) + [board] && h.moves == old(h.moves) + [letter]
  {
    var o := h.SaveMatrix(board);
    o := h.SaveMove(letter);
  }

  /** Turn i of a recorded game, after the turns before it. */
  method SaveTurnAt(h: History, boards: seq<Grid>, letters: seq<string>, i: nat)
    requires i < |letters| <= |boards|
    requires h.Valid() && h.mode == Write && h.isOpen
    requires h.saved == boards[..i] && h.moves == letters[..i]
    modifies h
    ensures h.Valid() && h.mode == Write && h.isOpen
    ensures h.saved == boards[..i + 1] && h.moves == letters[..i + 1]
  {
    SaveTurn(h, boards[i], letters[i]);
    assert boards[..i + 1] == boards[..i] + [boards[i]];
    assert letters[..i + 1] == letters[..i] + [letters[i]];
  }

  /** A board saved with no move after it. */
  method SaveBoard(h: History, board: Grid)
    requires h.Valid() && h.mode == Write && h.isOpen
    modifies h
    ensures h.Valid() && h.mode == Write && h.isOpen
    ensures h.saved == old(h.saved) + [board] && h.moves == old(h.moves)
  {
    var o := h.SaveMatrix(board);
  }

  /** The first |letters| turns of a recorded game, each a board and its move. */
  method SavePairs(h: History, boards: seq<Grid>, letters: seq<string>)
    requires |letters| <= |boards|
    requires h.Valid() && h.mode == Write && h.isOpen && h.saved == [] && h.moves == []
    modifies h
    ensures h.Valid() && h.mode == Write && h.isOpen
    ensures h.saved == boards[..|letters|] && h.moves == letters
  {
    for i := 0 to |letters|
      invariant h.Valid() && h.mode == Write && h.isOpen
      invariant h.saved == boards[..i] && h.moves == letters[..i]
    {
      SaveTurnAt(h, boards, letters, i);
    }
    assert letters[..|letters|] == letters;
  }

  /** The boards of a recorded game from index n on, with no moves after them. */
  method SaveRest(h: History, boards: seq<Grid>, n: nat)
    requires n <= |boards|
    requires h.Valid() && h.mode == Write && h.isOpen && h.saved == boards[..n]
    modifies h
    ensures h.Valid() && h.mode == Write && h.isOpen
    ensures h.saved == boards && h.moves == old(h.moves)
  {
    for i := n to |boards|
      invariant h.Valid() && h.mode == Write && h.isOpen
      invariant h.saved == boards[..i] && h.moves == old(h.moves)
    {
      SaveBoard(h, boards[i]);
      assert boards[..i + 1] == boards[..i] + [boards[i]];
    }
    assert boards[..|boards|] == boards;
  }

  /** The turns of a recorded game, in order, on an open log: board i is
      followed by move i while there are moves left. */
  method SaveTurns(h: History, boards: seq<Grid>, letters: seq<string>)
    requires |letters| <= |boards|
    requires h.Valid() && h.mode == Write && h.isOpen && h.saved == [] && h.moves == []
    modifies h
    ensures h.Valid() && h.mode == Write && h.isOpen && h.saved == boards && h.moves == letters
  {
    SavePairs(h, boards, letters);
    SaveRest(h, boards, |letters|);
  }

  /** The writing half of a recorded game: each board saved, each followed by
      its move while there are moves left, then `close`. The file ends up
      holding the log of the boards followed by the moves. */
  method Record(boards: seq<Grid>, letters: seq<string>) returns (text: string)
    requires |letters| <= |boards|
    ensures text == Log(boards) + Concat(letters)
  {
    var created := History.Open("w", None);
    var h := created.value;
    SaveTurns(h, boards, letters);
    var closed := h.Close();
    text := h.file;
  }

  /** `loadMatrix(i)` on a reopened log gives back the i-th saved board. */
  method LoadSaved(reader: History, boards: seq<Grid>, moveLine: string, i: nat)
    returns (m: Result<Option<Grid>, HistoryError>)
    requires i < |boards| && IsSquare(boards[i], Side)
    requires reader.mode == Read && reader.nOfMatrices == |boards|
    requires Lines(reader.file) == BoardLines(boards) + [moveLine]
    ensures m == Success(Some(boards[i]))
  {
    BoardRoundTrip(boards[i]);
    assert PyIndex(Lines(reader.file), i) == Some(EncodeBoard(boards[i]));
    m := reader.LoadMatrix(i);
  }

  /** The reading half of the demonstration: open the file for reading and
      load every board, and one index past the last. */
  method Replay(text: string, boards: seq<Grid>, moveLine: string)
    returns (count: int, replayed: seq<string>, loaded: seq<Result<Option<Grid>, HistoryError>>,
             beyond: Result<Option<Grid>, HistoryError>)
    requires forall i :: 0 <= i < |boards| ==> IsSquare(boards[i], Side)
    requires Lines(text) == BoardLines(boards) + [moveLine]
    ensures count == |boards|
    ensures replayed == Chars(moveLine)
    ensures |loaded| == |boards|
    ensures forall i :: 0 <= i < |boards| ==> loaded[i] == Success(Some(boards[i]))
    ensures beyond == Success(None)
  {
    ghost var lines := Lines(text);
    assert lines[|lines| - 1] == moveLine;
    var reopened := History.Open("r", Some(text));
    var reader := reopened.value;
    count := reader.nOfMatrices;
    replayed := reader.moves;
    loaded := [];
    for i := 0 to count
      invariant reader.mode == Read && reader.file == text && reader.nOfMatrices == count
      invariant |loaded| == i
      invariant forall k :: 0 <= k < i ==> loaded[k] == Success(Some(boards[k]))
    {
      var m := LoadSaved(reader, boards, moveLine, i);
      loaded := loaded + [m];
    }
    beyond := reader.LoadMatrix(count);
  }

  /** The demonstration at the end of history.py, for any game of k boards
      and between 1 and k moves (the demonstration saves one move per board;
      a played game has one board more than moves): save each board followed
      by its move, close, reopen the file for reading and load every board,
      and one index past the last. Under the single-space board encoding the
      boards come back unchanged, the count is right and the moves read back
      are the moves saved. */
  method RecordAndReplay(boards: seq<Grid>, letters: seq<string>)
    returns (count: int, replayed: seq<string>, loaded: seq<Result<Option<Grid>, HistoryError>>,
             beyond: Result<Option<Grid>, HistoryError>)
    requires 1 <= |letters| <= |boards|
    requires forall i :: 0 <= i < |boards| ==> IsSquare(boards[i], Side)
    requires MoveLetters(letters)
    ensures count == |boards|
    ensures replayed == letters
    ensures |loaded| == |boards|
    ensures forall i :: 0 <= i < |boards| ==> loaded[i] == Success(Some(boards[i]))
    ensures beyond == Success(None)
  {
    var text := Record(boards, letters);
    ClosedLogReads(boards, letters);
    count, replayed, loaded, beyond := Replay(text, boards, Concat(letters));
  }
}
