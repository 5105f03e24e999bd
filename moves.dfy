/** The four directional moves as functions of a board: each one is the
    canonical sequence cover_up, merge, cover_up on a transformed board,
    followed by the inverse transform. */
module Moves {
  import opened Rows
  import opened Grids

  /** `cover_up` on a whole board, row by row. */
  function SlideAll(g: Grid): (r: Grid)
    ensures |r| == |g|
    ensures forall i :: 0 <= i < |g| ==> |r[i]| == |g[i]|
  {
    seq(|g|, i requires 0 <= i < |g| => Slide(g[i]))
  }

  /** The flag `cover_up` returns for a board. */
  predicate SlidAny(g: Grid)
  {
    exists i :: 0 <= i < |g| && Shifts(g[i])
  }

  /** The step the row loop of `cover_up` takes on its flag. */
  lemma {:induction false} SlidAnyStep(g: Grid, i: nat)
    requires i < |g|
    ensures SlidAny(g[..i + 1]) == (SlidAny(g[..i]) || Shifts(g[i]))
    ensures SlidAny(g[..|g|]) == SlidAny(g)
  {
    assert g[..|g|] == g;
    if SlidAny(g[..i + 1]) {
      var r :| 0 <= r < i + 1 && Shifts(g[..i + 1][r]);
      if r < i { assert g[..i][r] == g[r]; }
    }
    if SlidAny(g[..i]) {
      var r :| 0 <= r < i && Shifts(g[..i][r]);
      assert g[..i + 1][r] == g[r];
    }
    if Shifts(g[i]) {
      assert g[..i + 1][i] == g[i];
    }
  }

  /** `merge` on a whole board, row by row. */
  function SweepAll(g: Grid): (r: Grid)
    ensures |r| == |g|
    ensures forall i :: 0 <= i < |g| ==> |r[i]| == |g[i]|
  {
    seq(|g|, i requires 0 <= i < |g| => Sweep(g[i]))
  }

  /** Whether `merge` merged any pair on the board. */
  predicate MergesAny(g: Grid)
  {
    exists i :: 0 <= i < |g| && SweepMerges(g[i])
  }
  /** The step the row loop of `merge` takes on its flag. */
  lemma {:induction false} MergesAnyStep(g: Grid, i: nat)
    requires i < |g|
    ensures MergesAny(g[..i + 1]) == (MergesAny(g[..i]) || SweepMerges(g[i]))
    ensures MergesAny(g[..|g|]) == MergesAny(g)
  {
    assert g[..|g|] == g;
    if MergesAny(g[..i + 1]) {
      var r :| 0 <= r < i + 1 && SweepMerges(g[..i + 1][r]);
      if r < i { assert g[..i][r] == g[r]; }
    }
    if MergesAny(g[..i]) {
      var r :| 0 <= r < i && SweepMerges(g[..i][r]);
      assert g[..i + 1][r] == g[r];
    }
    if SweepMerges(g[i]) {
      assert g[..i + 1][i] == g[i];
    }
  }


  /** What a move returns: the new board and the `done` flag. */
  datatype Moved = Moved(board: Grid, done: bool)

  /** `left`: the canonical sequence; the flag comes from the first cover_up and the merge. */
  function MoveLeft(g: Grid): (m: Moved)
    ensures |m.board| == |g|
    ensures forall i :: 0 <= i < |g| ==> |m.board[i]| == |g[i]|
  {
    var packed := SlideAll(g);
    Moved(SlideAll(SweepAll(packed)), SlidAny(g) || MergesAny(packed))
  }

  /** `right`: reverse, canonical sequence, reverse. */
  function MoveRight(g: Grid): (m: Moved)
    ensures |m.board| == |g|
    ensures forall i :: 0 <= i < |g| ==> |m.board[i]| == |g[i]|
  {
    var m := MoveLeft(Reversed(g));
    Moved(Reversed(m.board), m.done)
  }

  /** `up`: transpose, canonical sequence, transpose. */
  function MoveUp(g: Grid): (m: Moved)
    requires IsSquare(g, |g|)
    ensures IsSquare(m.board, |g|)
  {
    var m := MoveLeft(Transposed(g));
    Moved(Transposed(m.board), m.done)
  }

  /** `down`: transpose then reverse, canonical sequence, reverse then transpose. */
  function MoveDown(g: Grid): (m: Moved)
    requires IsSquare(g, |g|)
    ensures IsSquare(m.board, |g|)
  {
    ReversedSquare(Transposed(g), |g|);
    var m := MoveLeft(Reversed(Transposed(g)));
    ReversedSquare(m.board, |g|);
    Moved(Transposed(Reversed(m.board)), m.done)
  }

  // ---------------------------------------------------------------------
  // cover_up on a board

  /** `cover_up` is idempotent on a board: applied to its own output it
      returns the same board with the flag down. */
  lemma {:induction false} SlideAllIdempotent(g: Grid)
    ensures SlideAll(SlideAll(g)) == SlideAll(g)
    ensures !SlidAny(SlideAll(g))
  {
    forall i | 0 <= i < |g|
      ensures SlideAll(SlideAll(g))[i] == SlideAll(g)[i]
      ensures !Shifts(SlideAll(g)[i])
    {
      SlideIdempotent(g[i]);
    }
  }

  // ---------------------------------------------------------------------
  // left

  /** Row i of a left move is row i after the canonical sequence. */
  lemma MoveLeftRow(g: Grid, i: nat)
    requires i < |g|
    ensures MoveLeft(g).board[i] == MoveRow(g[i])
  {
  }

  /** Each row of a left move holds the tiles of the row, collapsed pairwise
      from the left with no cascading, packed to the left. */
  lemma {:induction false} MoveLeftTiles(g: Grid)
    ensures forall i :: 0 <= i < |g| ==>
      |Collapse(NonZero(g[i]))| <= |g[i]| &&
      MoveLeft(g).board[i] == Collapse(NonZero(g[i])) + Zeros(|g[i]| - |Collapse(NonZero(g[i]))|)
  {
    forall i | 0 <= i < |g|
      ensures |Collapse(NonZero(g[i]))| <= |g[i]|
      ensures MoveLeft(g).board[i] == Collapse(NonZero(g[i])) + Zeros(|g[i]| - |Collapse(NonZero(g[i]))|)
    {
      MoveLeftRow(g, i);
      MoveRowCollapse(g[i]);
    }
  }

  /** `left` keeps the board's total. */
  lemma {:induction false} MoveLeftTotal(g: Grid)
    ensures Total(MoveLeft(g).board) == Total(g)
  {
    forall i | 0 <= i < |g| ensures Sum(MoveLeft(g).board[i]) == Sum(g[i]) {
      MoveLeftRow(g, i);
      SumMoveRow(g[i]);
    }
    TotalRowwise(g, MoveLeft(g).board);
  }

  /** The flag of `left` is raised exactly when the board changes. */
  lemma {:induction false} MoveLeftChanged(g: Grid)
    ensures MoveLeft(g).done <==> MoveLeft(g).board != g
  {
    var m := MoveLeft(g);
    forall i | 0 <= i < |g| ensures (m.board[i] != g[i]) == MoveRowDone(g[i]) {
      MoveLeftRow(g, i);
      MoveRowDoneIff(g[i]);
    }
    if m.done {
      var i :| 0 <= i < |g| && (Shifts(g[i]) || SweepMerges(SlideAll(g)[i]));
      assert m.board[i] != g[i];
    } else {
      forall i | 0 <= i < |g| ensures m.board[i] == g[i] {
        assert !Shifts(g[i]) && !SweepMerges(SlideAll(g)[i]);
      }
      assert m.board == g;
    }
  }

  /** The two rows of the concrete case, moved left on their own. */
  lemma ExampleRows()
    ensures MoveRow([2, 2, 0, 0]) == [4, 0, 0, 0]
    ensures MoveRow([0, 0, 0, 0]) == [0, 0, 0, 0]
  {
    MoveRowCollapse([2, 2, 0, 0]);
    assert NonZero([2, 2, 0, 0]) == [2, 2];
    assert Collapse([2, 2]) == [4];
    assert [4] + Zeros(3) == [4, 0, 0, 0];
    MoveRowCollapse([0, 0, 0, 0]);
    assert Zeros(4) == [0, 0, 0, 0];
    NonZeroZeros(4);
    assert Collapse([]) == [];
  }

  /** Concrete case: `left` on [[2,2,0,0],0...] gives [[4,0,0,0],0...] and raises the flag. */
  lemma LeftExample()
    ensures MoveLeft([[2, 2, 0, 0], [0, 0, 0, 0], [0, 0, 0, 0], [0, 0, 0, 0]])
         == Moved([[4, 0, 0, 0], [0, 0, 0, 0], [0, 0, 0, 0], [0, 0, 0, 0]], true)
  {
    var g := [[2, 2, 0, 0], [0, 0, 0, 0], [0, 0, 0, 0], [0, 0, 0, 0]];
    var e := [[4, 0, 0, 0], [0, 0, 0, 0], [0, 0, 0, 0], [0, 0, 0, 0]];
    ExampleRows();
    forall i | 0 <= i < 4 ensures MoveLeft(g).board[i] == e[i] {
      MoveLeftRow(g, i);
    }
    assert MoveLeft(g).board == e;
    MoveLeftChanged(g);
  }

  /** No cascading: [2,2,4,0] moves left to [4,4,0,0], not [8,0,0,0]. */
  lemma NoCascadeExample()
    ensures MoveLeft([[2, 2, 4, 0]]).board == [[4, 4, 0, 0]]
  {
    var g := [[2, 2, 4, 0]];
    MoveLeftTiles(g);
    assert NonZero(g[0]) == [2, 2, 4];
    assert Collapse([2, 2, 4]) == [4, 4] by {
      assert Collapse([4]) == [4];
      assert [2, 2, 4][2..] == [4];
    }
    assert [4, 4] + Zeros(2) == [4, 4, 0, 0];
  }

  // ---------------------------------------------------------------------
  // right

  /** `right` keeps the board's total. */
  lemma {:induction false} MoveRightTotal(g: Grid)
    ensures Total(MoveRight(g).board) == Total(g)
  {
    TotalReversed(g);
    MoveLeftTotal(Reversed(g));
    TotalReversed(MoveLeft(Reversed(g)).board);
  }

  /** The flag of `right` is raised exactly when the board changes. */
  lemma {:induction false} MoveRightChanged(g: Grid)
    ensures MoveRight(g).done <==> MoveRight(g).board != g
  {
    var m := MoveLeft(Reversed(g));
    MoveLeftChanged(Reversed(g));
    ReversedTwice(g);
    ReversedTwice(m.board);
  }

  // ---------------------------------------------------------------------
  // up

  /** `up` keeps the board's total. */
  lemma {:induction false} MoveUpTotal(g: Grid)
    requires IsSquare(g, |g|)
    ensures Total(MoveUp(g).board) == Total(g)
  {
    var t := Transposed(g);
    TotalTransposed(g);
    MoveLeftTotal(t);
    TotalTransposed(MoveLeft(t).board);
  }

  /** The flag of `up` is raised exactly when the board changes. */
  lemma {:induction false} MoveUpChanged(g: Grid)
    requires IsSquare(g, |g|)
    ensures MoveUp(g).done <==> MoveUp(g).board != g
  {
    var t := Transposed(g);
    var m := MoveLeft(t);
    MoveLeftChanged(t);
    TransposedTwice(g);
    TransposedTwice(m.board);
  }

  // ---------------------------------------------------------------------
  // down

  /** `down` keeps the board's total. */
  lemma {:induction false} MoveDownTotal(g: Grid)
    requires IsSquare(g, |g|)
    ensures Total(MoveDown(g).board) == Total(g)
  {
    var n := |g|;
    var t := Transposed(g);
    ReversedSquare(t, n);
    var m := MoveLeft(Reversed(t));
    ReversedSquare(m.board, n);
    TotalTransposed(g);
    TotalReversed(t);
    MoveLeftTotal(Reversed(t));
    TotalReversed(m.board);
    TotalTransposed(Reversed(m.board));
  }

  /** The flag of `down` is raised exactly when the board changes. */
  lemma {:induction false} MoveDownChanged(g: Grid)
    requires IsSquare(g, |g|)
    ensures MoveDown(g).done <==> MoveDown(g).board != g
  {
    var n := |g|;
    var t := Transposed(g);
    ReversedSquare(t, n);
    var r := Reversed(t);
    var m := MoveLeft(r);
    ReversedSquare(m.board, n);
    MoveLeftChanged(r);
    TransposedTwice(g);
    ReversedTwice(t);
    ReversedTwice(m.board);
    TransposedTwice(Reversed(m.board));
  }

  // ---------------------------------------------------------------------
  // The board invariant

  /** `left` keeps every cell empty or a power of two of at least 2. */
  lemma {:induction false} MoveLeftOk(g: Grid)
    requires BoardOk(g)
    ensures BoardOk(MoveLeft(g).board)
  {
    forall i | 0 <= i < |g| ensures RowOk(MoveLeft(g).board[i]) {
      MoveLeftRow(g, i);
      MoveRowOk(g[i]);
    }
  }

  /** `right` keeps every cell empty or a power of two of at least 2. */
  lemma {:induction false} MoveRightOk(g: Grid)
    requires BoardOk(g)
    ensures BoardOk(MoveRight(g).board)
  {
    ReversedOk(g);
    MoveLeftOk(Reversed(g));
    ReversedOk(MoveLeft(Reversed(g)).board);
  }

  /** `up` keeps every cell empty or a power of two of at least 2. */
  lemma {:induction false} MoveUpOk(g: Grid)
    requires IsSquare(g, |g|)
    requires BoardOk(g)
    ensures BoardOk(MoveUp(g).board)
  {
    var t := Transposed(g);
    TransposedOk(g);
    MoveLeftOk(t);
    TransposedOk(MoveLeft(t).board);
  }

  /** `down` keeps every cell empty or a power of two of at least 2. */
  lemma {:induction false} MoveDownOk(g: Grid)
    requires IsSquare(g, |g|)
    requires BoardOk(g)
    ensures BoardOk(MoveDown(g).board)
  {
    var n := |g|;
    var t := Transposed(g);
    ReversedSquare(t, n);
    var m := MoveLeft(Reversed(t));
    ReversedSquare(m.board, n);
    TransposedOk(g);
    ReversedOk(t);
    MoveLeftOk(Reversed(t));
    ReversedOk(m.board);
    TransposedOk(Reversed(m.board));
  }
}
