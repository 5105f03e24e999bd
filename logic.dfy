/** The game engine of logic.py on two-dimensional arrays: spawning tiles,
    classifying the board, the grid transforms, the two move primitives and
    the four directional moves. */
module Logic {
  import opened Rows
  import opened Grids
  import opened Moves

  /** The side of the board the move primitives loop over (GRID_LEN). */
  const GridLen := 4

  /** `add_two`: one empty cell, chosen freely, becomes 2; nothing else changes.
      The source retries random cells until it hits an empty one, so it needs
      one to exist. */
  method AddTwo(mat: array2<int>) returns (a: int, b: int)
    requires mat.Length0 == mat.Length1
    requires exists i, j :: 0 <= i < mat.Length0 && 0 <= j < mat.Length1 && mat[i, j] == 0
    modifies mat
    ensures 0 <= a < mat.Length0 && 0 <= b < mat.Length1
    ensures old(mat[a, b]) == 0 && mat[a, b] == 2
    ensures forall i, j :: 0 <= i < mat.Length0 && 0 <= j < mat.Length1 && (i, j) != (a, b) ==>
      mat[i, j] == old(mat[i, j])
    ensures BoardOk(old(Cells(mat))) ==> BoardOk(Cells(mat))
  {
    ghost var before := Cells(mat);
    a, b :| 0 <= a < mat.Length0 && 0 <= b < mat.Length1 && mat[a, b] == 0;
    mat[a, b] := 2;
    if BoardOk(before) {
      SpawnOk(before, Cells(mat), a, b);
    }
  }

  /** `new_game`: an n-by-n board with two distinct cells holding 2 and the rest empty. */
  method NewGame(n: nat) returns (mat: array2<int>, ghost first: (int, int), ghost second: (int, int))
    requires n >= 2
    ensures fresh(mat) && mat.Length0 == n && mat.Length1 == n
    ensures 0 <= first.0 < n && 0 <= first.1 < n && 0 <= second.0 < n && 0 <= second.1 < n
    ensures first != second
    ensures forall i, j :: 0 <= i < n && 0 <= j < n ==>
      mat[i, j] == (if (i, j) == first || (i, j) == second then 2 else 0)
    ensures BoardOk(Cells(mat))
  {
    mat := new int[n, n]((_, _) => 0);
    assert mat[0, 0] == 0;
    var a, b := AddTwo(mat);
    first := (a, b);
    if (a, b) == (0, 0) {
      assert mat[0, 1] == 0;
    } else {
      assert mat[0, 0] == 0;
    }
    var c, d := AddTwo(mat);
    second := (c, d);
  }

  /** The scan `game_state` makes twice: does some cell hold `v`? */
  method Contains(mat: array2<int>, v: int) returns (found: bool)
    ensures found == HasCell(Cells(mat), v)
  {
    ghost var g := Cells(mat);
    for i := 0 to mat.Length0
      invariant forall r, c :: 0 <= r < i && 0 <= c < mat.Length1 ==> mat[r, c] != v
    {
      for j := 0 to mat.Length1
        invariant forall c :: 0 <= c < j ==> mat[i, c] != v
      {
        if mat[i, j] == v {
          assert g[i][j] == v;
          return true;
        }
      }
    }
    return false;
  }

  /** The scan of `game_state` for two equal cells that touch: the right and
      lower neighbours of every cell off the last row and column, then the
      last row, then the last column. */
  method Touching(mat: array2<int>) returns (found: bool)
    requires mat.Length0 == mat.Length1
    ensures found == HasEqualNeighbours(Cells(mat))
  {
    ghost var g := Cells(mat);
    var n := mat.Length0;
    var i := 0;
    while i < n - 1
      invariant 0 <= i <= if n == 0 then 0 else n - 1
      invariant forall r, c :: 0 <= r < i && 0 <= c < n - 1 ==>
        mat[r, c] != mat[r + 1, c] && mat[r, c + 1] != mat[r, c]
    {
      var j := 0;
      while j < n - 1
        invariant 0 <= j <= n - 1
        invariant forall c :: 0 <= c < j ==> mat[i, c] != mat[i + 1, c] && mat[i, c + 1] != mat[i, c]
      {
        if mat[i, j] == mat[i + 1, j] || mat[i, j + 1] == mat[i, j] {
          assert PairsAt(g, i, j);
          return true;
        }
        j := j + 1;
      }
      i := i + 1;
    }
    // the last row, left and right
    var last := n - 1;
    var k := 0;
    while k < n - 1
      invariant 0 <= k <= if n == 0 then 0 else n - 1
      invariant forall c :: 0 <= c < k ==> mat[last, c] != mat[last, c + 1]
    {
      if mat[last, k] == mat[last, k + 1] {
        assert PairsAt(g, last, k);
        return true;
      }
      k := k + 1;
    }
    // the last column, up and down
    var r := 0;
    while r < n - 1
      invariant 0 <= r <= if n == 0 then 0 else n - 1
      invariant forall q :: 0 <= q < r ==> mat[q, last] != mat[q + 1, last]
    {
      if mat[r, last] == mat[r + 1, last] {
        assert PairsAt(g, r, last);
        return true;
      }
      r := r + 1;
    }
    forall p: nat, q: nat | p < n && q < n ensures !PairsAt(g, p, q) {
      if p < n - 1 && q < n - 1 {
        assert mat[p, q] != mat[p + 1, q] && mat[p, q + 1] != mat[p, q];
      }
    }
    return false;
  }

  /** `game_state`: 1 when some cell is 2048; otherwise 0 when some cell is
      empty or two axis-adjacent cells are equal; otherwise -1. */
  method GameState(mat: array2<int>) returns (state: int)
    requires mat.Length0 == mat.Length1
    ensures state == 1 || state == 0 || state == -1
    ensures state == 1 <==> HasCell(Cells(mat), 2048)
    ensures state == -1 <==>
      !HasCell(Cells(mat), 2048) && !HasCell(Cells(mat), 0) && !HasEqualNeighbours(Cells(mat))
  {
    var won := Contains(mat, 2048);
    if won {
      return 1;
    }
    var empty := Contains(mat, 0);
    if empty {
      return 0;
    }
    var pair := Touching(mat);
    if pair {
      return 0;
    }
    return -1;
  }

  /** `reverse`: a fresh board holding every row mirrored. */
  method Reverse(mat: array2<int>) returns (mirrored: array2<int>)
    requires mat.Length0 > 0
    ensures fresh(mirrored)
    ensures mirrored.Length0 == mat.Length0 && mirrored.Length1 == mat.Length1
    ensures Cells(mirrored) == Reversed(Cells(mat))
  {
    var rows, cols := mat.Length0, mat.Length1;
    mirrored := new int[rows, cols]((_, _) => 0);
    for i := 0 to rows
      invariant forall r, c :: 0 <= r < i && 0 <= c < cols ==> mirrored[r, c] == mat[r, cols - c - 1]
    {
      for j := 0 to cols
        invariant forall r, c :: 0 <= r < i && 0 <= c < cols ==> mirrored[r, c] == mat[r, cols - c - 1]
        invariant forall c :: 0 <= c < j ==> mirrored[i, c] == mat[i, cols - c - 1]
      {
        mirrored[i, j] := mat[i, cols - j - 1];
      }
    }
    CellsAre(mirrored, Reversed(Cells(mat)));
  }

  /** `transpose`: a fresh square board whose rows are the columns of `mat`. */
  method Transpose(mat: array2<int>) returns (flipped: array2<int>)
    requires mat.Length0 == mat.Length1 > 0
    ensures fresh(flipped)
    ensures flipped.Length0 == mat.Length0 && flipped.Length1 == mat.Length1
    ensures Cells(flipped) == Transposed(Cells(mat))
  {
    var n := mat.Length0;
    flipped := new int[n, n]((_, _) => 0);
    for i := 0 to n
      invariant forall r, c :: 0 <= r < i && 0 <= c < n ==> flipped[r, c] == mat[c, r]
    {
      for j := 0 to n
        invariant forall r, c :: 0 <= r < i && 0 <= c < n ==> flipped[r, c] == mat[c, r]
        invariant forall c :: 0 <= c < j ==> flipped[i, c] == mat[c, i]
      {
        flipped[i, j] := mat[j, i];
      }
    }
    CellsAre(flipped, Transposed(Cells(mat)));
  }

  /** One row of `cover_up`: the tiles of row `i` of `mat`, packed to the left of row `i` of `packed`. */
  method CoverRow(mat: array2<int>, packed: array2<int>, i: int, ghost row: Row) returns (moved: bool)
    requires mat.Length0 == GridLen && mat.Length1 == GridLen && 0 <= i < GridLen
    requires packed.Length0 == GridLen && packed.Length1 == GridLen && packed != mat
    requires |row| == GridLen && forall c :: 0 <= c < GridLen ==> mat[i, c] == row[c]
    requires forall c :: 0 <= c < GridLen ==> packed[i, c] == 0
    modifies packed
    ensures forall c :: 0 <= c < GridLen ==> packed[i, c] == Slide(row)[c]
    ensures forall r, c :: 0 <= r < GridLen && r != i && 0 <= c < GridLen ==> packed[r, c] == old(packed[r, c])
    ensures moved == Shifts(row)
  {
    moved := false;
    var count := 0;
    for j := 0 to GridLen
      invariant count == |NonZero(row[..j])|
      invariant forall c :: 0 <= c < GridLen ==> packed[i, c] == if c < count then NonZero(row[..j])[c] else 0
      invariant forall r, c :: 0 <= r < GridLen && r != i && 0 <= c < GridLen ==> packed[r, c] == old(packed[r, c])
      invariant moved == ShiftsBefore(row, j)
    {
      NonZeroSnoc(row, j);
      ShiftsBeforeStep(row, j);
      var x := mat[i, j];
      if x != 0 {
        packed[i, count] := x;
        if j != count {
          moved := true;
        }
        count := count + 1;
      }
    }
    assert row[..GridLen] == row;
  }

  /** `cover_up`: a fresh board with every row's tiles slid to the left, and
      whether any tile changed column. */
  method CoverUp(mat: array2<int>) returns (packed: array2<int>, done: bool)
    requires mat.Length0 == GridLen && mat.Length1 == GridLen
    ensures fresh(packed)
    ensures packed.Length0 == GridLen && packed.Length1 == GridLen
    ensures Cells(packed) == SlideAll(Cells(mat))
    ensures done == SlidAny(Cells(mat))
  {
    ghost var g := Cells(mat);
    ghost var slid := SlideAll(g);
    packed := new int[mat.Length0, mat.Length1]((_, _) => 0);
    done := false;
    for i := 0 to GridLen
      invariant forall r, c :: 0 <= r < GridLen && 0 <= c < GridLen ==>
        packed[r, c] == if r < i then slid[r][c] else 0
      invariant done == SlidAny(g[..i])
    {
      var moved := CoverRow(mat, packed, i, g[i]);
      done := done || moved;
      SlidAnyStep(g, i);
    }
    SlidAnyStep(g, GridLen - 1);
    CellsAre(packed, slid);
  }

  /** The step of `merge` at columns `j` and `j + 1` of row `i`. */
  method MergePair(mat: array2<int>, i: int, j: int, ghost cur: Row) returns (fired: bool)
    requires mat.Length0 == GridLen && mat.Length1 == GridLen && 0 <= i < GridLen && 0 <= j < GridLen - 1
    requires |cur| == GridLen && forall c :: 0 <= c < GridLen ==> mat[i, c] == cur[c]
    modifies mat
    ensures forall c :: 0 <= c < GridLen ==> mat[i, c] == MergeAt(cur, j)[c]
    ensures forall r, c :: 0 <= r < GridLen && r != i && 0 <= c < GridLen ==> mat[r, c] == old(mat[r, c])
    ensures fired == Fires(cur, j)
  {
    var x, y := mat[i, j], mat[i, j + 1];
    fired := x == y && x != 0;
    if fired {
      mat[i, j], mat[i, j + 1] := x * 2, 0;
    }
  }

  /** One row of `merge`: the sweep over the pairs of row `i`, left to right. */
  method MergeRow(mat: array2<int>, i: int, ghost row: Row, done: bool) returns (merged: bool)
    requires mat.Length0 == GridLen && mat.Length1 == GridLen && 0 <= i < GridLen
    requires |row| == GridLen && forall c :: 0 <= c < GridLen ==> mat[i, c] == row[c]
    modifies mat
    ensures forall c :: 0 <= c < GridLen ==> mat[i, c] == Sweep(row)[c]
    ensures forall r, c :: 0 <= r < GridLen && r != i && 0 <= c < GridLen ==> mat[r, c] == old(mat[r, c])
    ensures merged == (done || SweepMerges(row))
  {
    merged := done;
    for j := 0 to GridLen - 1
      invariant forall c :: 0 <= c < GridLen ==> mat[i, c] == MergeSteps(row, j)[c]
      invariant forall r, c :: 0 <= r < GridLen && r != i && 0 <= c < GridLen ==> mat[r, c] == old(mat[r, c])
      invariant merged == (done || FiredBefore(row, j))
    {
      var fired := MergePair(mat, i, j, MergeSteps(row, j));
      merged := merged || fired;
    }
    MergeStepsSweep(row);
  }

  /** `merge`: one left-to-right sweep over every row of `mat`, in place;
      the flag is raised when it was passed in raised or a pair merged. */
  method Merge(mat: array2<int>, done: bool) returns (merged: bool)
    requires mat.Length0 == GridLen && mat.Length1 == GridLen
    modifies mat
    ensures Cells(mat) == SweepAll(old(Cells(mat)))
    ensures merged == (done || MergesAny(old(Cells(mat))))
  {
    ghost var g := Cells(mat);
    ghost var swept := SweepAll(g);
    merged := done;
    for i := 0 to GridLen
      invariant forall r, c :: 0 <= r < GridLen && 0 <= c < GridLen ==>
        mat[r, c] == if r < i then swept[r][c] else g[r][c]
      invariant merged == (done || MergesAny(g[..i]))
    {
      merged := MergeRow(mat, i, g[i], merged);
      MergesAnyStep(g, i);
    }
    MergesAnyStep(g, GridLen - 1);
    CellsAre(mat, swept);
  }

  /** `up`: transpose, cover_up, merge, cover_up, transpose. */
  method Up(game: array2<int>) returns (result: array2<int>, done: bool)
    requires game.Length0 == GridLen && game.Length1 == GridLen
    ensures fresh(result) && result.Length0 == GridLen && result.Length1 == GridLen
    ensures Cells(result) == MoveUp(Cells(game)).board
    ensures done == MoveUp(Cells(game)).done
  {
    var t := Transpose(game);
    var packed, d := CoverUp(t);
    d := Merge(packed, d);
    var repacked, ignored := CoverUp(packed);
    result := Transpose(repacked);
    done := d;
  }

  /** `down`: transpose then reverse, cover_up, merge, cover_up, reverse then transpose. */
  method Down(game: array2<int>) returns (result: array2<int>, done: bool)
    requires game.Length0 == GridLen && game.Length1 == GridLen
    ensures fresh(result) && result.Length0 == GridLen && result.Length1 == GridLen
    ensures Cells(result) == MoveDown(Cells(game)).board
    ensures done == MoveDown(Cells(game)).done
  {
    var t := Transpose(game);
    var tr := Reverse(t);
    var packed, d := CoverUp(tr);
    d := Merge(packed, d);
    var repacked, ignored := CoverUp(packed);
    var r := Reverse(repacked);
    result := Transpose(r);
    done := d;
  }

  /** `left`: cover_up, merge, cover_up. */
  method Left(game: array2<int>) returns (result: array2<int>, done: bool)
    requires game.Length0 == GridLen && game.Length1 == GridLen
    ensures fresh(result) && result.Length0 == GridLen && result.Length1 == GridLen
    ensures Cells(result) == MoveLeft(Cells(game)).board
    ensures done == MoveLeft(Cells(game)).done
  {
    var packed, d := CoverUp(game);
    d := Merge(packed, d);
    var ignored;
    result, ignored := CoverUp(packed);
    done := d;
  }

  /** `right`: reverse, cover_up, merge, cover_up, reverse. */
  method Right(game: array2<int>) returns (result: array2<int>, done: bool)
    requires game.Length0 == GridLen && game.Length1 == GridLen
    ensures fresh(result) && result.Length0 == GridLen && result.Length1 == GridLen
    ensures Cells(result) == MoveRight(Cells(game)).board
    ensures done == MoveRight(Cells(game)).done
  {
    var r := Reverse(game);
    var packed, d := CoverUp(r);
    d := Merge(packed, d);
    var repacked, ignored := CoverUp(packed);
    result := Reverse(repacked);
    done := d;
  }
}
