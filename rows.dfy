/** One row of a 2048 board and the two per-row primitives of a move:
    sliding the tiles to the left (`cover_up`) and the single merging
    sweep (`merge`). An entry of 0 is an empty cell. */
module Rows {

  type Row = seq<int>

  /** The sum of the entries of a row. */
  function Sum(s: seq<int>): int
  {
    if s == [] then 0 else s[0] + Sum(s[1..])
  }

  /** A row of k empty cells. */
  function Zeros(k: nat): (z: Row)
    ensures |z| == k
    ensures forall i :: 0 <= i < k ==> z[i] == 0
  {
    seq(k, _ => 0)
  }

  /** The tiles (non-zero entries) of a row, in their original order. */
  function NonZero(row: Row): (t: Row)
    ensures |t| <= |row|
    ensures forall i :: 0 <= i < |t| ==> t[i] != 0
  {
    if row == [] then []
    else if row[0] == 0 then NonZero(row[1..])
    else [row[0]] + NonZero(row[1..])
  }

  /** The row that `cover_up` builds: the tiles of `row` in order, then empty cells. */
  function Slide(row: Row): (r: Row)
    ensures |r| == |row|
  {
    NonZero(row) + Zeros(|row| - |NonZero(row)|)
  }

  /** The flag `cover_up` raises for a row: some tile is written to a column
      other than the one it came from. A tile's new column is the number of
      tiles to its left. */
  predicate Shifts(row: Row)
  {
    exists j :: 0 <= j < |row| && row[j] != 0 && |NonZero(row[..j])| != j
  }

  /** Some tile among the first j cells is written to a different column. */
  predicate ShiftsBefore(row: Row, j: nat)
    requires j <= |row|
  {
    exists k :: 0 <= k < j && row[k] != 0 && |NonZero(row[..k])| != k
  }

  /** The pair at columns j and j + 1 merges. */
  predicate Fires(row: Row, j: nat)
    requires j + 1 < |row|
  {
    row[j] == row[j + 1] && row[j] != 0
  }

  /** What the single left-to-right sweep of `merge` does to one row: when the
      cells at columns 0 and 1 hold the same tile, column 0 is doubled and
      column 1 emptied; the sweep then goes on from column 1. */
  function Sweep(row: Row): (r: Row)
    ensures |r| == |row|
    decreases |row|
  {
    if |row| < 2 then row
    else if Fires(row, 0) then [2 * row[0]] + Sweep([0] + row[2..])
    else [row[0]] + Sweep(row[1..])
  }

  /** The flag `merge` raises for a row: the sweep merged some pair. */
  predicate SweepMerges(row: Row)
    decreases |row|
  {
    |row| >= 2 && (Fires(row, 0) || SweepMerges(row[1..]))
  }

  /** One iteration of the sweep's loop at column j. */
  function MergeAt(row: Row, j: nat): (r: Row)
    requires j + 1 < |row|
    ensures |r| == |row|
    ensures forall c :: 0 <= c < |row| ==>
              r[c] == (if Fires(row, j) && c == j then 2 * row[j]
                       else if Fires(row, j) && c == j + 1 then 0 else row[c])
  {
    if Fires(row, j) then row[j := 2 * row[j]][j + 1 := 0] else row
  }

  /** The reference meaning of a left move on the tiles of a row: equal
      neighbours pair up from the left, each tile taking part in at most one
      merge. */
  function Collapse(t: Row): (r: Row)
    ensures |r| <= |t|
    decreases |t|
  {
    if |t| < 2 then t
    else if t[0] == t[1] then [2 * t[0]] + Collapse(t[2..])
    else [t[0]] + Collapse(t[1..])
  }

  /** The canonical sequence cover_up, merge, cover_up applied to one row. */
  function MoveRow(row: Row): (r: Row)
    ensures |r| == |row|
  {
    Slide(Sweep(Slide(row)))
  }

  /** The flag a move reports for one row: the first cover_up or the merge raised it. */
  predicate MoveRowDone(row: Row)
  {
    Shifts(row) || SweepMerges(Slide(row))
  }

  /** x is a power of two: 1, 2, 4, 8, ... */
  predicate IsPow2(x: int)
    decreases if x < 0 then 0 else x
  {
    x == 1 || (x >= 2 && x % 2 == 0 && IsPow2(x / 2))
  }

  /** A cell of a well-formed board: empty, or a tile that is a power of two of at least 2. */
  predicate TileOk(x: int)
  {
    x == 0 || (x >= 2 && IsPow2(x))
  }

  /** Every cell of the row is empty or a tile. */
  predicate RowOk(row: Row)
  {
    forall j :: 0 <= j < |row| ==> TileOk(row[j])
  }

  // ---------------------------------------------------------------------
  // Sums

  lemma {:induction false} SumAppend(a: Row, b: Row)
    ensures Sum(a + b) == Sum(a) + Sum(b)
  {
    if a == [] {
      assert a + b == b;
    } else {
      assert (a + b)[0] == a[0];
      assert (a + b)[1..] == a[1..] + b;
      SumAppend(a[1..], b);
    }
  }

  lemma {:induction false} SumZeros(k: nat)
    ensures Sum(Zeros(k)) == 0
  {
    if k > 0 {
      assert Zeros(k)[1..] == Zeros(k - 1);
      SumZeros(k - 1);
    }
  }

  lemma {:induction false} SumNonZero(row: Row)
    ensures Sum(NonZero(row)) == Sum(row)
  {
    if row != [] {
      SumNonZero(row[1..]);
      if row[0] != 0 {
        assert ([row[0]] + NonZero(row[1..]))[1..] == NonZero(row[1..]);
      }
    }
  }

  /** cover_up keeps a row's total. */
  lemma {:induction false} SumSlide(row: Row)
    ensures Sum(Slide(row)) == Sum(row)
  {
    SumAppend(NonZero(row), Zeros(|row| - |NonZero(row)|));
    SumZeros(|row| - |NonZero(row)|);
    SumNonZero(row);
  }

  /** The merging sweep keeps a row's total: each merge replaces a, a by 2a, 0. */
  lemma {:induction false} SumSweep(row: Row)
    ensures Sum(Sweep(row)) == Sum(row)
    decreases |row|
  {
    if |row| >= 2 {
      if Fires(row, 0) {
        var tail := [0] + row[2..];
        SumSweep(tail);
        assert ([2 * row[0]] + Sweep(tail))[1..] == Sweep(tail);
        assert tail[1..] == row[2..];
        assert row[1..][1..] == row[2..];
      } else {
        SumSweep(row[1..]);
        assert ([row[0]] + Sweep(row[1..]))[1..] == Sweep(row[1..]);
      }
    }
  }

  /** A whole left move keeps a row's total. */
  lemma {:induction false} SumMoveRow(row: Row)
    ensures Sum(MoveRow(row)) == Sum(row)
  {
    SumSlide(row);
    SumSweep(Slide(row));
    SumSlide(Sweep(Slide(row)));
  }

  // ---------------------------------------------------------------------
  // Facts about NonZero

  lemma {:induction false} NonZeroAppend(a: Row, b: Row)
    ensures NonZero(a + b) == NonZero(a) + NonZero(b)
  {
    if a == [] {
      assert a + b == b;
    } else {
      assert (a + b)[0] == a[0];
      assert (a + b)[1..] == a[1..] + b;
      NonZeroAppend(a[1..], b);
    }
  }

  lemma {:induction false} NonZeroOfTiles(t: Row)
    requires forall i :: 0 <= i < |t| ==> t[i] != 0
    ensures NonZero(t) == t
  {
    if t != [] {
      NonZeroOfTiles(t[1..]);
    }
  }

  lemma {:induction false} NonZeroEmpty(s: Row)
    ensures NonZero(s) == [] <==> forall i :: 0 <= i < |s| ==> s[i] == 0
  {
    if s != [] {
      NonZeroEmpty(s[1..]);
      assert forall i :: 1 <= i < |s| ==> s[i] == s[1..][i - 1];
    }
  }

  lemma {:induction false} NonZeroZeros(k: nat)
    ensures NonZero(Zeros(k)) == []
  {
    NonZeroEmpty(Zeros(k));
  }

  lemma {:induction false} NonZeroSlide(row: Row)
    ensures NonZero(Slide(row)) == NonZero(row)
  {
    NonZeroAppend(NonZero(row), Zeros(|row| - |NonZero(row)|));
    NonZeroOfTiles(NonZero(row));
    NonZeroZeros(|row| - |NonZero(row)|);
  }

  /** The tiles of a prefix grow by one entry at a time: the step the loop of
      `cover_up` takes. */
  lemma {:induction false} NonZeroSnoc(s: Row, j: nat)
    requires j < |s|
    ensures NonZero(s[..j + 1]) == NonZero(s[..j]) + (if s[j] != 0 then [s[j]] else [])
  {
    assert s[..j + 1] == s[..j] + [s[j]];
    NonZeroAppend(s[..j], [s[j]]);
    assert NonZero([s[j]]) == (if s[j] != 0 then [s[j]] else []) by {
      assert [s[j]][1..] == [];
    }
  }

  // ---------------------------------------------------------------------
  // cover_up

  /** The step the loop of `cover_up` takes on its flag. */
  lemma {:induction false} ShiftsBeforeStep(row: Row, j: nat)
    requires j < |row|
    ensures ShiftsBefore(row, j + 1) == (ShiftsBefore(row, j) || (row[j] != 0 && |NonZero(row[..j])| != j))
    ensures ShiftsBefore(row, |row|) == Shifts(row)
  {
  }

  /** The tiles of a prefix of [x] + rest. */
  lemma {:induction false} NonZeroPrefix(x: int, rest: Row, j: nat)
    requires 1 <= j <= |rest| + 1
    ensures ([x] + rest)[..j] == [x] + rest[..j - 1]
    ensures NonZero(([x] + rest)[..j]) == (if x == 0 then [] else [x]) + NonZero(rest[..j - 1])
  {
    assert ([x] + rest)[..j] == [x] + rest[..j - 1];
    assert ([x] + rest[..j - 1])[1..] == rest[..j - 1];
  }

  /** After a tile, the row shifts exactly when the rest shifts. */
  lemma {:induction false} ShiftsAfterTile(x: int, rest: Row)
    requires x != 0
    ensures Shifts([x] + rest) <==> Shifts(rest)
  {
    var row := [x] + rest;
    if Shifts(row) {
      var j :| 0 <= j < |row| && row[j] != 0 && |NonZero(row[..j])| != j;
      if j != 0 {
        NonZeroPrefix(x, rest, j);
        assert rest[j - 1] == row[j];
        assert Shifts(rest);
      }
    }
    if Shifts(rest) {
      var k :| 0 <= k < |rest| && rest[k] != 0 && |NonZero(rest[..k])| != k;
      NonZeroPrefix(x, rest, k + 1);
      assert row[k + 1] == rest[k];
      assert Shifts(row);
    }
  }

  /** After an empty cell, the row shifts exactly when some tile follows. */
  lemma {:induction false} ShiftsAfterGap(rest: Row)
    ensures Shifts([0] + rest) <==> NonZero(rest) != []
  {
    var row := [0] + rest;
    NonZeroEmpty(rest);
    if NonZero(rest) != [] {
      var k :| 0 <= k < |rest| && rest[k] != 0;
      NonZeroPrefix(0, rest, k + 1);
      assert row[k + 1] == rest[k];
      assert Shifts(row);
    } else {
      assert forall j :: 1 <= j < |row| ==> row[j] == rest[j - 1];
    }
  }

  /** The `done` flag of `cover_up` is raised exactly when the row changes. */
  lemma {:induction false} ShiftsIff(row: Row)
    ensures Shifts(row) <==> Slide(row) != row
    decreases |row|
  {
    if row != [] {
      var x, rest := row[0], row[1..];
      assert row == [x] + rest;
      if x != 0 {
        ShiftsIff(rest);
        ShiftsAfterTile(x, rest);
        assert Slide(row) == [x] + Slide(rest);
      } else {
        ShiftsAfterGap(rest);
        NonZeroEmpty(rest);
        if NonZero(rest) == [] {
          assert Slide(row) == Zeros(|row|);
          assert forall i :: 1 <= i < |row| ==> row[i] == rest[i - 1];
          assert Slide(row) == row;
        } else {
          assert Slide(row)[0] == NonZero(rest)[0] != 0;
        }
      }
    }
  }

  /** cover_up is idempotent: on its own output it changes nothing and raises no flag. */
  lemma {:induction false} SlideIdempotent(row: Row)
    ensures Slide(Slide(row)) == Slide(row)
    ensures !Shifts(Slide(row))
  {
    NonZeroSlide(row);
    ShiftsIff(Slide(row));
  }

  // ---------------------------------------------------------------------
  // merge

  /** One iteration of merge's loop at column j keeps the final outcome of the
      sweep: the finished prefix followed by the sweep of the rest. */
  lemma {:induction false} SweepStep(row: Row, j: nat)
    requires j + 1 < |row|
    ensures row[..j] + Sweep(row[j..]) == MergeAt(row, j)[..j + 1] + Sweep(MergeAt(row, j)[j + 1..])
    ensures !Fires(row, j) ==>
      MergeAt(row, j) == row && SweepMerges(row[j..]) == SweepMerges(row[j + 1..])
  {
    var s := row[j..];
    var a, b := row[j], row[j + 1];
    assert s[0] == a && s[1] == b && |s| >= 2;
    assert s[1..] == row[j + 1..];
    var m := MergeAt(row, j);
    if a == b && a != 0 {
      var rest := row[j + 2..];
      assert s[2..] == rest;
      assert Sweep(s) == [2 * a] + Sweep([0] + rest);
      assert m[..j + 1] == row[..j] + [2 * a];
      assert m[j + 1..] == [0] + rest;
    } else {
      assert m == row;
      assert Sweep(s) == [a] + Sweep(row[j + 1..]);
      assert row[..j + 1] == row[..j] + [a];
    }
  }

  /** The row after the first j iterations of merge's inner loop. */
  function MergeSteps(row: Row, j: nat): (r: Row)
    requires j < |row|
    ensures |r| == |row|
  {
    if j == 0 then row else MergeAt(MergeSteps(row, j - 1), j - 1)
  }

  /** Some pair fired during the first j iterations of merge's inner loop. */
  predicate FiredBefore(row: Row, j: nat)
    requires j < |row|
  {
    j > 0 && (FiredBefore(row, j - 1) || Fires(MergeSteps(row, j - 1), j - 1))
  }

  /** After j iterations the loop has fixed the first j cells of the sweep,
      and the rest of the sweep is the sweep of what remains. */
  lemma {:induction false} MergeStepsInvariant(row: Row, j: nat)
    requires j < |row|
    ensures Sweep(row) == MergeSteps(row, j)[..j] + Sweep(MergeSteps(row, j)[j..])
    ensures (FiredBefore(row, j) || SweepMerges(MergeSteps(row, j)[j..])) == SweepMerges(row)
  {
    if j == 0 {
      assert row[..0] == [] && row[0..] == row;
    } else {
      MergeStepsInvariant(row, j - 1);
      SweepStep(MergeSteps(row, j - 1), j - 1);
    }
  }

  /** The loop's whole run is the sweep, and its flag says whether the sweep merged. */
  lemma {:induction false} MergeStepsSweep(row: Row)
    requires |row| > 0
    ensures MergeSteps(row, |row| - 1) == Sweep(row)
    ensures FiredBefore(row, |row| - 1) == SweepMerges(row)
  {
    var n := |row| - 1;
    var m := MergeSteps(row, n);
    MergeStepsInvariant(row, n);
    SweepShort(m[n..]);
    assert m[..n] + m[n..] == m;
  }

  /** The sweep of a row of length below 2 is the row itself. */
  lemma {:induction false} SweepShort(row: Row)
    requires |row| < 2
    ensures Sweep(row) == row
  {
  }

  /** The `done` flag of `merge` is raised exactly when the sweep changes the row. */
  lemma {:induction false} SweepMergesIff(row: Row)
    ensures SweepMerges(row) <==> Sweep(row) != row
    decreases |row|
  {
    if |row| >= 2 {
      if Fires(row, 0) {
        assert Sweep(row)[0] == 2 * row[0] != row[0];
      } else {
        SweepMergesIff(row[1..]);
        assert row == [row[0]] + row[1..];
      }
    }
  }

  lemma {:induction false} SweepEmptyHead(y: Row)
    ensures Sweep([0] + y) == [0] + Sweep(y)
  {
    if |y| > 0 {
      assert ([0] + y)[1..] == y;
    }
  }

  lemma {:induction false} SweepZeros(k: nat)
    ensures Sweep(Zeros(k)) == Zeros(k)
  {
    if k > 0 {
      assert Zeros(k) == [0] + Zeros(k - 1);
      SweepEmptyHead(Zeros(k - 1));
      SweepZeros(k - 1);
    }
  }

  /** No cascading: on a row whose tiles are packed to the left, the sweep
      leaves exactly the tiles of the reference `Collapse`. */
  lemma {:induction false} SweepCollapse(t: Row, k: nat)
    requires forall i :: 0 <= i < |t| ==> t[i] != 0
    ensures NonZero(Sweep(t + Zeros(k))) == Collapse(t)
    decreases |t|
  {
    var x := t + Zeros(k);
    if |t| == 0 {
      assert x == Zeros(k);
      SweepZeros(k);
      NonZeroZeros(k);
    } else if |t| == 1 {
      if k == 0 {
        assert x == t;
      } else {
        assert x[1] == 0;
        assert x[1..] == Zeros(k);
        SweepZeros(k);
        NonZeroZeros(k);
        assert Sweep(x) == [t[0]] + Zeros(k);
        assert ([t[0]] + Zeros(k))[1..] == Zeros(k);
      }
    } else if t[0] == t[1] {
      assert x[2..] == t[2..] + Zeros(k);
      SweepEmptyHead(x[2..]);
      SweepCollapse(t[2..], k);
      assert Sweep(x) == [2 * t[0]] + ([0] + Sweep(x[2..]));
      assert ([2 * t[0]] + ([0] + Sweep(x[2..])))[1..] == [0] + Sweep(x[2..]);
      assert ([0] + Sweep(x[2..]))[1..] == Sweep(x[2..]);
    } else {
      assert x[1..] == t[1..] + Zeros(k);
      SweepCollapse(t[1..], k);
      assert ([t[0]] + Sweep(x[1..]))[1..] == Sweep(x[1..]);
    }
  }

  /** Each merge of the sweep turns two tiles into one. */
  lemma {:induction false} SweepCount(x: Row)
    ensures |NonZero(Sweep(x))| <= |NonZero(x)|
    ensures SweepMerges(x) ==> |NonZero(Sweep(x))| < |NonZero(x)|
    decreases |x|
  {
    if |x| >= 2 {
      if Fires(x, 0) {
        SweepEmptyHead(x[2..]);
        SweepCount(x[2..]);
        assert Sweep(x) == [2 * x[0]] + ([0] + Sweep(x[2..]));
        assert ([2 * x[0]] + ([0] + Sweep(x[2..])))[1..] == [0] + Sweep(x[2..]);
        assert ([0] + Sweep(x[2..]))[1..] == Sweep(x[2..]);
        assert x[1..][1..] == x[2..];
      } else {
        SweepCount(x[1..]);
        assert ([x[0]] + Sweep(x[1..]))[1..] == Sweep(x[1..]);
      }
    }
  }

  // ---------------------------------------------------------------------
  // The whole left move on one row

  /** A left move on a row leaves the collapsed tiles packed to the left. */
  lemma {:induction false} MoveRowCollapse(row: Row)
    ensures |Collapse(NonZero(row))| <= |row|
    ensures MoveRow(row) == Collapse(NonZero(row)) + Zeros(|row| - |Collapse(NonZero(row))|)
  {
    var t := NonZero(row);
    SweepCollapse(t, |row| - |t|);
  }

  /** The flag of a left move on a row is raised exactly when the row changes. */
  lemma {:induction false} MoveRowDoneIff(row: Row)
    ensures MoveRowDone(row) <==> MoveRow(row) != row
  {
    var s := Slide(row);
    if SweepMerges(s) {
      SweepCount(s);
      NonZeroSlide(row);
      NonZeroSlide(Sweep(s));
      assert |NonZero(MoveRow(row))| < |NonZero(row)|;
    } else {
      SweepMergesIff(s);
      SlideIdempotent(row);
      ShiftsIff(row);
    }
  }

  // ---------------------------------------------------------------------
  // The board invariant on one row

  /** Doubling a cell, as a merge does, keeps it empty or a tile. */
  lemma DoubleTileOk(x: int)
    requires TileOk(x)
    ensures TileOk(2 * x)
  {
  }

  lemma {:induction false} NonZeroOk(row: Row)
    requires RowOk(row)
    ensures RowOk(NonZero(row))
  {
    if row != [] {
      NonZeroOk(row[1..]);
    }
  }

  /** Pairing equal tiles from the left leaves only tiles. */
  lemma {:induction false} CollapseOk(t: Row)
    requires RowOk(t)
    ensures RowOk(Collapse(t))
    decreases |t|
  {
    if |t| >= 2 {
      if t[0] == t[1] {
        DoubleTileOk(t[0]);
        CollapseOk(t[2..]);
      } else {
        CollapseOk(t[1..]);
      }
    }
  }

  /** A left move keeps every cell of a row empty or a power of two of at least 2. */
  lemma {:induction false} MoveRowOk(row: Row)
    requires RowOk(row)
    ensures RowOk(MoveRow(row))
  {
    var t := NonZero(row);
    MoveRowCollapse(row);
    NonZeroOk(row);
    CollapseOk(t);
  }
}
