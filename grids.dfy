/** Boards as values: an n-by-n grid of cells, the two grid transforms
    `reverse` and `transpose`, and the board's total. */
module Grids {
  import opened Rows

  type Grid = seq<seq<int>>

  /** The contents of a two-dimensional array, row by row. */
  function Cells(m: array2<int>): (g: Grid)
    reads m
    ensures |g| == m.Length0
    ensures forall i :: 0 <= i < |g| ==> |g[i]| == m.Length1
    ensures forall i, j :: 0 <= i < m.Length0 && 0 <= j < m.Length1 ==> g[i][j] == m[i, j]
  {
    seq(m.Length0, i requires 0 <= i < m.Length0 reads m =>
      seq(m.Length1, j requires 0 <= j < m.Length1 reads m => m[i, j]))
  }

  /** Two grids with the same shape and the same cells are equal. */
  lemma {:induction false} CellsAre(m: array2<int>, g: Grid)
    requires |g| == m.Length0
    requires forall i :: 0 <= i < |g| ==> |g[i]| == m.Length1
    requires forall i, j :: 0 <= i < m.Length0 && 0 <= j < m.Length1 ==> m[i, j] == g[i][j]
    ensures Cells(m) == g
  {
    forall i | 0 <= i < |g| ensures Cells(m)[i] == g[i] {
      assert |Cells(m)[i]| == |g[i]|;
    }
  }

  /** Every row of g has width w. */
  predicate IsRect(g: Grid, w: nat)
  {
    forall i :: 0 <= i < |g| ==> |g[i]| == w
  }

  /** g has n rows of n cells each. */
  predicate IsSquare(g: Grid, n: nat)
  {
    |g| == n && IsRect(g, n)
  }

  /** A row read right to left. */
  function Mirror(row: Row): (r: Row)
    ensures |r| == |row|
  {
    seq(|row|, j requires 0 <= j < |row| => row[|row| - 1 - j])
  }

  /** `reverse`: every row mirrored left to right. */
  function Reversed(g: Grid): (r: Grid)
    ensures |r| == |g|
    ensures forall i :: 0 <= i < |g| ==> |r[i]| == |g[i]|
  {
    seq(|g|, i requires 0 <= i < |g| => Mirror(g[i]))
  }

  /** `transpose` of a square grid: rows become columns. */
  function Transposed(g: Grid): (r: Grid)
    requires IsSquare(g, |g|)
    ensures IsSquare(r, |g|)
  {
    seq(|g|, i requires 0 <= i < |g| => seq(|g|, j requires 0 <= j < |g| => g[j][i]))
  }

  /** The sum of all cells of a grid. */
  function Total(g: Grid): int
  {
    if g == [] then 0 else Sum(g[0]) + Total(g[1..])
  }

  /** Some cell of the grid holds v. */
  predicate HasCell(g: Grid, v: int)
  {
    exists i, j :: 0 <= i < |g| && 0 <= j < |g[i]| && g[i][j] == v
  }

  /** The cell at (i, j) of a square grid equals its right or its lower neighbour. */
  predicate PairsAt(g: Grid, i: nat, j: nat)
    requires IsSquare(g, |g|) && i < |g| && j < |g|
  {
    (j + 1 < |g| && g[i][j] == g[i][j + 1]) || (i + 1 < |g| && g[i][j] == g[i + 1][j])
  }

  /** Some two axis-adjacent cells of a square grid hold the same value. */
  predicate HasEqualNeighbours(g: Grid)
    requires IsSquare(g, |g|)
  {
    exists i: nat, j: nat :: i < |g| && j < |g| && PairsAt(g, i, j)
  }

  /** The board invariant: every cell is empty or a power of two of at least 2. */
  predicate BoardOk(g: Grid)
  {
    forall i :: 0 <= i < |g| ==> RowOk(g[i])
  }

  // ---------------------------------------------------------------------
  // Involutions

  lemma {:induction false} MirrorTwice(row: Row)
    ensures Mirror(Mirror(row)) == row
  {
  }

  /** `reverse` undoes itself, on a grid of any shape. */
  lemma {:induction false} ReversedTwice(g: Grid)
    ensures Reversed(Reversed(g)) == g
  {
    forall i | 0 <= i < |g| ensures Reversed(Reversed(g))[i] == g[i] {
      MirrorTwice(g[i]);
    }
  }

  /** `transpose` undoes itself on a square grid. */
  lemma {:induction false} TransposedTwice(g: Grid)
    requires IsSquare(g, |g|)
    ensures Transposed(Transposed(g)) == g
  {
    var t := Transposed(Transposed(g));
    forall i | 0 <= i < |g| ensures t[i] == g[i] {
      assert |t[i]| == |g[i]|;
    }
  }

  /** `reverse` keeps a square grid square. */
  lemma {:induction false} ReversedSquare(g: Grid, n: nat)
    requires IsSquare(g, n)
    ensures IsSquare(Reversed(g), n)
  {
  }

  // ---------------------------------------------------------------------
  // Totals

  /** Grids whose rows have pairwise equal sums have the same total. */
  lemma {:induction false} TotalRowwise(g: Grid, h: Grid)
    requires |g| == |h|
    requires forall i :: 0 <= i < |g| ==> Sum(h[i]) == Sum(g[i])
    ensures Total(h) == Total(g)
  {
    if g != [] {
      TotalRowwise(g[1..], h[1..]);
    }
  }

  lemma {:induction false} SumSnoc(s: Row, x: int)
    ensures Sum(s + [x]) == Sum(s) + x
  {
    SumAppend(s, [x]);
    assert [x][1..] == [];
  }

  lemma {:induction false} SumMirror(row: Row)
    ensures Sum(Mirror(row)) == Sum(row)
  {
    if row != [] {
      SumMirror(row[1..]);
      assert Mirror(row) == Mirror(row[1..]) + [row[0]];
      SumSnoc(Mirror(row[1..]), row[0]);
    }
  }

  /** `reverse` keeps the board's total. */
  lemma {:induction false} TotalReversed(g: Grid)
    ensures Total(Reversed(g)) == Total(g)
  {
    forall i | 0 <= i < |g| ensures Sum(Reversed(g)[i]) == Sum(g[i]) {
      SumMirror(g[i]);
    }
    TotalRowwise(g, Reversed(g));
  }

  /** The sum of column j of a grid. */
  function ColumnSum(g: Grid, j: nat): int
    requires forall i :: 0 <= i < |g| ==> j < |g[i]|
  {
    if g == [] then 0 else g[0][j] + ColumnSum(g[1..], j)
  }

  /** Entry-wise sums of rows add up. */
  lemma {:induction false} SumPointwise(a: Row, b: Row, c: Row)
    requires |a| == |b| == |c|
    requires forall j :: 0 <= j < |c| ==> c[j] == a[j] + b[j]
    ensures Sum(c) == Sum(a) + Sum(b)
  {
    if c != [] {
      SumPointwise(a[1..], b[1..], c[1..]);
    }
  }

  /** The column sums of a grid of width w. */
  function ColumnSums(g: Grid, w: nat): (r: Row)
    requires IsRect(g, w)
    ensures |r| == w
  {
    seq(w, j requires 0 <= j < w => ColumnSum(g, j))
  }

  /** Summing a grid by columns gives its total. */
  lemma {:induction false} TotalByColumns(g: Grid, w: nat)
    requires IsRect(g, w)
    ensures Total(g) == Sum(ColumnSums(g, w))
  {
    if g == [] {
      assert ColumnSums(g, w) == Zeros(w);
      SumZeros(w);
    } else {
      TotalByColumns(g[1..], w);
      SumPointwise(g[0], ColumnSums(g[1..], w), ColumnSums(g, w));
    }
  }

  /** A column whose entries are those of row r sums to Sum(r). */
  lemma {:induction false} ColumnSumIs(h: Grid, j: nat, r: Row)
    requires forall i :: 0 <= i < |h| ==> j < |h[i]|
    requires |h| == |r|
    requires forall i :: 0 <= i < |h| ==> h[i][j] == r[i]
    ensures ColumnSum(h, j) == Sum(r)
  {
    if h != [] {
      ColumnSumIs(h[1..], j, r[1..]);
    }
  }

  /** The row sums of a grid. */
  function RowSums(g: Grid): (r: Row)
    ensures |r| == |g|
  {
    seq(|g|, i requires 0 <= i < |g| => Sum(g[i]))
  }

  lemma {:induction false} TotalByRows(g: Grid)
    ensures Total(g) == Sum(RowSums(g))
  {
    if g != [] {
      TotalByRows(g[1..]);
      assert RowSums(g)[1..] == RowSums(g[1..]);
    }
  }

  /** `transpose` keeps the board's total. */
  lemma {:induction false} TotalTransposed(g: Grid)
    requires IsSquare(g, |g|)
    ensures Total(Transposed(g)) == Total(g)
  {
    var n := |g|;
    var t := Transposed(g);
    TotalByColumns(t, n);
    forall j | 0 <= j < n ensures ColumnSums(t, n)[j] == RowSums(g)[j] {
      ColumnSumIs(t, j, g[j]);
    }
    assert ColumnSums(t, n) == RowSums(g);
    TotalByRows(g);
  }

  // ---------------------------------------------------------------------
  // The board invariant

  /** `reverse` only moves cells, so it keeps the board invariant. */
  lemma {:induction false} ReversedOk(g: Grid)
    requires BoardOk(g)
    ensures BoardOk(Reversed(g))
  {
  }

  /** `transpose` only moves cells, so it keeps the board invariant. */
  lemma {:induction false} TransposedOk(g: Grid)
    requires IsSquare(g, |g|)
    requires BoardOk(g)
    ensures BoardOk(Transposed(g))
  {
  }

  /** Spawning a 2 into one cell, everything else unchanged, keeps the board invariant. */
  lemma {:induction false} SpawnOk(g: Grid, h: Grid, a: nat, b: nat)
    requires |h| == |g| && forall i :: 0 <= i < |g| ==> |h[i]| == |g[i]|
    requires a < |g| && b < |g[a]| && h[a][b] == 2
    requires forall i, j :: 0 <= i < |g| && 0 <= j < |g[i]| && (i, j) != (a, b) ==> h[i][j] == g[i][j]
    requires BoardOk(g)
    ensures BoardOk(h)
  {
  }
}
