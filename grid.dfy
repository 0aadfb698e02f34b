/**
 * The 5 x 11 gaze grid (classify_eye_grid, gaze_analysis.py:20-28) and the
 * count matrix laid over it (the activation map, gaze_analysis.py:77).
 */
module Grid {
  import opened Reductions

  const ROWS: nat := 5
  const COLS: nat := 11

  /** A grid position as classify_eye_grid returns it: (row, col). */
  datatype Cell = Cell(row: int, col: int)

  predicate InGrid(c: Cell)
  {
    0 <= c.row < ROWS && 0 <= c.col < COLS
  }

  /** A matrix with the grid's shape. */
  predicate IsGrid<T>(m: seq<seq<T>>)
  {
    |m| == ROWS && forall i :: 0 <= i < |m| ==> |m[i]| == COLS
  }

  /** The activation map's values: one non-negative counter per cell. */
  type Counts = seq<seq<nat>>

  /** np.sum over the whole matrix: a sum of counts, never negative. */
  function Total(m: Counts): (t: int)
    ensures t >= 0
  {
    RowSumsNonNegative(m);
    SumNonNegative(RowSums(m));
    Sum(RowSums(m))
  }

  function RowSums(m: Counts): seq<int>
  {
    seq(|m|, i requires 0 <= i < |m| => Sum(m[i]))
  }

  /** Every row of counts has a non-negative sum. */
  lemma RowSumsNonNegative(m: Counts)
    ensures NonNegative(RowSums(m))
  {
    forall k | 0 <= k < |m|
      ensures RowSums(m)[k] >= 0
    {
      SumNonNegative(m[k]);
    }
  }

  /** Python's int() on a float: truncation toward zero. */
  function Trunc(x: real): (t: int)
    ensures 0.0 <= x ==> 0 <= t && t as real <= x < t as real + 1.0
    ensures x < 0.0 ==> t <= 0 && t as real - 1.0 < x <= t as real
  {
    if x >= 0.0 then x.Floor else -((-x).Floor)
  }

  /** min(max(v, lo), hi). */
  function Clamp(v: int, lo: int, hi: int): (c: int)
    requires lo <= hi
    ensures lo <= c <= hi
    ensures lo <= v <= hi ==> c == v
    ensures v < lo ==> c == lo
    ensures hi < v ==> c == hi
  {
    var raised := if v > lo then v else lo;
    if raised < hi then raised else hi
  }

  /** One axis of the classifier: int(ratio * n), clamped into [0, n - 1]. */
  function Bin(ratio: real, n: nat): (k: int)
    requires n > 0
    ensures 0 <= k < n
  {
    Clamp(Trunc(ratio * n as real), 0, n - 1)
  }

  /** classify_eye_grid: the cell of a (horizontal, vertical) ratio pair; never outside the grid. */
  function Classify(horizontal: real, vertical: real): (c: Cell)
    ensures InGrid(c)
  {
    Cell(Bin(vertical, ROWS), Bin(horizontal, COLS))
  }

  /**
   * The ratios that fall in bin k of n: [k/n, (k+1)/n), except that the
   * first bin also takes everything below and the last everything above.
   */
  predicate InBand(ratio: real, k: int, n: nat)
    requires n > 0
  {
    (k == 0 || k as real / n as real <= ratio) &&
    (k == n - 1 || ratio < (k + 1) as real / n as real)
  }

  lemma BelowBoundary(ratio: real, k: int, n: nat)
    requires n > 0
    ensures k as real / n as real <= ratio <==> k as real <= ratio * n as real
  {
    var q := k as real / n as real;
    assert q * n as real == k as real;
  }

  /** A ratio lands in bin k exactly when it lies in the k-th band. */
  lemma BinIff(ratio: real, n: nat, k: int)
    requires n > 0 && 0 <= k < n
    ensures Bin(ratio, n) == k <==> InBand(ratio, k, n)
  {
    BelowBoundary(ratio, k, n);
    BelowBoundary(ratio, k + 1, n);
  }

  /** Column binning: col is k exactly when the horizontal ratio is in the k-th of 11 bands. */
  lemma ColumnBands(horizontal: real, vertical: real, k: int)
    requires 0 <= k < COLS
    ensures Classify(horizontal, vertical).col == k <==> InBand(horizontal, k, COLS)
  {
    BinIff(horizontal, COLS, k);
  }

  /** Row binning: row is k exactly when the vertical ratio is in the k-th of 5 bands. */
  lemma RowBands(horizontal: real, vertical: real, k: int)
    requires 0 <= k < ROWS
    ensures Classify(horizontal, vertical).row == k <==> InBand(vertical, k, ROWS)
  {
    BinIff(vertical, ROWS, k);
  }

  /** Out-of-range ratios are clamped to the edge cells, never rejected or wrapped. */
  lemma ClassifyClamps(horizontal: real, vertical: real)
    ensures horizontal >= 1.0 ==> Classify(horizontal, vertical).col == COLS - 1
    ensures horizontal < 0.0 ==> Classify(horizontal, vertical).col == 0
    ensures vertical >= 1.0 ==> Classify(horizontal, vertical).row == ROWS - 1
    ensures vertical < 0.0 ==> Classify(horizontal, vertical).row == 0
  {
  }

  /** The centre of the box falls in cell (2, 5); a horizontal ratio of 1.3 in the last column. */
  lemma ClassifyExamples(vertical: real)
    ensures Classify(0.5, 0.5) == Cell(2, 5)
    ensures Classify(1.3, vertical).col == 10
  {
  }
}
