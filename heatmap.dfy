/**
 * The numeric part of plot_eye_grid (gaze_analysis.py:35-51): the map of
 * dwell-time percentages, its maximum, each cell's relative intensity,
 * whether the cell is labelled, and the label's text colour.
 */
module Heatmap {
  import opened Wrappers
  import opened Reductions
  import opened Grid

  type Percentages = seq<seq<real>>

  /** (activation_map / total) * 100 when the total is positive, otherwise the map itself. */
  function PercentageMap(m: Counts): (p: Percentages)
    requires IsGrid(m)
    ensures IsGrid(p)
    ensures Total(m) <= 0 ==> forall i, j :: 0 <= i < ROWS && 0 <= j < COLS ==> p[i][j] == m[i][j] as real
  {
    var total := Total(m);
    if total > 0 then
      seq(ROWS, i requires 0 <= i < ROWS => seq(COLS, j requires 0 <= j < COLS => m[i][j] as real / total as real * 100.0))
    else
      seq(ROWS, i requires 0 <= i < ROWS => seq(COLS, j requires 0 <= j < COLS => m[i][j] as real))
  }

  /** np.max over the percentage map. */
  function MaxPercentage(p: Percentages): (top: real)
    requires IsGrid(p)
    ensures forall i, j :: 0 <= i < ROWS && 0 <= j < COLS ==> p[i][j] <= top
    ensures exists i, j :: 0 <= i < ROWS && 0 <= j < COLS && p[i][j] == top
  {
    var rowMax := seq(ROWS, i requires 0 <= i < ROWS => Max(p[i]));
    var top := Max(rowMax);
    forall i, j | 0 <= i < ROWS && 0 <= j < COLS
      ensures p[i][j] <= top
    {
      assert p[i][j] <= rowMax[i];
    }
    var k :| 0 <= k < ROWS && rowMax[k] == top;
    assert exists j :: 0 <= j < COLS && p[k][j] == rowMax[k];
    top
  }

  /** percentage / max_percentage, or 0 when the maximum is not positive. */
  function Intensity(p: Percentages, i: int, j: int): (v: real)
    requires IsGrid(p)
    requires 0 <= i < ROWS && 0 <= j < COLS
    ensures MaxPercentage(p) <= 0.0 ==> v == 0.0
    ensures 0.0 <= p[i][j] ==> 0.0 <= v <= 1.0
    ensures MaxPercentage(p) > 0.0 && p[i][j] == MaxPercentage(p) ==> v == 1.0
  {
    var top := MaxPercentage(p);
    if top <= 0.0 then 0.0
    else if p[i][j] < 0.0 then p[i][j] / top
    else
      ShareOfMax(p[i][j], top);
      p[i][j] / top
  }

  datatype TextColor = Black | White

  /** The text drawn at a cell's centre: its percentage, in a colour chosen by intensity. */
  datatype Caption = Caption(percent: real, color: TextColor)

  /** What is drawn for one cell: its fill intensity and its caption, if any. */
  datatype CellView = CellView(intensity: real, caption: Option<Caption>)

  /** One cell: filled by its intensity, captioned with its percentage when positive, black text below intensity 0.5. */
  function RenderCell(p: Percentages, i: int, j: int): (view: CellView)
    requires IsGrid(p)
    requires 0 <= i < ROWS && 0 <= j < COLS
    ensures view.intensity == Intensity(p, i, j)
    ensures view.caption.Some? <==> p[i][j] > 0.0
    ensures view.caption.Some? ==> view.caption.value.percent == p[i][j]
    ensures view.caption.Some? ==> (view.caption.value.color == Black <==> view.intensity < 0.5)
  {
    var v := Intensity(p, i, j);
    var caption := if p[i][j] > 0.0 then Some(Caption(p[i][j], if v < 0.5 then Black else White)) else None;
    CellView(v, caption)
  }

  /** The grid of cells plot_eye_grid draws for an activation map. */
  function Render(m: Counts): (view: seq<seq<CellView>>)
    requires IsGrid(m)
    ensures IsGrid(view)
    ensures forall i, j :: 0 <= i < ROWS && 0 <= j < COLS ==> view[i][j] == RenderCell(PercentageMap(m), i, j)
  {
    var p := PercentageMap(m);
    seq(ROWS, i requires 0 <= i < ROWS => seq(COLS, j requires 0 <= j < COLS => RenderCell(p, i, j)))
  }

  /** Each count lies between 0 and the total. */
  lemma CountAtMostTotal(m: Counts, i: int, j: int)
    requires IsGrid(m)
    requires 0 <= i < ROWS && 0 <= j < COLS
    ensures m[i][j] <= Total(m)
  {
    ElementAtMostSum(m[i], j);
    assert forall k :: 0 <= k < |m| ==> RowSums(m)[k] == Sum(m[k]);
    forall k | 0 <= k < |m|
      ensures RowSums(m)[k] >= 0
    {
      SumNonNegative(m[k]);
    }
    ElementAtMostSum(RowSums(m), i);
  }

  /** With a positive total every percentage lies in [0, 100]. */
  lemma PercentagesInRange(m: Counts)
    requires IsGrid(m)
    requires Total(m) > 0
    ensures forall i, j :: 0 <= i < ROWS && 0 <= j < COLS ==> 0.0 <= PercentageMap(m)[i][j] <= 100.0
  {
    var t := Total(m) as real;
    forall i, j | 0 <= i < ROWS && 0 <= j < COLS
      ensures 0.0 <= PercentageMap(m)[i][j] <= 100.0
    {
      CountAtMostTotal(m, i, j);
      var x := m[i][j] as real;
      assert x / t <= 1.0;
    }
  }

  /** The real-valued np.sum over a matrix. */
  function RealTotal(p: Percentages): real
  {
    RealSum(seq(|p|, i requires 0 <= i < |p| => RealSum(p[i])))
  }

  /** With a positive total the percentages add up to 100. */
  lemma PercentagesSumTo100(m: Counts)
    requires IsGrid(m)
    requires Total(m) > 0
    ensures RealTotal(PercentageMap(m)) == 100.0
  {
    var p := PercentageMap(m);
    var t := Total(m) as real;
    var rowTotals := seq(|p|, i requires 0 <= i < |p| => RealSum(p[i]));
    forall i | 0 <= i < ROWS
      ensures rowTotals[i] == Sum(m[i]) as real / t * 100.0
    {
      SumScaled(m[i], p[i], t, 100.0);
    }
    SumScaled(RowSums(m), rowTotals, t, 100.0);
  }

  /** A cell that holds every count of the map shows 100 percent. */
  lemma WholeShare(m: Counts, i: int, j: int)
    requires IsGrid(m)
    requires 0 <= i < ROWS && 0 <= j < COLS
    requires Total(m) > 0 && m[i][j] == Total(m)
    ensures PercentageMap(m)[i][j] == 100.0
  {
    var t := Total(m) as real;
    ShareOfMax(t, t);
    assert PercentageMap(m)[i][j] == t / t * 100.0;
  }

  /** With a zero total nothing is divided: the map passes through unchanged, and it is all zeros. */
  lemma ZeroTotalPassesThrough(m: Counts)
    requires IsGrid(m)
    requires Total(m) == 0
    ensures forall i, j :: 0 <= i < ROWS && 0 <= j < COLS ==> PercentageMap(m)[i][j] == m[i][j] as real
    ensures forall i, j :: 0 <= i < ROWS && 0 <= j < COLS ==> PercentageMap(m)[i][j] == 0.0
  {
    RowSumsNonNegative(m);
    SumZeroIffAllZero(RowSums(m));
    forall i, j | 0 <= i < ROWS && 0 <= j < COLS
      ensures m[i][j] == 0
    {
      assert Sum(m[i]) == RowSums(m)[i] == 0;
      SumZeroIffAllZero(m[i]);
    }
  }

  /** Percentages of counts are non-negative. */
  lemma PercentagesNonNegative(m: Counts)
    requires IsGrid(m)
    ensures forall i, j :: 0 <= i < ROWS && 0 <= j < COLS ==> 0.0 <= PercentageMap(m)[i][j]
  {
    if Total(m) > 0 {
      PercentagesInRange(m);
    }
  }

  /** A share of a positive maximum, for a value between 0 and that maximum. */
  lemma ShareOfMax(x: real, top: real)
    requires 0.0 <= x <= top
    requires top > 0.0
    ensures 0.0 <= x / top <= 1.0
    ensures x == top ==> x / top == 1.0
  {
    var q := x / top;
    assert q * top == x;
    if q < 1.0 {
      var gap := 1.0 - q;
      ProductPositive(gap, top);
      assert x == top - gap * top;
    }
  }

  /**
   * Relative intensity lies in [0, 1], is 1 at every maximal cell when the
   * maximum is positive, and is 0 everywhere when the maximum is 0.
   */
  lemma IntensityBounds(m: Counts, i: int, j: int)
    requires IsGrid(m)
    requires 0 <= i < ROWS && 0 <= j < COLS
    ensures var p := PercentageMap(m);
            0.0 <= Intensity(p, i, j) <= 1.0 &&
            (MaxPercentage(p) > 0.0 && p[i][j] == MaxPercentage(p) ==> Intensity(p, i, j) == 1.0) &&
            (MaxPercentage(p) == 0.0 ==> Intensity(p, i, j) == 0.0)
  {
    var p := PercentageMap(m);
    PercentagesNonNegative(m);
    var top := MaxPercentage(p);
    if top > 0.0 {
      ShareOfMax(p[i][j], top);
    }
  }

  /** A cell is captioned exactly when its count is positive, and the caption shows its percentage. */
  lemma CaptionIffCounted(m: Counts, i: int, j: int)
    requires IsGrid(m)
    requires 0 <= i < ROWS && 0 <= j < COLS
    ensures Render(m)[i][j].caption.Some? <==> m[i][j] > 0
    ensures Render(m)[i][j].caption.Some? ==> Render(m)[i][j].caption.value.percent == PercentageMap(m)[i][j]
  {
    var p := PercentageMap(m);
    assert Render(m)[i][j] == RenderCell(p, i, j);
    var t := Total(m);
    if t > 0 {
      PositiveShare(m[i][j] as real, t as real);
      assert p[i][j] == m[i][j] as real / t as real * 100.0;
    } else {
      ZeroTotalPassesThrough(m);
    }
  }

  /** A share of a positive total is positive exactly when the part is. */
  lemma PositiveShare(x: real, t: real)
    requires t > 0.0 && x >= 0.0
    ensures x / t * 100.0 > 0.0 <==> x > 0.0
  {
    if x > 0.0 {
      assert x / t > 0.0;
    }
  }

  lemma ScaleMonotone(x: real, y: real, t: real)
    requires t > 0.0
    requires x <= y
    ensures x / t * 100.0 <= y / t * 100.0
  {
    assert (y - x) / t >= 0.0;
    assert y / t - x / t == (y - x) / t;
  }

  lemma ScaleCancels(x: real, y: real, t: real)
    requires t > 0.0 && y > 0.0
    ensures y / t * 100.0 > 0.0
    ensures (x / t * 100.0) / (y / t * 100.0) == x / y
  {
    var k := 100.0 / t;
    assert x / t * 100.0 == x * k;
    assert y / t * 100.0 == y * k;
    assert k > 0.0;
    ProductPositive(y, k);
    assert (x * k) / (y * k) == x / y;
  }

  lemma HalfThreshold(x: real, y: real)
    requires y > 0.0
    ensures x / y < 0.5 <==> 2.0 * x < y
  {
    var q := x / y;
    assert q * y == x;
    if q < 0.5 {
      ProductPositive(0.5 - q, y);
      assert 2.0 * x == y - 2.0 * ((0.5 - q) * y);
    } else if q > 0.5 {
      ProductPositive(q - 0.5, y);
      assert 2.0 * x == y + 2.0 * ((q - 0.5) * y);
    }
  }

  /**
   * Against the largest count M (a cell (a, b) with no larger count): a
   * cell's intensity is its count divided by M, and a caption is drawn in
   * white exactly when the cell holds at least half of M.
   */
  lemma IntensityIsShareOfLargestCount(m: Counts, a: int, b: int, i: int, j: int)
    requires IsGrid(m)
    requires 0 <= a < ROWS && 0 <= b < COLS
    requires forall r, c :: 0 <= r < ROWS && 0 <= c < COLS ==> m[r][c] <= m[a][b]
    requires m[a][b] > 0
    requires 0 <= i < ROWS && 0 <= j < COLS
    ensures Render(m)[i][j].intensity == m[i][j] as real / m[a][b] as real
    ensures Render(m)[i][j].caption.Some? ==>
              (Render(m)[i][j].caption.value.color == White <==> 2 * m[i][j] >= m[a][b])
  {
    var p := PercentageMap(m);
    var x, y, t := m[i][j] as real, m[a][b] as real, Total(m) as real;
    LargestPercentage(m, a, b);
    assert p[i][j] == x / t * 100.0 && p[a][b] == y / t * 100.0;
    ScaleCancels(x, y, t);
    HalfThreshold(x, y);
    assert Render(m)[i][j] == RenderCell(p, i, j);
    assert Intensity(p, i, j) == p[i][j] / p[a][b];
  }

  /** The largest count has the largest percentage. */
  lemma LargestPercentage(m: Counts, a: int, b: int)
    requires IsGrid(m)
    requires 0 <= a < ROWS && 0 <= b < COLS
    requires forall r, c :: 0 <= r < ROWS && 0 <= c < COLS ==> m[r][c] <= m[a][b]
    requires m[a][b] > 0
    ensures Total(m) > 0
    ensures MaxPercentage(PercentageMap(m)) == PercentageMap(m)[a][b]
  {
    var p := PercentageMap(m);
    CountAtMostTotal(m, a, b);
    var t := Total(m) as real;
    forall r, c | 0 <= r < ROWS && 0 <= c < COLS
      ensures p[r][c] <= p[a][b]
    {
      ScaleMonotone(m[r][c] as real, m[a][b] as real, t);
    }
    var r, c :| 0 <= r < ROWS && 0 <= c < COLS && p[r][c] == MaxPercentage(p);
  }

  /** An all-zero activation map renders with no captions and zero intensity everywhere. */
  lemma EmptyMapRendersBlank(m: Counts, i: int, j: int)
    requires IsGrid(m)
    requires Total(m) == 0
    requires 0 <= i < ROWS && 0 <= j < COLS
    ensures Render(m)[i][j] == CellView(0.0, None)
  {
    var p := PercentageMap(m);
    ZeroTotalPassesThrough(m);
    var r, c :| 0 <= r < ROWS && 0 <= c < COLS && p[r][c] == MaxPercentage(p);
  }
}
