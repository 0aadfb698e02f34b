/**
 * The frame loop of analyze_eye_gaze_with_grid (gaze_analysis.py:77-117):
 * each frame's detection is reduced to at most one grid cell, and the cell's
 * counter in a zero-initialised 5 x 11 matrix is incremented in place.
 */
module Analysis {
  import opened Wrappers
  import opened Reductions
  import opened Grid
  import opened EyeRegion

  /** Why the source's own arithmetic cannot produce a cell. */
  datatype Fault = NonFiniteRatio

  /**
   * The ratio-and-classify step as gaze_analysis.py:110-114 writes it: no
   * guard on the spans.  A zero span gives an infinite or NaN ratio, on which
   * int() raises, and the run ends with that exception.
   */
  function ClassifyAsWritten(region: Region, iris: Point): (r: Result<Cell, Fault>)
    ensures r.Failure? <==> region.right == region.left || region.bottom == region.top
    ensures r.Success? ==> InGrid(r.value)
  {
    var width := region.right - region.left;
    var height := region.bottom - region.top;
    if width == 0.0 || height == 0.0 then Failure(NonFiniteRatio)
    else Success(Classify((iris.x - region.left) / width, (iris.y - region.top) / height))
  }

  /** A contour whose ten points share one x (or one y) makes the source raise. */
  lemma CollapsedContourRaises(pts: seq<Point>, iris: Point)
    requires |pts| > 0
    requires !Spread(pts)
    ensures ClassifyAsWritten(EstimateRegion(pts), iris).Failure?
    ensures IrisRatio(EstimateRegion(pts), iris).None?
  {
    HorizontalSpanPositive(pts);
    VerticalSpanPositive(pts);
  }

  /**
   * On every region the estimator produces, the guarded ratio differs from
   * the source only where the source raises: otherwise both give the same cell.
   */
  lemma GuardOnlySkipsFailures(pts: seq<Point>, iris: Point)
    requires |pts| > 0
    ensures var region := EstimateRegion(pts);
            match ClassifyAsWritten(region, iris)
            case Failure(_) => IrisRatio(region, iris).None?
            case Success(c) =>
              IrisRatio(region, iris).Some? &&
              c == Classify(IrisRatio(region, iris).value.horizontal, IrisRatio(region, iris).value.vertical)
  {
  }

  /**
   * What one frame contributes: nothing when no face is detected or the eye
   * region is degenerate, otherwise the cell the iris falls in.
   */
  function FrameCell(frame: Option<Face>, width: nat, height: nat): (c: Option<Cell>)
    requires frame.Some? ==> HasEyeLandmarks(frame.value)
    ensures c.Some? ==> InGrid(c.value)
    ensures c.Some? <==> frame.Some? && Spread(EyeContour(frame.value, width, height))
  {
    match frame
    case None => None
    case Some(face) =>
      var pts := EyeContour(face, width, height);
      var region := EstimateRegion(pts);
      HorizontalSpanPositive(pts);
      VerticalSpanPositive(pts);
      match IrisRatio(region, IrisPixel(face, width, height))
      case None => None
      case Some(ratios) => Some(Classify(ratios.horizontal, ratios.vertical))
  }

  /** Every detected face carries the landmarks the analysis reads. */
  predicate WellFormed(frames: seq<Option<Face>>)
  {
    forall i :: 0 <= i < |frames| && frames[i].Some? ==> HasEyeLandmarks(frames[i].value)
  }

  /** The per-frame outcomes of a video, one per frame and in frame order; each names a cell of the grid. */
  function Observe(frames: seq<Option<Face>>, width: nat, height: nat): (obs: seq<Option<Cell>>)
    requires WellFormed(frames)
    ensures |obs| == |frames|
    ensures forall i :: 0 <= i < |frames| ==> obs[i] == FrameCell(frames[i], width, height)
    ensures AllInGrid(obs)
  {
    seq(|frames|, i requires 0 <= i < |frames| => FrameCell(frames[i], width, height))
  }

  predicate AllInGrid(obs: seq<Option<Cell>>)
  {
    forall i :: 0 <= i < |obs| && obs[i].Some? ==> InGrid(obs[i].value)
  }

  /** np.zeros((5, 11)). */
  function Zero(): (m: Counts)
    ensures IsGrid(m)
    ensures forall i, j :: 0 <= i < ROWS && 0 <= j < COLS ==> m[i][j] == 0
    ensures Total(m) == 0
  {
    var m := seq(ROWS, i => seq(COLS, j => 0));
    AllZeroSum(m[0]);
    assert RowSums(m) == seq(ROWS, i => 0);
    AllZeroSum(RowSums(m));
    m
  }

  /** activation_map[row, col] += 1: one counter up by one, every other one unchanged. */
  function Bump(m: Counts, c: Cell): (m': Counts)
    requires IsGrid(m) && InGrid(c)
    ensures IsGrid(m')
    ensures m'[c.row][c.col] == m[c.row][c.col] + 1
    ensures forall i, j :: 0 <= i < ROWS && 0 <= j < COLS && (i, j) != (c.row, c.col) ==> m'[i][j] == m[i][j]
    ensures Total(m') == Total(m) + 1
  {
    var row := m[c.row][c.col := m[c.row][c.col] + 1];
    SumUpdate(m[c.row], c.col, m[c.row][c.col] + 1);
    var m' := m[c.row := row];
    assert RowSums(m') == RowSums(m)[c.row := Sum(row)];
    SumUpdate(RowSums(m), c.row, Sum(row));
    m'
  }

  /** One iteration of the frame loop, with the source's bounds check before the increment. */
  function Step(m: Counts, obs: Option<Cell>): (m': Counts)
    requires IsGrid(m)
    ensures IsGrid(m')
    ensures obs.Some? && InGrid(obs.value) ==> m'[obs.value.row][obs.value.col] == m[obs.value.row][obs.value.col] + 1
    ensures forall i, j :: 0 <= i < ROWS && 0 <= j < COLS && obs != Some(Cell(i, j)) ==> m'[i][j] == m[i][j]
  {
    match obs
    case None => m
    case Some(c) => if InGrid(c) then Bump(m, c) else m
  }

  /** The activation map after the given outcomes, taken in order. */
  function Tally(obs: seq<Option<Cell>>): (m: Counts)
    ensures IsGrid(m)
  {
    if |obs| == 0 then Zero() else Step(Tally(obs[..|obs| - 1]), obs[|obs| - 1])
  }

  /** One more outcome is one more step of the tally. */
  lemma TallyExtend(obs: seq<Option<Cell>>, i: nat)
    requires i < |obs|
    ensures Tally(obs[..i + 1]) == Step(Tally(obs[..i]), obs[i])
  {
    assert obs[..i + 1][..i] == obs[..i];
  }

  /** Each counter holds the number of outcomes that named its cell. */
  lemma {:induction false} TallyCell(obs: seq<Option<Cell>>, r: int, c: int)
    requires 0 <= r < ROWS && 0 <= c < COLS
    ensures Tally(obs)[r][c] == multiset(obs)[Some(Cell(r, c))]
  {
    if |obs| > 0 {
      var init, last := obs[..|obs| - 1], obs[|obs| - 1];
      assert obs == init + [last];
      TallyCell(init, r, c);
    }
  }

  /** A cell that no outcome names keeps a zero counter. */
  lemma TallyAbsent(obs: seq<Option<Cell>>, r: int, c: int)
    requires 0 <= r < ROWS && 0 <= c < COLS
    requires Some(Cell(r, c)) !in obs
    ensures Tally(obs)[r][c] == 0
  {
    TallyCell(obs, r, c);
  }

  /** Conservation: the counters add up to the number of outcomes that produced a cell. */
  lemma {:induction false} TallyTotal(obs: seq<Option<Cell>>)
    requires AllInGrid(obs)
    ensures Total(Tally(obs)) == |obs| - multiset(obs)[None]
  {
    if |obs| > 0 {
      var init, last := obs[..|obs| - 1], obs[|obs| - 1];
      assert obs == init + [last];
      assert AllInGrid(init) by {
        forall i | 0 <= i < |init| && init[i].Some?
          ensures InGrid(init[i].value)
        {
          assert init[i] == obs[i];
        }
      }
      TallyTotal(init);
    }
  }

  /** Stopping the run after any prefix of the frames never counts more in any cell. */
  lemma StoppingEarlyCountsLess(obs: seq<Option<Cell>>, k: nat, r: int, c: int)
    requires k <= |obs|
    requires 0 <= r < ROWS && 0 <= c < COLS
    ensures Tally(obs[..k])[r][c] <= Tally(obs)[r][c]
  {
    var prefix, rest, cell := obs[..k], obs[k..], Some(Cell(r, c));
    assert obs == prefix + rest;
    assert multiset(obs)[cell] == multiset(prefix)[cell] + multiset(rest)[cell] by {
      assert multiset(obs) == multiset(prefix) + multiset(rest);
    }
    TallyCell(prefix, r, c);
    TallyCell(obs, r, c);
  }

  /**
   * Over a whole video: the counters add up to the frames with a face and a
   * non-degenerate eye region, and no frame without a face adds to them.
   */
  lemma RunConservation(frames: seq<Option<Face>>, width: nat, height: nat)
    requires WellFormed(frames)
    ensures Total(Tally(Observe(frames, width, height))) == |frames| - multiset(Observe(frames, width, height))[None]
    ensures forall i :: 0 <= i < |frames| && frames[i].None? ==> Observe(frames, width, height)[i].None?
    ensures multiset(frames)[None] <= multiset(Observe(frames, width, height))[None]
  {
    var obs := Observe(frames, width, height);
    TallyTotal(obs);
    NoFaceNoCell(frames, width, height);
  }

  /** Each frame without a face has no cell, so there are at least as many cell-less outcomes as face-less frames. */
  lemma NoFaceNoCell(frames: seq<Option<Face>>, width: nat, height: nat)
    requires WellFormed(frames)
    ensures forall i :: 0 <= i < |frames| && frames[i].None? ==> Observe(frames, width, height)[i].None?
    ensures multiset(frames)[None] <= multiset(Observe(frames, width, height))[None]
  {
    NoneCountBound(frames, Observe(frames, width, height));
  }

  /** Position-wise, every None in xs faces a None in ys: ys has at least as many. */
  lemma {:induction false} NoneCountBound<A, B>(xs: seq<Option<A>>, ys: seq<Option<B>>)
    requires |xs| == |ys|
    requires forall i :: 0 <= i < |xs| && xs[i].None? ==> ys[i].None?
    ensures multiset(xs)[None] <= multiset(ys)[None]
  {
    if |xs| > 0 {
      var n := |xs| - 1;
      assert xs == xs[..n] + [xs[n]];
      assert ys == ys[..n] + [ys[n]];
      NoneCountBound(xs[..n], ys[..n]);
    }
  }

  /**
   * The loop body's update (gaze_analysis.py:116-117): when the frame gave a
   * cell inside the grid, that counter goes up by one in place.  The array
   * then holds the next map of the tally.
   */
  method Record(activation: array2<int>, cell: Option<Cell>, ghost m: Counts)
    requires activation.Length0 == ROWS && activation.Length1 == COLS
    requires IsGrid(m)
    requires forall r, c :: 0 <= r < ROWS && 0 <= c < COLS ==> activation[r, c] == m[r][c]
    modifies activation
    ensures forall r, c :: 0 <= r < ROWS && 0 <= c < COLS ==> activation[r, c] == Step(m, cell)[r][c]
  {
    if cell.Some? {
      var row, col := cell.value.row, cell.value.col;
      if 0 <= row < ROWS && 0 <= col < COLS {
        activation[row, col] := activation[row, col] + 1;
      }
    }
  }

  /**
   * analyze_eye_gaze_with_grid, with the video given as its sequence of
   * detector outputs: returns the 5 x 11 activation map.
   */
  method Analyze(frames: seq<Option<Face>>, width: nat, height: nat) returns (activation: array2<int>)
    requires WellFormed(frames)
    ensures fresh(activation)
    ensures activation.Length0 == ROWS && activation.Length1 == COLS
    ensures forall r, c :: 0 <= r < ROWS && 0 <= c < COLS ==>
              activation[r, c] == Tally(Observe(frames, width, height))[r][c]
  {
    activation := new int[ROWS, COLS]((r, c) => 0);
    ghost var obs := Observe(frames, width, height);
    var i := 0;
    while i < |frames|
      invariant 0 <= i <= |frames|
      invariant forall r, c :: 0 <= r < ROWS && 0 <= c < COLS ==> activation[r, c] == Tally(obs[..i])[r][c]
    {
      var cell := FrameCell(frames[i], width, height);
      assert cell == obs[i];
      TallyExtend(obs, i);
      Record(activation, cell, Tally(obs[..i]));
      i := i + 1;
    }
    assert obs[..i] == obs;
  }
}
