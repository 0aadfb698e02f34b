/**
 * A small worked case: ten per-frame outcomes through the tally and the
 * percentage map, the two stages gaze_analysis.py:136-137 chains.
 */
module EndToEnd {
  import opened Wrappers
  import opened Grid
  import opened Analysis
  import opened Heatmap

  /**
   * Ten outcomes, the first five from frames with the iris at the centre of
   * the eye region (ratios 0.5, 0.5) and the last five from frames without a
   * face: one counter, at (2, 5), holds 5, every other holds 0, and that
   * cell has 100 percent.
   */
  lemma CentredHalfRun(obs: seq<Option<Cell>>)
    requires var centre := Some(Classify(0.5, 0.5));
             obs == [centre, centre, centre, centre, centre, None, None, None, None, None]
    ensures Tally(obs)[2][5] == 5
    ensures forall r, c :: 0 <= r < ROWS && 0 <= c < COLS && (r, c) != (2, 5) ==> Tally(obs)[r][c] == 0
    ensures PercentageMap(Tally(obs))[2][5] == 100.0
  {
    ClassifyExamples(0.5);
    var centre := Some(Cell(2, 5));
    var m := Tally(obs);
    assert multiset(obs)[centre] == 5;
    assert multiset(obs)[None] == 5;
    TallyCell(obs, 2, 5);
    forall r, c | 0 <= r < ROWS && 0 <= c < COLS && (r, c) != (2, 5)
      ensures m[r][c] == 0
    {
      assert Some(Cell(r, c)) !in obs;
      TallyAbsent(obs, r, c);
    }
    TallyTotal(obs);
    WholeShare(m, 2, 5);
  }
}
