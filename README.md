# Gaze-grid analysis, modelled in Dafny

This project models the analysis core of `gaze_analysis.py`. A video is read frame by frame. A face-landmark detector gives at most one face per frame. Ten eye-contour landmarks are reduced to an inset, asymmetric eye rectangle. The iris centre is expressed as a (horizontal, vertical) ratio of that rectangle. The ratio pair is binned into a 5 x 11 grid, and the grid cell's counter in the activation map is incremented. At the end, the activation map becomes the numbers a heatmap shows: dwell-time percentages, each cell's intensity relative to the maximum, which cells carry a percentage caption, and the caption's text colour.

Modules, one per component:

- `Wrappers` (`wrappers.dfy`): `Option` and `Result`.
- `Reductions` (`reductions.dfy`): the numpy reductions used (`np.sum`, `np.min`, `np.max`) over sequences, with their facts.
- `Grid` (`grid.dfy`): `classify_eye_grid`. Python's `int()` is modelled as truncation toward zero (`Trunc`), followed by `min(max(.,0),n-1)` (`Clamp`). Also the count matrix type and its total.
- `EyeRegion` (`eye_region.dfy`): the detector's face as a list of normalised landmarks, their projection to pixels, the region estimator with its constants 0.3, 0.25, 1/3.5 and 2, and the iris ratio.
- `Analysis` (`analysis.dfy`): what one frame contributes (`FrameCell`), the specification of the activation map (`Tally`), and the imperative frame loop `Analyze`. `Analyze` fills a 5 x 11 `array2<int>` in place, as the numpy matrix is filled.
- `Heatmap` (`heatmap.dfy`): the numeric part of `plot_eye_grid`, as pure per-cell functions over the matrix.
- `EndToEnd` (`end_to_end.dfy`): a worked case, ten per-frame outcomes through the tally and the percentage map.

The video and the detector are parameters: `Analyze` takes the detector's output for each frame (`seq<Option<Face>>`) and the frame's width and height. All coordinates and ratios are exact `real`s.

Two points where a natural reading of the analysis differs from the code. On the first, the model follows the code; on the second, it keeps both readings:

- Truncation and clamping. The code truncates with `int()`. Reading the classifier as floor-then-clamp gives the same cell, because every negative product clamps to 0. The model uses truncation.
- Zero-width or zero-height eye region. The code has no guard at lines 110-111. Numpy then yields an infinite or NaN ratio, and `int()` raises, at line 21 for a zero width or at line 22 for a zero height with a positive width, which ends the run. Skipping such a frame is the evident intent. The model keeps both: `Analysis.ClassifyAsWritten` is the unguarded code, and `EyeRegion.IrisRatio` skips the frame. The run (`FrameCell`, `Observe`, `Analyze`) uses the skipping version, so it does not follow the code here (see "## Findings").

## Model

| member | source | states |
|---|---|---|
| `Grid.Trunc` | gaze_analysis.py:21-22 | `int()` of a float truncates toward zero: the result is the integer at or below a non-negative argument and at or above a negative one, within 1 |
| `Grid.Clamp` | gaze_analysis.py:25-26 | `min(max(v, lo), hi)` lies in [lo, hi], is v when v is in range, lo below it and hi above it |
| `Grid.Bin` | gaze_analysis.py:21-26 | one axis of the classifier always yields an index in [0, n - 1] |
| `Grid.Classify` | gaze_analysis.py:20-28 | every ratio pair, however far out of range, gives a cell inside the 5 x 11 grid, so the bounds test at line 116 always passes |
| `Grid.BinIff` | gaze_analysis.py:21-26 | bin k of n is chosen exactly for ratios in [k/n, (k+1)/n); bin 0 also takes everything below and bin n-1 everything above (both directions) |
| `Grid.ColumnBands` | gaze_analysis.py:21-25 | col = k exactly when the horizontal ratio is in the k-th of the 11 bands |
| `Grid.RowBands` | gaze_analysis.py:22-26 | row = k exactly when the vertical ratio is in the k-th of the 5 bands |
| `Grid.ClassifyClamps` | gaze_analysis.py:24-26 | a ratio >= 1 gives the last column (10) or row (4), a ratio < 0 gives column or row 0: clamping, not rejection or wrap-around |
| `Grid.ClassifyExamples` | gaze_analysis.py:20-28 | ratios (0.5, 0.5) give cell (2, 5); a horizontal ratio of 1.3 gives column 10 |
| `Grid.Total` | gaze_analysis.py:35 | `np.sum` of the count matrix is never negative; it is 0 for the initial map (`Zero`), goes up by exactly 1 per increment (`Bump`), and equals the number of cell-producing outcomes (`TallyTotal`) |
| `EyeRegion.Pixel` | gaze_analysis.py:94-101 | a landmark inside the unit square lands inside the width x height frame, on each axis (the products x * width and y * height, used at lines 94 and 100-101, are fixed by the body) |
| `EyeRegion.Scaled` | gaze_analysis.py:94 | one coordinate times a frame dimension: the unit interval maps into [0, size] |
| `EyeRegion.EyeContour` | gaze_analysis.py:93-96 | ten points, the k-th being the pixel point of landmark `EYE_CONTOUR[k]`; the index list 33, 133, 173, 155, 154, 153, 145, 144, 163, 7 is fixed by the body and `EYE_CONTOUR` |
| `EyeRegion.IrisPixel` | gaze_analysis.py:99-102 | an iris landmark (index 468) inside the unit square gives an iris centre inside the width x height frame, on each axis; the point is the projection `Pixel` of that landmark |
| `Reductions.SumZeroIffAllZero` | gaze_analysis.py:35-36 | a non-negative vector sums to zero exactly when every element is zero (both directions); this is why a zero total means an all-zero map |
| `Reductions.Min` | gaze_analysis.py:104-107 | `np.min` is a lower bound of every coordinate and is one of them |
| `Reductions.Max` | gaze_analysis.py:104-107 | `np.max` is an upper bound of every coordinate and is one of them |
| `EyeRegion.EstimateRegion` | gaze_analysis.py:104-107 | min_x <= left <= right <= max_x, left is 0.3 (max_x - min_x) in from min_x and right 0.25 (max_x - min_x) in from max_x, so right - left = 0.45 (max_x - min_x); top <= min_y <= bottom <= max_y, the region is centred on min_y, and bottom - top = 10/7 (max_y - min_y) |
| `EyeRegion.HorizontalSpanPositive` | gaze_analysis.py:104-105 | the region has positive width exactly when two contour points differ in x |
| `EyeRegion.VerticalSpanPositive` | gaze_analysis.py:106-107 | the region has positive height exactly when two contour points differ in y |
| `EyeRegion.IrisRatio` | gaze_analysis.py:110-111 | no ratios exactly when a span is not positive; otherwise left + h * width = iris x and top + v * height = iris y (the ratio inverts to the iris point) |
| `EyeRegion.RatioAtEdges` | gaze_analysis.py:110-111 | with positive spans, an iris on the left or top edge gives ratio 0 and on the right or bottom edge ratio 1 |
| `EyeRegion.RatioInUnitIff` | gaze_analysis.py:110-111 | no clamping: a ratio lies in [0, 1] exactly when the iris lies within the region on that axis |
| `Analysis.ClassifyAsWritten` | gaze_analysis.py:110-114 | the unguarded arithmetic fails exactly when a span is zero, and otherwise gives a cell in the grid |
| `Analysis.CollapsedContourRaises` | gaze_analysis.py:104-114 | if all ten contour points share one x or one y, the unguarded code fails and the guarded ratio gives nothing |
| `Analysis.GuardOnlySkipsFailures` | gaze_analysis.py:104-114 | on any estimated region, the guarded ratio skips exactly where the unguarded code fails, and otherwise gives the same cell |
| `Analysis.FrameCell` | gaze_analysis.py:90-114 | a frame gives a cell exactly when a face is detected and its contour is spread in both x and y; that cell is in the grid |
| `Analysis.Observe` | gaze_analysis.py:82-114 | one outcome per frame, in frame order, the i-th being that frame's `FrameCell`; every outcome that names a cell names one in the grid |
| `Analysis.Zero` | gaze_analysis.py:77 | the initial map is 5 x 11, every counter is 0, and the total is 0 |
| `Analysis.Step` | gaze_analysis.py:116-117 | an outcome naming a cell in the grid adds 1 to that counter; every other counter is unchanged; an empty outcome changes nothing |
| `Analysis.Tally` | gaze_analysis.py:116-117 | the map after any outcomes, from the zero map of line 77, is 5 x 11 (what each counter holds is `TallyCell`) |
| `Analysis.TallyExtend` | gaze_analysis.py:116-117 | one more outcome is one more `Step` of the tally, which is the loop's step |
| `Analysis.TallyAbsent` | gaze_analysis.py:116-117 | a cell that no outcome names keeps the zero it starts with at line 77 |
| `Analysis.NoneCountBound` | gaze_analysis.py:90 | if every empty entry of one sequence faces an empty entry of another of the same length, the second has at least as many empty entries |
| `Analysis.Bump` | gaze_analysis.py:117 | the increment adds exactly 1 to one cell, leaves every other cell unchanged, and raises the total by 1 |
| `Analysis.TallyCell` | gaze_analysis.py:77 | each counter equals the number of frames whose outcome was that cell; the map starts at zero |
| `Analysis.TallyTotal` | gaze_analysis.py:116-117 | conservation: the counters add up to the number of outcomes that produced a cell |
| `Analysis.StoppingEarlyCountsLess` | gaze_analysis.py:124-125 | stopping after any prefix of the frames never gives a larger count in any cell |
| `Analysis.RunConservation` | gaze_analysis.py:82-117 | over a video, the counters add up to the frames that produced a cell; each frame without a face has an empty outcome, so empty outcomes are at least as many as face-less frames |
| `Analysis.NoFaceNoCell` | gaze_analysis.py:90 | each frame without a face has an empty outcome at its own position, and so there are at least as many empty outcomes as face-less frames |
| `Analysis.Record` | gaze_analysis.py:116-117 | the in-place update takes the array from the current map to the next map of the tally |
| `Analysis.Analyze` | gaze_analysis.py:71-130 | the returned matrix is freshly allocated, 5 x 11, and each entry is the tally of the frames' outcomes for that cell |
| `Heatmap.PercentageMap` | gaze_analysis.py:35-36 | the percentage map is 5 x 11; with a total that is not positive it is the count map itself (its values in [0, 100] and their sum 100 are `PercentagesInRange` and `PercentagesSumTo100`) |
| `Heatmap.Intensity` | gaze_analysis.py:43 | 0 when the largest percentage is not positive; in [0, 1] for a non-negative cell; 1 at a cell holding the positive maximum |
| `Heatmap.RenderCell` | gaze_analysis.py:43-51 | a cell's fill is its intensity; it has a caption exactly when its percentage is positive; the caption shows that percentage and is black exactly when the intensity is below 0.5 |
| `Heatmap.Render` | gaze_analysis.py:40-51 | the drawn grid is 5 x 11 and cell (i, j) is `RenderCell` of the percentage map at (i, j) |
| `Heatmap.WholeShare` | gaze_analysis.py:36 | a cell holding every count of the map shows 100 percent |
| `Heatmap.LargestPercentage` | gaze_analysis.py:36-37 | the cell with the largest count has the largest percentage, and the total is then positive |
| `Heatmap.MaxPercentage` | gaze_analysis.py:37 | `np.max` of the percentage map bounds every cell and is attained at some cell |
| `Heatmap.PercentagesInRange` | gaze_analysis.py:35-36 | with a positive total, every percentage is in [0, 100] |
| `Heatmap.PercentagesSumTo100` | gaze_analysis.py:35-36 | with a positive total, the percentages add up to 100 |
| `Heatmap.ZeroTotalPassesThrough` | gaze_analysis.py:36 | with a zero total, nothing is divided: the map passes through unchanged and is all zeros |
| `Heatmap.PercentagesNonNegative` | gaze_analysis.py:36 | no percentage is negative |
| `Heatmap.IntensityBounds` | gaze_analysis.py:43 | relative intensity is in [0, 1], is 1 at a maximal cell when the maximum is positive, and is 0 everywhere when the maximum is 0 |
| `Heatmap.CaptionIffCounted` | gaze_analysis.py:48-49 | a cell is captioned exactly when its count is positive, and the caption shows its percentage |
| `Heatmap.IntensityIsShareOfLargestCount` | gaze_analysis.py:43-51 | intensity is the cell's count divided by the largest count, and a caption is white exactly when its cell holds at least half the largest count (black below) |
| `Heatmap.EmptyMapRendersBlank` | gaze_analysis.py:35-51 | an all-zero map draws every cell with intensity 0 and without a caption |
| `EndToEnd.CentredHalfRun` | gaze_analysis.py:136-137 | ten outcomes, five classified from ratios (0.5, 0.5) and five empty, through the tally and the percentage map: only cell (2, 5) is non-zero, it holds 5, and its percentage is 100 |

## Left out

- Video capture: opening the file, frame size queries, frame reading, BGR-to-RGB conversion and `cap.release` (lines 72-74, 82-87, 127). These are I/O through OpenCV. The video is the sequence of the detector's outputs, and the width and height are parameters.
- The MediaPipe FaceMesh model: construction, `process` and `close` (lines 79-80, 88, 128). It is a foreign ML model. Its output per frame is an `Option<Face>`. `max_num_faces=1` is why a frame has at most one face. The requirement `WellFormed` stands for the detector's promise that a face carries all landmarks up to index 468.
- The live drawing (`cv2.circle`, `cv2.rectangle`, `imshow`, lines 120-123). The `waitKey('q')` early stop (lines 124-125) is modelled only by its effect: a run cut short after some prefix of the frames never counts more in any cell (`Analysis.StoppingEarlyCountsLess`).
- Matplotlib rendering: figure, `plt.cm.Reds` colour lookup, filled rectangles, colour bar, ticks, axis inversion, `show` (lines 32, 44-45, 54-68). The model stops at the intensity that selects the colour.
- Caption text formatting (`f"{...:.1f}%"`, line 49). A caption carries the exact percentage, not its one-decimal string.
- IEEE-754 floating point. There is no rounding and no inf/NaN. Exact reals replace both. The failure on a zero span appears only as `Analysis.ClassifyAsWritten`'s `Failure`.
- The numpy `int32` matrix (line 77) holds unbounded integers here. A counter could overflow only past 2^31 - 1 frames.
- The tkinter file dialog (lines 13-17) and the `__main__` block (lines 133-139). They are UI glue. `EndToEnd` passes ten per-frame outcomes through the tally and the percentage map; it does not run `Analyze` or `Render` on frames.
- `MT_results.py` (Streamlit form, Firebase upload) and `mp4_extract_wav.py` (audio extraction). They are I/O glue around other libraries, outside the analysis core.

## Findings

| source | as written | input that shows it | evidently intended | confidence | as-written member | corrected member |
|---|---|---|---|---|---|---|
| gaze_analysis.py:110-111 | divides by the region's width and height with no guard; a zero span gives an infinite or NaN ratio, and `int()` raises, at line 21 for a zero width or at line 22 for a zero height with a positive width, ending the whole run | a frame whose ten eye-contour landmarks share one x coordinate (or one y), so that right == left (or bottom == top) | skip that frame and go on accumulating | not executed; follows from the arithmetic at lines 104-111 and Python's `int()` on non-finite floats | `Analysis.ClassifyAsWritten`, `Analysis.CollapsedContourRaises` | `EyeRegion.IrisRatio`, `Analysis.GuardOnlySkipsFailures`, `Analysis.FrameCell` |
