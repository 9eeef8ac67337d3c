# Edge detection and Hough voting, modelled in Dafny

This project models the integer core of a small image-analysis pipeline.

- **Sobel gradient.** A grayscale image is convolved with two fixed 3x3 kernels. At the border only the in-bounds neighbours are summed, through nine hand-written cases. The responses are combined into a per-pixel gradient magnitude, and a threshold turns that magnitude into an edge mask.
- **Line Hough transform.** A 180 x `doubleHeight` accumulator is indexed by angle bin and shifted offset. Each point casts one vote per angle row. Line candidates are the local peaks of the accumulator under a 9x9 non-maximum test whose angle axis wraps. They are sorted by vote count and cut or padded to exactly `n` entries.
- **Line candidate.** A value holding an angle, an offset, a score and two endpoints. The endpoints are pinned to the image edges according to the angle. Candidates compare by score.
- **Circle Hough transform.** Every pixel above a magnitude threshold votes, for each radius and each whole degree, for a candidate centre in a width x height x maxRadius accumulator. Then every cell of the radius range is reported in raster order with its vote count.

Files:

- `grids.dfy` (module `Grids`) holds the grid shape, `Option`, `Max`, `Min` and the integer square root.
- `sobel.dfy` (module `SobelFilter`) is the gradient stage.
- `hough_line.dfy` (module `HoughLines`) is the line candidate.
- `hough_transform.dfy` (module `HoughTransforms`) is the line accumulator and peak extraction.
- `circle_detector.dfy` (module `CircleHough`) is the circle accumulator.

The objects that update arrays in place (`Sobel`, `HoughTransform`, `CircleDetector` and its voting loops) are classes and methods over `array2`/`array3`. Each is proved against a pure specification function: `Convolution`, `Votes`, `Candidates`, `AllVotes`/`Tally`, `AllCircles`. The properties are proved as lemmas about those functions.

Floating point is kept out of the model. Each trigonometric formula is a given integer-valued function:

- the per-angle offset of a point, `(int)((x - cx) * cos t + (y - cy) * sin t)`;
- the free endpoint coordinate of a line candidate;
- the circle centre `(floor(x - r cos t), floor(y - r sin t))`.

The gradient magnitude `sqrt(gx^2 + gy^2)` is stored squared, and the test `magnitude > t` is `AboveThreshold(gx^2 + gy^2, t)`. `AboveThresholdIsRootTest` proves that, for every squared magnitude m and its non-negative real root s, this test holds exactly when s > t. The line transform's `houghHeight`, `(int)(sqrt(2) * max(w, h)) / 2`, is computed exactly with an integer square root.

## Model

| member | source | states |
|---|---|---|
| SobelFilter.BranchWindow | TP4_circleHough/src/filters/Sobel.java:113-167 | For any image size, the nine-way split drops offset -1 exactly at index 0, and offset +1 exactly at the last index when that index is not also 0, on each axis |
| SobelFilter.BranchConvolutionIsClamped | TP4_circleHough/src/filters/Sobel.java:110-170 | On an image at least 2x2, the nine-branch convolution at any pixel reads only in-bounds pixels and equals the sum of intensity times weight over exactly the in-bounds neighbours |
| SobelFilter.BranchWindowIsClamped | TP4_circleHough/src/filters/Sobel.java:113-167 | On an image at least 2x2, the offset ranges of the branch taken at (x, y) are exactly [max(-1,-x), min(1,w-1-x)] x [max(-1,-y), min(1,h-1-y)], so every read is in bounds |
| SobelFilter.WindowSumIsClamped | TP4_circleHough/src/filters/Sobel.java:110-170 | Summing the clamped window column by column, in loop order, gives the in-bounds-neighbour convolution |
| SobelFilter.ColumnSumIsClamped | TP4_circleHough/src/filters/Sobel.java:161-166 | One column of the clamped window, the inner j loop, sums to the in-bounds taps of that column |
| SobelFilter.NarrowImageReadsOutside | TP4_circleHough/src/filters/Sobel.java:113-118 | On an image one pixel wide or high, the (0, 0) branch reads index 1 along the short side, outside the image |
| SobelFilter.CornerUsesFourWeights | TP4_circleHough/src/filters/Sobel.java:113-118 | The (0, 0) corner sums exactly four products, with weights k[1][1], k[1][2], k[2][1] and k[2][2] |
| SobelFilter.ResponseBounded | TP4_circleHough/src/filters/Sobel.java:25-46 | For intensities in 0..255, the response of either kernel at any pixel lies in [-1020, 1020] |
| SobelFilter.UniformInteriorIsFlat | TP4_circleHough/src/filters/Sobel.java:161-166 | On a uniform image both responses are 0 at every interior pixel |
| SobelFilter.UniformCornerIsNotFlat | TP4_circleHough/src/filters/Sobel.java:113-118 | Border responses need not vanish: on a uniform image of intensity c the corner's horizontal response is 3c |
| SobelFilter.Magnitude | TP4_circleHough/src/filters/Sobel.java:56 | The magnitude depends only on the two responses, is never negative, and is 0 exactly when both responses are 0 |
| SobelFilter.AboveThreshold | TP4_circleHough/src/filters/Sobel.java:99 | For a squared magnitude m, the test holds exactly when the integer square root of m exceeds t, or equals t while m is not a perfect square: exactly when sqrt(m) > t |
| SobelFilter.AboveThresholdIsRootTest | TP4_circleHough/src/filters/Sobel.java:99 | For any m and its non-negative real root s, the test on m holds exactly when s > t, the source's comparison of the real magnitude with the threshold |
| SobelFilter.Sobel.constructor | TP4_circleHough/src/filters/Sobel.java:13-20 | The constructor keeps the image, allocates three fresh width x height grids and leaves the object valid: both responses and the magnitude are computed at every pixel |
| SobelFilter.Sobel.PerformConvolution | TP4_circleHough/src/filters/Sobel.java:110-170 | The result at (x, y) equals the in-bounds-neighbour convolution of the kernel |
| SobelFilter.Sobel.AddColumn | TP4_circleHough/src/filters/Sobel.java:161-166 | The inner j loop adds exactly one window column's products to the running sum |
| SobelFilter.Sobel.CalcSobelX | TP4_circleHough/src/filters/Sobel.java:25-33 | Afterwards sobelX holds the horizontal-kernel convolution at every pixel |
| SobelFilter.Sobel.CalcSobelY | TP4_circleHough/src/filters/Sobel.java:38-46 | Afterwards sobelY holds the vertical-kernel convolution at every pixel |
| SobelFilter.Sobel.ComputeSobel | TP4_circleHough/src/filters/Sobel.java:51-59 | Afterwards both response grids are filled and sobel[i, j] is the magnitude of sobelX[i, j] and sobelY[i, j] at every pixel |
| SobelFilter.Sobel.ThresholdImg | TP4_circleHough/src/filters/Sobel.java:93-105 | The fresh width x height mask is set exactly at the pixels whose magnitude exceeds the threshold and unset at every other pixel |
| HoughLines.HoughHeight | TP4_houghLines/src/HoughTransform.java:75 | 2 * houghHeight is the largest even number whose square is at most 2 * max(w, h)^2, i.e. at most the diagonal of a max(w, h) square |
| HoughLines.NewHoughLine | TP4_houghLines/src/HoughLine.java:14-47 | theta, r and score are stored unchanged; for t < 45 or t > 135 the endpoints are pinned to y1 = 0 and y2 = height - 1, otherwise to x1 = 0 and x2 = width - 1; the free coordinates use the offset r - houghHeight |
| HoughLines.WrapInt32 | TP4_houghLines/src/HoughLine.java:50 | The result lies in the 32-bit range, is congruent to the input modulo 2^32, and equals the input when the input fits |
| HoughLines.CompareTo | TP4_houghLines/src/HoughLine.java:49-51 | compareTo returns a Java int that differs from the true score difference by a multiple of 2^32 |
| HoughLines.CompareToFollowsScore | TP4_houghLines/src/HoughLine.java:49-51 | For vote-count scores, compareTo is negative, zero or positive exactly when the first score is less than, equal to or greater than the second |
| HoughLines.CompareToIsTotalPreorder | TP4_houghLines/src/HoughLine.java:49-51 | For vote-count scores, compareTo is antisymmetric, transitive and total |
| HoughLines.CompareToWrapsOnNegativeScores | TP4_houghLines/src/HoughLine.java:49-51 | Without the bound the subtraction overflows: scores 2^31 - 1 and -1 compare the wrong way round |
| HoughTransforms.VotesSnoc | TP4_houghLines/src/HoughTransform.java:130-140 | One more point adds exactly its own vote to each cell |
| HoughTransforms.VotesAppend | TP4_houghLines/src/HoughTransform.java:130-140 | The cell counts of two runs of points add up |
| HoughTransforms.VotesIgnoreOrder | TP4_houghLines/src/HoughTransform.java:130-140 | Two runs with the same points, counted with multiplicity, give the same count in every cell: the order of addPoint calls does not matter |
| HoughTransforms.RowTotalSnoc | TP4_houghLines/src/HoughTransform.java:127-141 | One more point raises an angle row's total by 1 when its column is in range, and leaves it unchanged otherwise |
| HoughTransforms.RowTotalAtMostPoints | TP4_houghLines/src/HoughTransform.java:127-141 | No angle row holds more votes than there are points |
| HoughTransforms.GridTotalSnoc | TP4_houghLines/src/HoughTransform.java:127-141 | One more point never lowers the accumulator total and raises it by at most one per angle row (180 in all) |
| HoughTransforms.IsEdgePixel | TP4_houghLines/src/HoughTransform.java:112 | A pixel is an edge exactly when the low byte of its 32-bit two's-complement pattern is not zero |
| HoughTransforms.EdgeIsBlueChannel | TP4_houghLines/src/HoughTransform.java:112 | A pixel packed from alpha, red, green and blue channels into a Java int is an edge exactly when its blue channel is not zero |
| HoughTransforms.ColumnEdgesExactly | TP4_houghLines/src/HoughTransform.java:110-115 | The points taken from one column are exactly its edge pixels, in increasing y |
| HoughTransforms.EdgePointsExactly | TP4_houghLines/src/HoughTransform.java:106-117 | The points added for an image are exactly the pixels whose low byte is non-zero, each once, x-major then y |
| HoughTransforms.WrapTheta | TP4_houghLines/src/HoughTransform.java:181-187 | A neighbour's angle bin is folded into [0, 180) and stays congruent modulo 180 |
| HoughTransforms.RowCandidatesSound | TP4_houghLines/src/HoughTransform.java:171-201 | Every candidate of an angle row is a peak of that row, carrying its cell's count |
| HoughTransforms.CandidatesSound | TP4_houghLines/src/HoughTransform.java:169-202 | Every candidate is a peak of the accumulator and carries its cell's count |
| HoughTransforms.RowCandidatesComplete | TP4_houghLines/src/HoughTransform.java:171-201 | Every peak of an angle row yields a candidate |
| HoughTransforms.CandidatesComplete | TP4_houghLines/src/HoughTransform.java:169-202 | Every peak of the accumulator yields a candidate |
| HoughTransforms.CandidatesAreExactlyPeaks | TP4_houghLines/src/HoughTransform.java:169-202 | Cell (t, r) yields a candidate if and only if 4 <= r < doubleHeight - 4, its count exceeds the threshold, and no cell of its 9x9 window is larger, with the angle wrapped and the offset not; CandidatesOrdered adds that it yields exactly one |
| HoughTransforms.RowCandidatesOrdered | TP4_houghLines/src/HoughTransform.java:170-200 | The candidates of one angle row come out in strictly increasing offset |
| HoughTransforms.CandidatesOrdered | TP4_houghLines/src/HoughTransform.java:169-202 | All candidates come out in scan order, strictly increasing by (angle, offset); with CandidatesAreExactlyPeaks, every peak yields exactly one line |
| HoughTransforms.InsertPermutes | TP4_houghLines/src/HoughTransform.java:203 | Inserting a candidate adds it and loses nothing |
| HoughTransforms.InsertSorted | TP4_houghLines/src/HoughTransform.java:203 | Inserting into a list sorted by descending score keeps it sorted |
| HoughTransforms.SortByScore | TP4_houghLines/src/HoughTransform.java:203 | The sorted list is a permutation of the candidates, in non-increasing score order |
| HoughTransforms.SetSize | TP4_houghLines/src/HoughTransform.java:204 | The result has exactly n entries: the first min(n, size) candidates in place, then nulls |
| HoughTransforms.SetSizeKeepsOrder | TP4_houghLines/src/HoughTransform.java:203-204 | After resizing a sorted list, present entries come first and in non-increasing score order |
| HoughTransforms.SortedCandidatesAreCandidates | TP4_houghLines/src/HoughTransform.java:199-204 | Sorting and resizing keep every present entry a peak, and drop none unless n cuts it off |
| HoughTransforms.TopNKept | TP4_houghLines/src/HoughTransform.java:203-204 | After sorting by descending score and resizing to n, every entry that was cut off scores no more than any entry kept |
| HoughTransforms.HoughTransform.constructor | TP4_houghLines/src/HoughTransform.java:60-62 | A new transform has the given size and a valid, empty accumulator, with no points |
| HoughTransforms.HoughTransform.FromImage | TP4_houghLines/src/HoughTransform.java:48-51 | A transform built from an image has added exactly the image's edge pixels, in scan order |
| HoughTransforms.HoughTransform.Initialise | TP4_houghLines/src/HoughTransform.java:70-98 | The accumulator is a fresh 180 x doubleHeight array of zeros with doubleHeight = 2 * houghHeight, and numPoints is 0 |
| HoughTransforms.HoughTransform.AddPoint | TP4_houghLines/src/HoughTransform.java:124-144 | In each angle row only the cell at offset + houghHeight gains one vote, and only when it lies in [0, doubleHeight); no other cell changes; numPoints rises by 1; every cell still counts the votes of the points added |
| HoughTransforms.HoughTransform.AddPoints | TP4_houghLines/src/HoughTransform.java:106-117 | The points added are the previous ones followed by the image's edge pixels in scan order, and the accumulator counts them |
| HoughTransforms.HoughTransform.IsLocalMaximum | TP4_houghLines/src/HoughTransform.java:176-193 | The answer is true exactly when no cell of the 9x9 window (angle wrapped, offset not) is larger; every window index is in range |
| HoughTransforms.HoughTransform.ScanRow | TP4_houghLines/src/HoughTransform.java:171-201 | The scan of one angle row yields exactly that row's peaks, in increasing offset |
| HoughTransforms.HoughTransform.FindPeaks | TP4_houghLines/src/HoughTransform.java:169-202 | The scan yields exactly the accumulator's peaks, angle row by angle row |
| HoughTransforms.HoughTransform.GetLinesAbove | TP4_houghLines/src/HoughTransform.java:158-207 | The result is empty when no point was added; otherwise it is the peaks sorted by descending score and cut or padded to n entries; the accumulator is not modified |
| HoughTransforms.HoughTransform.GetLines | TP4_houghLines/src/HoughTransform.java:146-148 | getLines(n) returns what getLines(n, 0) returns |
| HoughTransforms.LinesShape | TP4_houghLines/src/HoughTransform.java:158-207 | getLines returns nothing when no point was added; otherwise exactly n entries, present ones first in non-increasing score, each a peak carrying its count, every peak present unless n cuts it off; LinesAreTopN adds that the peaks cut off score no more than those returned |
| HoughTransforms.LinesAreTopN | TP4_houghLines/src/HoughTransform.java:158-207 | getLines(n) returns the n best peaks: every peak left out scores no more than any line returned (see also CandidatesOrdered for the order in which peaks are found) |
| HoughTransforms.CandidateRecoversOffset | TP4_houghLines/src/HoughLine.java:20-46 | The candidate built for a cell recomputes houghHeight with the formula initialise uses, so r - houghHeight is the signed offset of every point that voted for the cell, and its free endpoint coordinates are those of the line at that offset |
| CircleHough.CircleDetector.constructor | TP4_circleHough/src/houghTransform/CircleDetector.java:13-17 | The threshold and the two radii are stored unchanged |
| CircleHough.CircleDetector.GetThreshold | TP4_circleHough/src/houghTransform/CircleDetector.java:62-64 | Returns the stored threshold |
| CircleHough.CircleDetector.GetMinRadius | TP4_circleHough/src/houghTransform/CircleDetector.java:66-68 | Returns the stored minimum radius |
| CircleHough.CircleDetector.GetMaxRadius | TP4_circleHough/src/houghTransform/CircleDetector.java:70-72 | Returns the stored maximum radius |
| CircleHough.CircleDetector.CircleDetection | TP4_circleHough/src/houghTransform/CircleDetector.java:22-60 | The result is every cell of the radius range in raster order, each carrying the number of votes the pixels above the threshold cast for it |
| CircleHough.Accumulate | TP4_circleHough/src/houghTransform/CircleDetector.java:24-50 | The accumulator is fresh, width x height x maxRadius, and each cell holds the number of votes cast for it |
| CircleHough.NewAccumulator | TP4_circleHough/src/houghTransform/CircleDetector.java:24 | A fresh accumulator holds no votes and its largest value is 0 |
| CircleHough.VoteColumn | TP4_circleHough/src/houghTransform/CircleDetector.java:28-49 | After the y loop of column x, the cells count that column's votes too and max is still the largest value |
| CircleHough.VotePixel | TP4_circleHough/src/houghTransform/CircleDetector.java:33-48 | A pixel votes only when its magnitude exceeds the threshold; the counts and max stay exact |
| CircleHough.VoteRadii | TP4_circleHough/src/houghTransform/CircleDetector.java:34-47 | A voting pixel attempts every radius in minRadius..maxRadius-1; the counts and max stay exact |
| CircleHough.VoteAngles | TP4_circleHough/src/houghTransform/CircleDetector.java:35-46 | At one radius the pixel attempts every angle 0..360; the counts and max stay exact |
| CircleHough.VoteAngle | TP4_circleHough/src/houghTransform/CircleDetector.java:36-45 | One attempt adds a vote to cell (a, b, rad) exactly when 0 <= a <= width-1 and 0 <= b <= height-1, and is skipped otherwise; max stays the largest value |
| CircleHough.CastVote | TP4_circleHough/src/houghTransform/CircleDetector.java:41-44 | One increment raises exactly one cell's count by one, and max is kept the largest value of the accumulator |
| CircleHough.Aim | TP4_circleHough/src/houghTransform/CircleDetector.java:36-41 | An attempt is skipped exactly when the centre fails the source's bounds test, and is otherwise a vote for that centre at the current radius |
| CircleHough.TallySnoc | TP4_circleHough/src/houghTransform/CircleDetector.java:41 | One more vote raises its own cell's count by one and no other |
| CircleHough.Report | TP4_circleHough/src/houghTransform/CircleDetector.java:52-58 | The extraction emits every cell of the radius range, x-major, then y, then radius, with its count and without filtering |
| CircleHough.ReportPixel | TP4_circleHough/src/houghTransform/CircleDetector.java:54-56 | The radius loop emits one circle per radius in minRadius..maxRadius-1, each with its cell's count |
| CircleHough.RadiusCircles | TP4_circleHough/src/houghTransform/CircleDetector.java:54-56 | The circles of one pixel number maxRadius - minRadius (or none), and the k-th has radius minRadius + k and that cell's count |
| CircleHough.CastAtMostAttempts | TP4_circleHough/src/houghTransform/CircleDetector.java:40-45 | The votes cast never outnumber the attempts, and equal them exactly when no attempt is skipped |
| CircleHough.AngleVotesLand | TP4_circleHough/src/houghTransform/CircleDetector.java:35-46 | At one radius a pixel makes exactly 361 attempts, casts at most 361 votes, and every vote is for a cell in the image at that radius |
| CircleHough.RadiusVotesLand | TP4_circleHough/src/houghTransform/CircleDetector.java:34-47 | Every vote of a pixel is for a cell in the image with a radius in minRadius..maxRadius-1 |
| CircleHough.PixelVotesLand | TP4_circleHough/src/houghTransform/CircleDetector.java:33-48 | A pixel at or below the threshold casts no vote; the votes of any other pixel land in the accumulator's radius range |
| CircleHough.ColumnVotesLand | TP4_circleHough/src/houghTransform/CircleDetector.java:28-49 | Every vote of a column lands in the image and the radius range |
| CircleHough.VotesLand | TP4_circleHough/src/houghTransform/CircleDetector.java:27-50 | Every vote of the detection lands in the image and the radius range |
| CircleHough.UnreachableCellsHaveNoVotes | TP4_circleHough/src/houghTransform/CircleDetector.java:34-41 | A cell outside the image or outside minRadius..maxRadius-1 receives no vote |
| CircleHough.NoEdgesNoVotes | TP4_circleHough/src/houghTransform/CircleDetector.java:33-58 | When no pixel exceeds the threshold no vote is cast and every reported circle has 0 votes |
| CircleHough.ReportLength | TP4_circleHough/src/houghTransform/CircleDetector.java:52-58 | The report holds width * height * (maxRadius - minRadius) circles, or none when the radius range is empty |
| CircleHough.ColumnCircleAt | TP4_circleHough/src/houghTransform/CircleDetector.java:53-57 | Within column x, the circle of pixel y and radius rad sits at y * (maxRadius - minRadius) + (rad - minRadius) and carries its cell's count |
| CircleHough.ReportAt | TP4_circleHough/src/houghTransform/CircleDetector.java:52-58 | The circle of pixel (x, y) and radius rad sits at index (x * height + y) * (maxRadius - minRadius) + (rad - minRadius) and carries its cell's count |

## Left out

- `TP4_circleHough/src/Utils.java` (grayscale conversion, file writing, rescaling) is library and I/O wrapping and is not part of this model.
- Trigonometry and the centre of the image are given functions, not computed. This covers the sine/cosine caches and the centre `(width / 2, height / 2)` of the line transform, the endpoint formulas of a line candidate, and the circle centre formula. `Trig` and `CentreRule` carry them.
- Floating point: `theta` is kept as its angle bin t, since the angle is always t * PI / 180. The test `theta < PI/4 || theta > 3PI/4` is `t < 45 || t > 135`, which is what it evaluates to in double arithmetic.
- HoughLines.HoughHeight: computed exactly as floor(sqrt(2 * m^2)) / 2. The double expression `(int)(sqrt(2) * m) / 2` gives the same value whenever sqrt(2) * m is not within rounding error of an integer, which holds for any realistic image size.
- SobelFilter.Magnitude: stores gx^2 + gy^2 instead of the double sqrt(gx^2 + gy^2). The threshold test compares the square instead of the root; `AboveThresholdIsRootTest` proves the two tests agree against the exact real root. The rounding of the double `Math.sqrt` is not modelled.
- `getSobelImage` and `map` rescale the magnitude to gray levels for display only, and are left out.
- Images are integer grids `g[x][y]`. The Sobel stage reads intensities directly, where the source reads them through `getRGB` and `Color.getRed`. The line transform reads packed ARGB values and tests the low byte as `argb % 256 != 0`, which equals `(argb & 0xff) != 0` for every int. `thresholdImg` returns a boolean mask, not a red-on-transparent image.
- The `PImage` constructor of the line transform is left out. The `BufferedImage` one is modelled as `FromImage`.
- Java exceptions are modelled as preconditions:
  - `Sobel` requires an image at least 2x2, because the nine-branch code reads outside smaller images (see `NarrowImageReadsOutside`);
  - `getLines` requires n >= 0 when points were added, because `Vector.setSize` rejects a negative size;
  - `CircleDetection` requires `RadiiOk`: maxRadius must not be negative, and a negative minRadius is allowed only when no radius layer is visited.
- HoughTransforms.SortByScore: modelled as an insertion sort by descending score. Its contract fixes the multiset and the order of scores, but not the relative order of equal scores, which `Collections.sort` keeps stable.
- Integer overflow of the vote counters and of `numPoints` is not modelled (the counters are unbounded). `compareTo`'s 32-bit wrap-around is modelled.
- CircleHough.Accumulate: the running `max` of the voting loop is computed and kept as a proved invariant (`IsLargest`), but the method does not return it, as the source does not use it.
- `HoughTransform extends Thread` without a `run` body, and `fitLine` has an empty body; neither has behaviour.
- The `Circle` class is not part of this model; a circle is the record `(x, y, rad, votes)`.
