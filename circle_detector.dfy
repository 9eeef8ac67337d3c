/**
 * The circle Hough transform. Every pixel whose gradient magnitude exceeds the
 * threshold votes, for each radius in [minRadius, maxRadius) and each whole
 * degree t in 0..360, for the centre (floor(x - rad * cos t), floor(y - rad * sin t))
 * in a width x height x maxRadius accumulator; centres outside the image are
 * skipped. Then every cell of the radius range is reported, x-major, then y,
 * then radius, with its vote count and without any filtering.
 *
 * The centre formula is floating point and is taken as a given function. The
 * magnitudes are the squared Sobel magnitudes, compared with the threshold by
 * AboveThreshold.
 */
module CircleHough {
  import opened Grids
  import opened SobelFilter

  /** A reported circle: centre (x, y), radius and the number of votes its accumulator cell received. */
  datatype Circle = Circle(x: int, y: int, rad: int, votes: int)

  /** An accumulator cell: centre (a, b) and radius. */
  datatype Cell = Cell(a: int, b: int, rad: int)

  /** centre(x, y, rad, t) is the candidate centre (floor(x - rad * cos t°), floor(y - rad * sin t°)). */
  type CentreRule = (int, int, int, int) -> (int, int)

  /** The last angle of the voting loop, in degrees: the angles 0..360 are visited, 361 of them. */
  const LastAngle := 360

  /** Everything one detection depends on: the magnitude grid, the centre rule and the detector's settings. */
  datatype Detection = Detection(mag: seq<seq<int>>, width: nat, height: nat, centre: CentreRule,
                                 threshold: int, minRadius: int, maxRadius: int)

  predicate ValidDetection(d: Detection)
  {
    IsGrid(d.mag, d.width, d.height)
  }

  /** The bounds test of the voting loop. */
  predicate InImage(d: Detection, a: int, b: int)
  {
    0 <= a <= d.width - 1 && 0 <= b <= d.height - 1
  }

  /** The cells of the accumulator's radius range. */
  predicate InRange(d: Detection, c: Cell)
  {
    InImage(d, c.a, c.b) && d.minRadius <= c.rad < d.maxRadius
  }

  /** The number of radius layers reported per pixel. */
  function Layers(d: Detection): nat
  {
    Max(0, d.maxRadius - d.minRadius)
  }

  /**
   * The radius settings the detector can run with: the accumulator's radius
   * dimension maxRadius is not negative, and a negative minRadius is only
   * harmless when no radius layer is visited.
   */
  predicate RadiiOk(width: int, height: int, minRadius: int, maxRadius: int)
  {
    0 <= maxRadius && (0 <= minRadius || maxRadius <= minRadius || width == 0 || height == 0)
  }

  // ---------------------------------------------------------------------------
  // The attempts, in the order the voting loops make them
  // ---------------------------------------------------------------------------

  /**
   * One visit of the angle loop is an attempt: Some(cell) when the centre lies
   * in the image and the cell gets a vote, None when it is skipped.
   */
  type Attempt = Option<Cell>

  /** The number of times cell c was voted for. */
  function Tally(votes: seq<Attempt>, c: Cell): nat
  {
    if votes == [] then 0 else Tally(votes[..|votes| - 1], c) + if votes[|votes| - 1] == Some(c) then 1 else 0
  }

  /** The number of votes cast, skipped attempts aside. */
  function Cast(votes: seq<Attempt>): nat
  {
    if votes == [] then 0 else Cast(votes[..|votes| - 1]) + if votes[|votes| - 1].Some? then 1 else 0
  }

  /**
   * The attempt of pixel (x, y) at radius rad and angle t: skipped exactly when
   * the centre falls outside the image, and otherwise a vote for that centre
   * at radius rad.
   */
  function Aim(d: Detection, x: int, y: int, rad: int, t: int): (v: Attempt)
    ensures var c := d.centre(x, y, rad, t);
      v == None <==> (0 > c.0 || c.0 > d.width - 1) || (0 > c.1 || c.1 > d.height - 1)
    ensures v.Some? ==> v.value == Cell(d.centre(x, y, rad, t).0, d.centre(x, y, rad, t).1, rad)
  {
    var c := d.centre(x, y, rad, t);
    if InImage(d, c.0, c.1) then Some(Cell(c.0, c.1, rad)) else None
  }

  /** The attempts of pixel (x, y) at radius rad, one per angle 0..360. */
  function AngleVotes(d: Detection, x: int, y: int, rad: int): seq<Attempt>
  {
    seq(LastAngle + 1, t => Aim(d, x, y, rad, t))
  }

  /** The attempts of pixel (x, y) at the radii lo..hi-1. */
  function RadiusVotes(d: Detection, x: int, y: int, lo: int, hi: int): seq<Attempt>
    decreases hi - lo
  {
    if hi <= lo then [] else RadiusVotes(d, x, y, lo, hi - 1) + AngleVotes(d, x, y, hi - 1)
  }

  /** The attempts of pixel (x, y): none unless its magnitude exceeds the threshold. */
  function PixelVotes(d: Detection, x: int, y: int): seq<Attempt>
    requires ValidDetection(d) && 0 <= x < d.width && 0 <= y < d.height
  {
    if AboveThreshold(d.mag[x][y], d.threshold) then RadiusVotes(d, x, y, d.minRadius, d.maxRadius) else []
  }

  /** The attempts of the pixels (x, 0) .. (x, n-1). */
  function ColumnVotes(d: Detection, x: int, n: nat): seq<Attempt>
    requires ValidDetection(d) && 0 <= x < d.width && n <= d.height
  {
    if n == 0 then [] else ColumnVotes(d, x, n - 1) + PixelVotes(d, x, n - 1)
  }

  /** The attempts of the columns 0..n-1. */
  function AllVotes(d: Detection, n: nat): seq<Attempt>
    requires ValidDetection(d) && n <= d.width
  {
    if n == 0 then [] else AllVotes(d, n - 1) + ColumnVotes(d, n - 1, d.height)
  }

  // ---------------------------------------------------------------------------
  // The report, in the order the extraction loops emit it
  // ---------------------------------------------------------------------------

  /** The circles of pixel (x, y) for the radii lo..hi-1, in radius order, each with its tally. */
  function RadiusCircles(votes: seq<Attempt>, x: int, y: int, lo: int, hi: int): (r: seq<Circle>)
    ensures |r| == Max(0, hi - lo)
    ensures forall k :: 0 <= k < |r| ==> r[k] == Circle(x, y, lo + k, Tally(votes, Cell(x, y, lo + k)))
    decreases hi - lo
  {
    if hi <= lo then [] else RadiusCircles(votes, x, y, lo, hi - 1) + [Circle(x, y, hi - 1, Tally(votes, Cell(x, y, hi - 1)))]
  }

  /** The circles of the pixels (x, 0) .. (x, n-1). */
  function ColumnCircles(d: Detection, votes: seq<Attempt>, x: int, n: nat): seq<Circle>
  {
    if n == 0 then [] else ColumnCircles(d, votes, x, n - 1) + RadiusCircles(votes, x, n - 1, d.minRadius, d.maxRadius)
  }

  /** The circles of the columns 0..n-1. */
  function AllCircles(d: Detection, votes: seq<Attempt>, n: nat): seq<Circle>
  {
    if n == 0 then [] else AllCircles(d, votes, n - 1) + ColumnCircles(d, votes, n - 1, d.height)
  }

  // ---------------------------------------------------------------------------
  // The accumulator
  // ---------------------------------------------------------------------------

  /** Every accumulator cell holds the number of votes cast for it. */
  ghost predicate Tallies(acc: array3<int>, votes: seq<Attempt>)
    reads acc
  {
    forall i, j, k {:trigger acc[i, j, k]} :: 0 <= i < acc.Length0 && 0 <= j < acc.Length1 && 0 <= k < acc.Length2 ==>
      acc[i, j, k] == Tally(votes, Cell(i, j, k))
  }

  /** max is the largest value in the accumulator, or 0 for an accumulator without cells. */
  ghost predicate IsLargest(acc: array3<int>, max: int)
    reads acc
  {
    0 <= max
    && (forall i, j, k :: 0 <= i < acc.Length0 && 0 <= j < acc.Length1 && 0 <= k < acc.Length2 ==> acc[i, j, k] <= max)
    && (max == 0 || exists i, j, k :: 0 <= i < acc.Length0 && 0 <= j < acc.Length1 && 0 <= k < acc.Length2 && acc[i, j, k] == max)
  }

  /** The accumulator holds the tallies of the votes, and max is its largest value. */
  ghost predicate Counted(acc: array3<int>, votes: seq<Attempt>, max: int)
    reads acc
  {
    Tallies(acc, votes) && IsLargest(acc, max)
  }

  /** One more attempt raises the tally of the cell it votes for by one and leaves every other tally alone. */
  lemma TallySnoc(votes: seq<Attempt>, v: Attempt, e: Cell)
    ensures Tally(votes + [v], e) == Tally(votes, e) + if v == Some(e) then 1 else 0
  {
    assert (votes + [v])[..|votes|] == votes;
  }

  /** A skipped attempt changes no cell. */
  lemma SkipKeepsTallies(acc: array3<int>, votes: seq<Attempt>)
    requires Tallies(acc, votes)
    ensures Tallies(acc, votes + [None])
  {
    forall i, j, k | 0 <= i < acc.Length0 && 0 <= j < acc.Length1 && 0 <= k < acc.Length2
      ensures acc[i, j, k] == Tally(votes + [None], Cell(i, j, k))
    {
      TallySnoc(votes, None, Cell(i, j, k));
    }
  }

  /** Adds one vote to cell (a, b, rad) and keeps max the largest value. */
  method CastVote(acc: array3<int>, a: int, b: int, rad: int, max: int, ghost votes: seq<Attempt>) returns (max': int)
    requires 0 <= a < acc.Length0 && 0 <= b < acc.Length1 && 0 <= rad < acc.Length2
    requires Tallies(acc, votes) && IsLargest(acc, max)
    modifies acc
    ensures Tallies(acc, votes + [Some(Cell(a, b, rad))]) && IsLargest(acc, max')
  {
    acc[a, b, rad] := acc[a, b, rad] + 1;
    max' := max;
    if acc[a, b, rad] > max' {
      max' := acc[a, b, rad];
    }
    forall i, j, k | 0 <= i < acc.Length0 && 0 <= j < acc.Length1 && 0 <= k < acc.Length2
      ensures acc[i, j, k] == Tally(votes + [Some(Cell(a, b, rad))], Cell(i, j, k))
    {
      TallySnoc(votes, Some(Cell(a, b, rad)), Cell(i, j, k));
    }
  }

  class CircleDetector {
    const threshold: int
    const minRadius: int
    const maxRadius: int

    constructor (threshold: int, minRadius: int, maxRadius: int)
      ensures this.threshold == threshold && this.minRadius == minRadius && this.maxRadius == maxRadius
    {
      this.threshold := threshold;
      this.minRadius := minRadius;
      this.maxRadius := maxRadius;
    }

    method GetThreshold() returns (t: int)
      ensures t == threshold
    {
      t := threshold;
    }

    method GetMinRadius() returns (r: int)
      ensures r == minRadius
    {
      r := minRadius;
    }

    method GetMaxRadius() returns (r: int)
      ensures r == maxRadius
    {
      r := maxRadius;
    }

    /**
     * Votes into a fresh width x height x maxRadius accumulator, then reports
     * every cell of the radius range with its vote count.
     */
    method CircleDetection(width: nat, height: nat, mag: seq<seq<int>>, centre: CentreRule) returns (circles: seq<Circle>)
      requires IsGrid(mag, width, height)
      requires RadiiOk(width, height, minRadius, maxRadius)
      ensures var d := Detection(mag, width, height, centre, threshold, minRadius, maxRadius);
        circles == AllCircles(d, AllVotes(d, width), width)
    {
      var d := Detection(mag, width, height, centre, threshold, minRadius, maxRadius);
      var accumulator, votes := Accumulate(d);
      circles := Report(d, accumulator, votes);
    }
  }

  lemma AppendAssoc<T>(a: seq<T>, b: seq<T>, c: seq<T>)
    ensures a + (b + c) == (a + b) + c
  {
  }

  /** The voting loops: every pixel above the threshold votes into a fresh zeroed accumulator. */
  method Accumulate(d: Detection) returns (acc: array3<int>, ghost votes: seq<Attempt>)
    requires ValidDetection(d) && RadiiOk(d.width, d.height, d.minRadius, d.maxRadius)
    ensures fresh(acc)
    ensures acc.Length0 == d.width && acc.Length1 == d.height && acc.Length2 == d.maxRadius
    ensures votes == AllVotes(d, d.width) && Tallies(acc, votes)
  {
    acc := NewAccumulator(d.width, d.height, d.maxRadius);
    var max := 0;
    votes := [];
    for x := 0 to d.width
      invariant votes == AllVotes(d, x)
      invariant Counted(acc, votes, max)
    {
      max, votes := VoteColumn(d, acc, x, max, votes);
    }
  }

  /** A fresh accumulator of zeros: no votes yet. */
  method NewAccumulator(width: nat, height: nat, depth: nat) returns (acc: array3<int>)
    ensures fresh(acc)
    ensures acc.Length0 == width && acc.Length1 == height && acc.Length2 == depth
    ensures Tallies(acc, []) && IsLargest(acc, 0)
  {
    acc := new int[width, height, depth]((i, j, k) => 0);
  }

  /** The voting of column x: the y loop of the detection. */
  method VoteColumn(d: Detection, acc: array3<int>, x: int, max: int, ghost votes: seq<Attempt>)
    returns (max': int, ghost votes': seq<Attempt>)
    requires ValidDetection(d) && 0 <= x < d.width
    requires RadiiOk(d.width, d.height, d.minRadius, d.maxRadius)
    requires acc.Length0 == d.width && acc.Length1 == d.height && acc.Length2 == d.maxRadius
    requires Counted(acc, votes, max)
    modifies acc
    ensures votes' == votes + ColumnVotes(d, x, d.height)
    ensures Counted(acc, votes', max')
  {
    max', votes' := max, votes;
    for y := 0 to d.height
      invariant votes' == votes + ColumnVotes(d, x, y)
      invariant Counted(acc, votes', max')
    {
      max', votes' := VotePixel(d, acc, x, y, max', votes');
      AppendAssoc(votes, ColumnVotes(d, x, y), PixelVotes(d, x, y));
    }
  }

  /** The voting of pixel (x, y): only a pixel above the threshold votes. */
  method VotePixel(d: Detection, acc: array3<int>, x: int, y: int, max: int, ghost votes: seq<Attempt>)
    returns (max': int, ghost votes': seq<Attempt>)
    requires ValidDetection(d) && 0 <= x < d.width && 0 <= y < d.height
    requires RadiiOk(d.width, d.height, d.minRadius, d.maxRadius)
    requires acc.Length0 == d.width && acc.Length1 == d.height && acc.Length2 == d.maxRadius
    requires Counted(acc, votes, max)
    modifies acc
    ensures votes' == votes + PixelVotes(d, x, y)
    ensures Counted(acc, votes', max')
  {
    max', votes' := max, votes;
    if AboveThreshold(d.mag[x][y], d.threshold) {
      max', votes' := VoteRadii(d, acc, x, y, max, votes);
    }
  }

  /** The attempts of pixel (x, y) at every radius: the radius loop of the detection. */
  method VoteRadii(d: Detection, acc: array3<int>, x: int, y: int, max: int, ghost votes: seq<Attempt>)
    returns (max': int, ghost votes': seq<Attempt>)
    requires 0 <= x < d.width && 0 <= y < d.height
    requires RadiiOk(d.width, d.height, d.minRadius, d.maxRadius)
    requires acc.Length0 == d.width && acc.Length1 == d.height && acc.Length2 == d.maxRadius
    requires Counted(acc, votes, max)
    modifies acc
    ensures votes' == votes + RadiusVotes(d, x, y, d.minRadius, d.maxRadius)
    ensures Counted(acc, votes', max')
  {
    max', votes' := max, votes;
    var rad := d.minRadius;
    while rad < d.maxRadius
      invariant d.minRadius <= rad <= Max(d.minRadius, d.maxRadius)
      invariant votes' == votes + RadiusVotes(d, x, y, d.minRadius, rad)
      invariant Counted(acc, votes', max')
    {
      max', votes' := VoteAngles(d, acc, x, y, rad, max', votes');
      AppendAssoc(votes, RadiusVotes(d, x, y, d.minRadius, rad), AngleVotes(d, x, y, rad));
      rad := rad + 1;
    }
  }

  /** The attempts of pixel (x, y) at radius rad: the angle loop of the detection. */
  method VoteAngles(d: Detection, acc: array3<int>, x: int, y: int, rad: int, max: int, ghost votes: seq<Attempt>)
    returns (max': int, ghost votes': seq<Attempt>)
    requires 0 <= x < d.width && 0 <= y < d.height && 0 <= rad < d.maxRadius
    requires acc.Length0 == d.width && acc.Length1 == d.height && acc.Length2 == d.maxRadius
    requires Counted(acc, votes, max)
    modifies acc
    ensures votes' == votes + AngleVotes(d, x, y, rad)
    ensures Counted(acc, votes', max')
  {
    max', votes' := max, votes;
    ghost var attempts := AngleVotes(d, x, y, rad);
    var t := 0;
    while t <= LastAngle
      invariant 0 <= t <= LastAngle + 1
      invariant votes' == votes + attempts[..t]
      invariant Counted(acc, votes', max')
    {
      max', votes' := VoteAngle(d, acc, x, y, rad, t, max', votes');
      assert attempts[..t + 1] == attempts[..t] + [attempts[t]];
      AppendAssoc(votes, attempts[..t], [attempts[t]]);
      t := t + 1;
    }
    assert attempts[..LastAngle + 1] == attempts;
  }

  /** The attempt of pixel (x, y) at radius rad and angle t: a vote when the centre lies in the image. */
  method VoteAngle(d: Detection, acc: array3<int>, x: int, y: int, rad: int, t: int, max: int, ghost votes: seq<Attempt>)
    returns (max': int, ghost votes': seq<Attempt>)
    requires 0 <= rad < d.maxRadius
    requires acc.Length0 == d.width && acc.Length1 == d.height && acc.Length2 == d.maxRadius
    requires Counted(acc, votes, max)
    modifies acc
    ensures votes' == votes + [Aim(d, x, y, rad, t)]
    ensures Counted(acc, votes', max')
  {
    var c := d.centre(x, y, rad, t);
    var a, b := c.0, c.1;
    if !((0 > a || a > d.width - 1) || (0 > b || b > d.height - 1)) {
      max' := CastVote(acc, a, b, rad, max, votes);
      votes' := votes + [Some(Cell(a, b, rad))];
    } else {
      SkipKeepsTallies(acc, votes);
      max', votes' := max, votes + [None];
    }
  }

  /** The extraction loops: every cell of the radius range, x-major, then y, then radius, with its count. */
  method Report(d: Detection, acc: array3<int>, ghost votes: seq<Attempt>) returns (circles: seq<Circle>)
    requires RadiiOk(d.width, d.height, d.minRadius, d.maxRadius)
    requires acc.Length0 == d.width && acc.Length1 == d.height && acc.Length2 == d.maxRadius
    requires Tallies(acc, votes)
    ensures circles == AllCircles(d, votes, d.width)
  {
    circles := [];
    for x := 0 to d.width
      invariant circles == AllCircles(d, votes, x)
    {
      for y := 0 to d.height
        invariant circles == AllCircles(d, votes, x) + ColumnCircles(d, votes, x, y)
      {
        var pixel := ReportPixel(d, acc, votes, x, y);
        circles := circles + pixel;
      }
    }
  }

  /** The report of pixel (x, y): the radius loop of the extraction. */
  method ReportPixel(d: Detection, acc: array3<int>, ghost votes: seq<Attempt>, x: int, y: int) returns (r: seq<Circle>)
    requires 0 <= x < d.width && 0 <= y < d.height
    requires RadiiOk(d.width, d.height, d.minRadius, d.maxRadius)
    requires acc.Length0 == d.width && acc.Length1 == d.height && acc.Length2 == d.maxRadius
    requires Tallies(acc, votes)
    ensures r == RadiusCircles(votes, x, y, d.minRadius, d.maxRadius)
  {
    r := [];
    var rad := d.minRadius;
    while rad < d.maxRadius
      invariant d.minRadius <= rad <= Max(d.minRadius, d.maxRadius)
      invariant r == RadiusCircles(votes, x, y, d.minRadius, rad)
    {
      r := r + [Circle(x, y, rad, acc[x, y, rad])];
      rad := rad + 1;
    }
  }

  // ---------------------------------------------------------------------------
  // Where the votes land
  // ---------------------------------------------------------------------------

  /** Every vote among the attempts v is for a cell in the image with a radius in lo..hi-1. */
  ghost predicate Lands(d: Detection, v: seq<Attempt>, lo: int, hi: int)
  {
    forall i :: 0 <= i < |v| && v[i].Some? ==> InImage(d, v[i].value.a, v[i].value.b) && lo <= v[i].value.rad < hi
  }

  lemma LandsAppend(d: Detection, v: seq<Attempt>, w: seq<Attempt>, lo: int, hi: int)
    requires Lands(d, v, lo, hi) && Lands(d, w, lo, hi)
    ensures Lands(d, v + w, lo, hi)
  {
    forall i | 0 <= i < |v + w| && (v + w)[i].Some?
      ensures InImage(d, (v + w)[i].value.a, (v + w)[i].value.b) && lo <= (v + w)[i].value.rad < hi
    {
      if i >= |v| {
        assert (v + w)[i] == w[i - |v|];
      }
    }
  }

  /** Cast counts the votes among the attempts: never more than the attempts themselves. */
  lemma {:induction false} CastAtMostAttempts(v: seq<Attempt>)
    ensures Cast(v) <= |v|
    ensures Cast(v) == |v| <==> forall i :: 0 <= i < |v| ==> v[i].Some?
  {
    if v != [] {
      var front := v[..|v| - 1];
      CastAtMostAttempts(front);
      assert forall i :: 0 <= i < |front| ==> front[i] == v[i];
    }
  }

  /**
   * At one radius a pixel makes exactly 361 attempts, one per angle, so it
   * casts at most 361 votes; each vote is for a cell in the image at that radius.
   */
  lemma AngleVotesLand(d: Detection, x: int, y: int, rad: int)
    ensures |AngleVotes(d, x, y, rad)| == LastAngle + 1
    ensures Cast(AngleVotes(d, x, y, rad)) <= LastAngle + 1
    ensures Lands(d, AngleVotes(d, x, y, rad), rad, rad + 1)
  {
    CastAtMostAttempts(AngleVotes(d, x, y, rad));
  }

  /** Over the radii lo..hi-1 every vote of a pixel is at one of those radii, in the image. */
  lemma {:induction false} RadiusVotesLand(d: Detection, x: int, y: int, lo: int, hi: int)
    ensures Lands(d, RadiusVotes(d, x, y, lo, hi), lo, hi)
    decreases hi - lo
  {
    if lo < hi {
      var front, last := RadiusVotes(d, x, y, lo, hi - 1), AngleVotes(d, x, y, hi - 1);
      RadiusVotesLand(d, x, y, lo, hi - 1);
      AngleVotesLand(d, x, y, hi - 1);
      LandsAppend(d, front, last, lo, hi);
    }
  }

  /** A pixel at or below the threshold makes no attempt; the votes of any other pixel land in the accumulator. */
  lemma PixelVotesLand(d: Detection, x: int, y: int)
    requires ValidDetection(d) && 0 <= x < d.width && 0 <= y < d.height
    ensures !AboveThreshold(d.mag[x][y], d.threshold) ==> PixelVotes(d, x, y) == []
    ensures Lands(d, PixelVotes(d, x, y), d.minRadius, d.maxRadius)
  {
    RadiusVotesLand(d, x, y, d.minRadius, d.maxRadius);
  }

  /** Every vote of the pixels (x, 0) .. (x, n-1) is for a cell of the accumulator's radius range. */
  lemma {:induction false} ColumnVotesLand(d: Detection, x: int, n: nat)
    requires ValidDetection(d) && 0 <= x < d.width && n <= d.height
    ensures Lands(d, ColumnVotes(d, x, n), d.minRadius, d.maxRadius)
  {
    if n > 0 {
      ColumnVotesLand(d, x, n - 1);
      PixelVotesLand(d, x, n - 1);
      LandsAppend(d, ColumnVotes(d, x, n - 1), PixelVotes(d, x, n - 1), d.minRadius, d.maxRadius);
    }
  }

  /** Every vote of the whole detection is for a cell of the accumulator's radius range. */
  lemma {:induction false} VotesLand(d: Detection, n: nat)
    requires ValidDetection(d) && n <= d.width
    ensures Lands(d, AllVotes(d, n), d.minRadius, d.maxRadius)
  {
    if n > 0 {
      VotesLand(d, n - 1);
      ColumnVotesLand(d, n - 1, d.height);
      LandsAppend(d, AllVotes(d, n - 1), ColumnVotes(d, n - 1, d.height), d.minRadius, d.maxRadius);
    }
  }

  /** A cell that is never voted for has tally 0. */
  lemma {:induction false} TallyOfAbsent(votes: seq<Attempt>, c: Cell)
    requires forall i :: 0 <= i < |votes| ==> votes[i] != Some(c)
    ensures Tally(votes, c) == 0
  {
    if votes != [] {
      var front := votes[..|votes| - 1];
      assert forall i :: 0 <= i < |front| ==> front[i] == votes[i];
      TallyOfAbsent(front, c);
    }
  }

  /** A cell outside the image or the radius range is never voted for. */
  lemma UnreachableCellsHaveNoVotes(d: Detection, c: Cell)
    requires ValidDetection(d) && !InRange(d, c)
    ensures Tally(AllVotes(d, d.width), c) == 0
  {
    VotesLand(d, d.width);
    TallyOfAbsent(AllVotes(d, d.width), c);
  }

  /** A column without a pixel above the threshold makes no attempt. */
  lemma {:induction false} QuietPixelsCastNoVotes(d: Detection, x: int, n: nat)
    requires ValidDetection(d) && 0 <= x < d.width && n <= d.height
    requires forall y :: 0 <= y < d.height ==> !AboveThreshold(d.mag[x][y], d.threshold)
    ensures ColumnVotes(d, x, n) == []
  {
    if n > 0 {
      QuietPixelsCastNoVotes(d, x, n - 1);
    }
  }

  /** An image without a pixel above the threshold makes no attempt. */
  lemma {:induction false} QuietColumnsCastNoVotes(d: Detection, n: nat)
    requires ValidDetection(d) && n <= d.width
    requires forall x, y :: 0 <= x < d.width && 0 <= y < d.height ==> !AboveThreshold(d.mag[x][y], d.threshold)
    ensures AllVotes(d, n) == []
  {
    if n > 0 {
      QuietColumnsCastNoVotes(d, n - 1);
      QuietPixelsCastNoVotes(d, n - 1, d.height);
    }
  }

  lemma {:induction false} ColumnCirclesOfNoVotes(d: Detection, x: int, n: nat)
    ensures forall c :: c in ColumnCircles(d, [], x, n) ==> c.votes == 0
  {
    if n > 0 {
      ColumnCirclesOfNoVotes(d, x, n - 1);
    }
  }

  lemma {:induction false} CirclesOfNoVotes(d: Detection, n: nat)
    ensures forall c :: c in AllCircles(d, [], n) ==> c.votes == 0
  {
    if n > 0 {
      CirclesOfNoVotes(d, n - 1);
      ColumnCirclesOfNoVotes(d, n - 1, d.height);
    }
  }

  /** Without any pixel above the threshold no vote is cast, and every reported circle has 0 votes. */
  lemma NoEdgesNoVotes(d: Detection)
    requires ValidDetection(d)
    requires forall x, y :: 0 <= x < d.width && 0 <= y < d.height ==> !AboveThreshold(d.mag[x][y], d.threshold)
    ensures AllVotes(d, d.width) == []
    ensures forall c :: c in AllCircles(d, AllVotes(d, d.width), d.width) ==> c.votes == 0
  {
    QuietColumnsCastNoVotes(d, d.width);
    CirclesOfNoVotes(d, d.width);
  }

  // ---------------------------------------------------------------------------
  // The shape of the report
  // ---------------------------------------------------------------------------

  /** A column reports Layers(d) circles per pixel. */
  lemma {:induction false} ColumnCirclesLength(d: Detection, votes: seq<Attempt>, x: int, n: nat)
    ensures |ColumnCircles(d, votes, x, n)| == n * Layers(d)
  {
    if n > 0 {
      ColumnCirclesLength(d, votes, x, n - 1);
      assert (n - 1) * Layers(d) + Layers(d) == n * Layers(d);
    }
  }

  /** The report holds width * height * (maxRadius - minRadius) circles, or none when the radius range is empty. */
  lemma {:induction false} ReportLength(d: Detection, votes: seq<Attempt>, n: nat)
    ensures |AllCircles(d, votes, n)| == n * (d.height * Layers(d))
  {
    if n > 0 {
      ReportLength(d, votes, n - 1);
      ColumnCirclesLength(d, votes, n - 1, d.height);
      assert (n - 1) * (d.height * Layers(d)) + d.height * Layers(d) == n * (d.height * Layers(d));
    }
  }

  /** An offset within block x of n blocks of the same size lies inside the n blocks. */
  lemma {:induction false} BlockBound(x: int, n: int, block: int, j: int)
    requires 0 <= x < n && 0 <= j < block
    ensures 0 <= x * block + j < n * block
    decreases n
  {
    if n == x + 1 {
      BlockStart(x, block);
      assert n * block == x * block + block;
    } else {
      BlockBound(x, n - 1, block, j);
      assert n * block == (n - 1) * block + block;
    }
  }

  /** Block x starts at a non-negative index. */
  lemma {:induction false} BlockStart(x: nat, block: nat)
    ensures 0 <= x * block
  {
    if x > 0 {
      BlockStart(x - 1, block);
      assert x * block == (x - 1) * block + block;
    }
  }

  /** The raster index splits into a column block and an offset within the column. */
  lemma RasterIndex(x: int, height: int, y: int, layers: int)
    ensures (x * height + y) * layers == x * (height * layers) + y * layers
  {
  }

  /** Within column x, pixel y's circle of radius rad sits at y * Layers(d) + (rad - minRadius), carrying its cell's tally. */
  lemma {:induction false} ColumnCircleAt(d: Detection, votes: seq<Attempt>, x: int, n: nat, y: int, rad: int)
    requires 0 <= y < n && d.minRadius <= rad < d.maxRadius
    ensures y * Layers(d) + (rad - d.minRadius) < |ColumnCircles(d, votes, x, n)|
    ensures ColumnCircles(d, votes, x, n)[y * Layers(d) + (rad - d.minRadius)] == Circle(x, y, rad, Tally(votes, Cell(x, y, rad)))
  {
    var layers, o := Layers(d), rad - d.minRadius;
    var front, last := ColumnCircles(d, votes, x, n - 1), RadiusCircles(votes, x, n - 1, d.minRadius, d.maxRadius);
    assert ColumnCircles(d, votes, x, n) == front + last;
    ColumnCirclesLength(d, votes, x, n - 1);
    assert |last| == layers && o < layers;
    if y < n - 1 {
      ColumnCircleAt(d, votes, x, n - 1, y, rad);
      BlockBound(y, n - 1, layers, o);
      assert (front + last)[y * layers + o] == front[y * layers + o];
    } else {
      assert |front| == y * layers;
      assert (front + last)[y * layers + o] == last[o];
    }
  }

  /**
   * The report is in raster order: the circle of pixel (x, y) and radius rad
   * is at index (x * height + y) * (maxRadius - minRadius) + (rad - minRadius)
   * and carries the number of votes its cell received.
   */
  lemma {:induction false} ReportAt(d: Detection, votes: seq<Attempt>, n: nat, x: int, y: int, rad: int)
    requires 0 <= x < n && 0 <= y < d.height && d.minRadius <= rad < d.maxRadius
    ensures (x * d.height + y) * Layers(d) + (rad - d.minRadius) < |AllCircles(d, votes, n)|
    ensures AllCircles(d, votes, n)[(x * d.height + y) * Layers(d) + (rad - d.minRadius)]
            == Circle(x, y, rad, Tally(votes, Cell(x, y, rad)))
  {
    var layers := Layers(d);
    var block := d.height * layers;
    var j := y * layers + (rad - d.minRadius);
    RasterIndex(x, d.height, y, layers);
    var front, column := AllCircles(d, votes, n - 1), ColumnCircles(d, votes, n - 1, d.height);
    assert AllCircles(d, votes, n) == front + column;
    ReportLength(d, votes, n - 1);
    ColumnCirclesLength(d, votes, n - 1, d.height);
    BlockBound(y, d.height, layers, rad - d.minRadius);
    assert |column| == block && j < block;
    if x < n - 1 {
      ReportAt(d, votes, n - 1, x, y, rad);
      BlockBound(x, n - 1, block, j);
      assert (front + column)[x * block + j] == front[x * block + j];
    } else {
      ColumnCircleAt(d, votes, x, d.height, y, rad);
      assert x * block == |front|;
      assert (front + column)[x * block + j] == column[j];
    }
  }
}
