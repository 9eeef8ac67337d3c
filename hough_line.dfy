/**
 * A line candidate of the line Hough transform: an angle bin, a shifted offset
 * column and a vote count, with two endpoints clipped to the image edges, and
 * an ordering of candidates by vote count.
 *
 * The angle is kept as its bin t (the angle is t * PI / 180); the floating-point
 * formulas (the per-angle offset of a point, the free endpoint coordinates) are
 * given functions collected in a Trig value.
 */
module HoughLines {
  import opened Grids

  /** The number of angle bins over [0, PI). */
  const MaxTheta := 180

  /**
   * The trigonometric part of the transform, taken as given.
   * offset(x, y, t) is (int)((x - cx) * cos(t) + (y - cy) * sin(t)) for the image centre (cx, cy);
   * rowToX(t, rho, y) is the x at which the line of angle bin t and signed offset rho crosses row y;
   * columnToY(t, rho, x) is the y at which it crosses column x.
   */
  datatype Trig = Trig(offset: (int, int, int) -> int, rowToX: (int, int, int) -> int, columnToY: (int, int, int) -> int)

  // ---------------------------------------------------------------------------
  // The height of the offset axis
  // ---------------------------------------------------------------------------

  /**
   * Half the height of the offset axis, (int)(sqrt(2) * max(width, height)) / 2,
   * in exact arithmetic: 2 * houghHeight is the even number just below the
   * diagonal of a max(width, height) square, so every offset from the centre
   * fits in [-houghHeight, houghHeight].
   */
  function HoughHeight(width: nat, height: nat): (hh: nat)
    ensures (2 * hh) * (2 * hh) <= 2 * Max(width, height) * Max(width, height)
    ensures 2 * Max(width, height) * Max(width, height) < (2 * hh + 2) * (2 * hh + 2)
  {
    var m := Max(width, height);
    var s := FloorSqrt(2 * m * m);
    SquareMonotone(2 * (s / 2), s);
    SquareMonotone(s + 1, 2 * (s / 2) + 2);
    s / 2
  }

  // ---------------------------------------------------------------------------
  // The candidate
  // ---------------------------------------------------------------------------

  /** A candidate: angle bin, offset column, vote count, and the segment (x1, y1)-(x2, y2) it is drawn as. */
  datatype HoughLine = HoughLine(theta: int, r: int, score: int, x1: int, y1: int, x2: int, y2: int)

  /**
   * Whether the angle of bin t lies below PI/4 or above 3*PI/4. In double
   * arithmetic t * (PI / 180) < PI * 0.25 holds exactly for t < 45, and
   * t * (PI / 180) > PI * 0.75 exactly for t > 135.
   */
  predicate NearVertical(t: int)
  {
    t < 45 || t > 135
  }

  /**
   * Builds the candidate of cell (theta, r) with the given score. Near-vertical
   * lines are pinned to the top and bottom rows, the others to the left and
   * right columns; the free coordinates come from the signed offset
   * r - houghHeight, with houghHeight recomputed from the image size.
   */
  function NewHoughLine(theta: int, r: int, width: nat, height: nat, score: int, trig: Trig): (l: HoughLine)
    ensures l.theta == theta && l.r == r && l.score == score
    ensures NearVertical(theta) ==> l.y1 == 0 && l.y2 == height - 1
    ensures NearVertical(theta) ==> l.x1 == trig.rowToX(theta, r - HoughHeight(width, height), 0)
    ensures NearVertical(theta) ==> l.x2 == trig.rowToX(theta, r - HoughHeight(width, height), height - 1)
    ensures !NearVertical(theta) ==> l.x1 == 0 && l.x2 == width - 1
    ensures !NearVertical(theta) ==> l.y1 == trig.columnToY(theta, r - HoughHeight(width, height), 0)
    ensures !NearVertical(theta) ==> l.y2 == trig.columnToY(theta, r - HoughHeight(width, height), width - 1)
  {
    var rho := r - HoughHeight(width, height);
    if NearVertical(theta) then
      HoughLine(theta, r, score, trig.rowToX(theta, rho, 0), 0, trig.rowToX(theta, rho, height - 1), height - 1)
    else
      HoughLine(theta, r, score, 0, trig.columnToY(theta, rho, 0), width - 1, trig.columnToY(theta, rho, width - 1))
  }

  // ---------------------------------------------------------------------------
  // Ordering by score
  // ---------------------------------------------------------------------------

  const Int32Max := 0x7fff_ffff
  const Int32Min := -0x8000_0000

  /** Java's 32-bit int arithmetic: the value congruent to v modulo 2^32 in [-2^31, 2^31). */
  function WrapInt32(v: int): (w: int)
    ensures Int32Min <= w <= Int32Max
    ensures (w - v) % 0x1_0000_0000 == 0
    ensures Int32Min <= v <= Int32Max ==> w == v
  {
    (v - Int32Min) % 0x1_0000_0000 + Int32Min
  }

  /**
   * compareTo: this.score - o.score, computed in 32-bit int arithmetic. The
   * result is a Java int that differs from the true difference by a multiple
   * of 2^32.
   */
  function CompareTo(a: HoughLine, b: HoughLine): (c: int)
    ensures Int32Min <= c <= Int32Max
    ensures (c - (a.score - b.score)) % 0x1_0000_0000 == 0
  {
    WrapInt32(a.score - b.score)
  }

  /** A score a Java int can hold that is not negative, such as a vote count. */
  predicate IsCount(s: int)
  {
    0 <= s <= Int32Max
  }

  /**
   * For vote-count scores the subtraction cannot overflow: compareTo is
   * negative, zero or positive exactly when the first score is less than,
   * equal to or greater than the second.
   */
  lemma CompareToFollowsScore(a: HoughLine, b: HoughLine)
    requires IsCount(a.score) && IsCount(b.score)
    ensures CompareTo(a, b) == a.score - b.score
    ensures CompareTo(a, b) < 0 <==> a.score < b.score
    ensures CompareTo(a, b) == 0 <==> a.score == b.score
    ensures CompareTo(a, b) > 0 <==> a.score > b.score
  {
  }

  /** For vote-count scores compareTo is antisymmetric and transitive: a total preorder by score. */
  lemma CompareToIsTotalPreorder(a: HoughLine, b: HoughLine, c: HoughLine)
    requires IsCount(a.score) && IsCount(b.score) && IsCount(c.score)
    ensures CompareTo(a, b) < 0 <==> CompareTo(b, a) > 0
    ensures CompareTo(a, b) == 0 <==> CompareTo(b, a) == 0
    ensures CompareTo(a, b) <= 0 && CompareTo(b, c) <= 0 ==> CompareTo(a, c) <= 0
    ensures CompareTo(a, b) <= 0 || CompareTo(b, a) <= 0
  {
    CompareToFollowsScore(a, b);
    CompareToFollowsScore(b, a);
    CompareToFollowsScore(b, c);
    CompareToFollowsScore(a, c);
  }

  /** Without the vote-count bound the subtraction wraps: a larger score can compare as smaller. */
  lemma CompareToWrapsOnNegativeScores(a: HoughLine, b: HoughLine)
    requires a.score == Int32Max && b.score == -1
    ensures a.score > b.score && CompareTo(a, b) < 0
  {
  }
}
