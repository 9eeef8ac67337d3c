/**
 * The line Hough transform: a MaxTheta x doubleHeight vote accumulator indexed
 * by (angle bin, shifted offset), filled one point at a time, and the
 * extraction of its local peaks as line candidates sorted by vote count.
 *
 * A point (x, y) votes in angle row t for column offset(x, y, t) + houghHeight,
 * where offset is the given rounding of (x - cx) * cos(t) + (y - cy) * sin(t).
 */
module HoughTransforms {
  import opened Grids
  import opened HoughLines

  /** Half-width of the square window of the local-maximum test. */
  const NeighbourhoodSize := 4

  /** A point that was added: (x, y). */
  type Point = (int, int)

  // ---------------------------------------------------------------------------
  // The accumulator as a function of the points added so far
  // ---------------------------------------------------------------------------

  /** 1 when point p votes for column r of angle row t, else 0. */
  function Vote(offset: (int, int, int) -> int, hh: int, p: Point, t: int, r: int): nat
  {
    if offset(p.0, p.1, t) + hh == r then 1 else 0
  }

  /** The number of points of ps that vote for cell (t, r). */
  function Votes(offset: (int, int, int) -> int, hh: int, ps: seq<Point>, t: int, r: int): nat
  {
    if ps == [] then 0
    else Votes(offset, hh, ps[..|ps| - 1], t, r) + Vote(offset, hh, ps[|ps| - 1], t, r)
  }

  /** Adding one more point adds that point's vote. */
  lemma VotesSnoc(offset: (int, int, int) -> int, hh: int, ps: seq<Point>, p: Point, t: int, r: int)
    ensures Votes(offset, hh, ps + [p], t, r) == Votes(offset, hh, ps, t, r) + Vote(offset, hh, p, t, r)
  {
    assert (ps + [p])[..|ps|] == ps;
  }

  /** The votes of two runs of points add up. */
  lemma {:induction false} VotesAppend(offset: (int, int, int) -> int, hh: int, a: seq<Point>, b: seq<Point>, t: int, r: int)
    ensures Votes(offset, hh, a + b, t, r) == Votes(offset, hh, a, t, r) + Votes(offset, hh, b, t, r)
    decreases |b|
  {
    if b == [] {
      assert a + b == a;
    } else {
      var b' := b[..|b| - 1];
      assert a + b == (a + b') + [b[|b| - 1]];
      assert b == b' + [b[|b| - 1]];
      VotesSnoc(offset, hh, a + b', b[|b| - 1], t, r);
      VotesSnoc(offset, hh, b', b[|b| - 1], t, r);
      VotesAppend(offset, hh, a, b', t, r);
    }
  }

  /**
   * The accumulator does not depend on the order in which points are added:
   * any two runs with the same points, counted with multiplicity, give the
   * same count in every cell.
   */
  lemma {:induction false} VotesIgnoreOrder(offset: (int, int, int) -> int, hh: int, a: seq<Point>, b: seq<Point>, t: int, r: int)
    requires multiset(a) == multiset(b)
    ensures Votes(offset, hh, a, t, r) == Votes(offset, hh, b, t, r)
    decreases |a|
  {
    if a != [] {
      var p := a[|a| - 1];
      var a' := a[..|a| - 1];
      assert a == a' + [p];
      assert p in multiset(b);
      var i :| 0 <= i < |b| && b[i] == p;
      var b' := b[..i] + b[i + 1..];
      assert b == b[..i] + [p] + b[i + 1..];
      assert multiset(a') == multiset(a) - multiset{p};
      assert multiset(b) == multiset(b[..i]) + multiset{p} + multiset(b[i + 1..]);
      assert multiset(b') == multiset(b[..i]) + multiset(b[i + 1..]);
      assert multiset(b') == multiset(b) - multiset{p};
      VotesIgnoreOrder(offset, hh, a', b', t, r);
      VotesSnoc(offset, hh, a', p, t, r);
      VotesAppend(offset, hh, b[..i] + [p], b[i + 1..], t, r);
      VotesSnoc(offset, hh, b[..i], p, t, r);
      VotesAppend(offset, hh, b[..i], b[i + 1..], t, r);
    }
  }

  /** The total of angle row t over columns [0, n). */
  function RowTotal(offset: (int, int, int) -> int, hh: int, ps: seq<Point>, t: int, n: nat): nat
  {
    if n == 0 then 0 else RowTotal(offset, hh, ps, t, n - 1) + Votes(offset, hh, ps, t, n - 1)
  }

  /** One more point raises a row's total by 1 if its column lies in [0, n), and leaves it alone otherwise. */
  lemma {:induction false} RowTotalSnoc(offset: (int, int, int) -> int, hh: int, ps: seq<Point>, p: Point, t: int, n: nat)
    ensures RowTotal(offset, hh, ps + [p], t, n)
         == RowTotal(offset, hh, ps, t, n) + (if 0 <= offset(p.0, p.1, t) + hh < n then 1 else 0)
  {
    if n > 0 {
      RowTotalSnoc(offset, hh, ps, p, t, n - 1);
      VotesSnoc(offset, hh, ps, p, t, n - 1);
    }
  }

  /** No angle row ever holds more votes than there are points: each point votes at most once per row. */
  lemma {:induction false} RowTotalAtMostPoints(offset: (int, int, int) -> int, hh: int, ps: seq<Point>, t: int, n: nat)
    ensures RowTotal(offset, hh, ps, t, n) <= |ps|
    decreases |ps|
  {
    if ps == [] {
      RowTotalOfNoPoints(offset, hh, t, n);
    } else {
      var ps' := ps[..|ps| - 1];
      assert ps == ps' + [ps[|ps| - 1]];
      RowTotalSnoc(offset, hh, ps', ps[|ps| - 1], t, n);
      RowTotalAtMostPoints(offset, hh, ps', t, n);
    }
  }

  /** Before any point is added every row total is 0. */
  lemma {:induction false} RowTotalOfNoPoints(offset: (int, int, int) -> int, hh: int, t: int, n: nat)
    ensures RowTotal(offset, hh, [], t, n) == 0
  {
    if n > 0 {
      RowTotalOfNoPoints(offset, hh, t, n - 1);
    }
  }

  /** The total of the first m angle rows over columns [0, n). */
  function GridTotal(offset: (int, int, int) -> int, hh: int, ps: seq<Point>, m: nat, n: nat): nat
  {
    if m == 0 then 0 else GridTotal(offset, hh, ps, m - 1, n) + RowTotal(offset, hh, ps, m - 1, n)
  }

  /** One more point never lowers the total and raises it by at most one vote per angle row. */
  lemma {:induction false} GridTotalSnoc(offset: (int, int, int) -> int, hh: int, ps: seq<Point>, p: Point, m: nat, n: nat)
    ensures GridTotal(offset, hh, ps, m, n) <= GridTotal(offset, hh, ps + [p], m, n) <= GridTotal(offset, hh, ps, m, n) + m
  {
    if m > 0 {
      GridTotalSnoc(offset, hh, ps, p, m - 1, n);
      RowTotalSnoc(offset, hh, ps, p, m - 1, n);
    }
  }

  // ---------------------------------------------------------------------------
  // Points of an image
  // ---------------------------------------------------------------------------

  /**
   * A packed ARGB pixel counts as an edge when its low byte (pixel & 0xff) is
   * not zero: the low byte of its 32-bit two's-complement pattern, whose
   * unsigned value is argb modulo 2^32.
   */
  function IsEdgePixel(argb: int): (edge: bool)
    ensures edge <==> (argb % 0x1_0000_0000) % 256 != 0
  {
    argb % 256 != 0
  }

  /** A pixel packed from its alpha, red, green and blue channels into a Java int is an edge exactly when its blue channel is not zero. */
  lemma {:induction false} EdgeIsBlueChannel(alpha: int, red: int, green: int, blue: int)
    requires 0 <= alpha < 256 && 0 <= red < 256 && 0 <= green < 256 && 0 <= blue < 256
    ensures IsEdgePixel(WrapInt32(((alpha * 256 + red) * 256 + green) * 256 + blue)) <==> blue != 0
  {
    var c := (alpha * 256 + red) * 256 + green;
    var v := c * 256 + blue;
    var w := WrapInt32(v);
    var q := (w - v) / 0x1_0000_0000;
    assert w == v + q * 0x1_0000_0000;
    assert q * 0x1_0000_0000 == (q * 0x100_0000) * 256;
    LowByte(c + q * 0x100_0000, blue);
  }

  /** The low byte of m * 256 + b, for a byte b, is b. */
  lemma LowByte(m: int, b: int)
    requires 0 <= b < 256
    ensures (m * 256 + b) % 256 == b
  {
  }

  /** The edge pixels (x, y) with y < n in column x, in increasing y. */
  function ColumnEdges(image: seq<seq<int>>, x: nat, n: nat): seq<Point>
    requires x < |image| && n <= |image[x]|
  {
    if n == 0 then []
    else ColumnEdges(image, x, n - 1) + (if IsEdgePixel(image[x][n - 1]) then [(x, n - 1)] else [])
  }

  /** The edge pixels of the first m columns, column by column. */
  function EdgePoints(image: seq<seq<int>>, m: nat): seq<Point>
    requires m <= |image|
  {
    if m == 0 then [] else EdgePoints(image, m - 1) + ColumnEdges(image, m - 1, |image[m - 1]|)
  }

  /** (x, y) comes before (x', y') in the x-major, then y, scan. */
  predicate ScanBefore(p: Point, q: Point)
  {
    p.0 < q.0 || (p.0 == q.0 && p.1 < q.1)
  }

  lemma {:induction false} ColumnEdgesExactly(image: seq<seq<int>>, x: nat, n: nat)
    requires x < |image| && n <= |image[x]|
    ensures forall p :: p in ColumnEdges(image, x, n) <==> p.0 == x && 0 <= p.1 < n && IsEdgePixel(image[x][p.1])
    ensures forall i, j :: 0 <= i < j < |ColumnEdges(image, x, n)| ==> ScanBefore(ColumnEdges(image, x, n)[i], ColumnEdges(image, x, n)[j])
  {
    if n > 0 {
      ColumnEdgesExactly(image, x, n - 1);
    }
  }

  /**
   * The points added for an image are exactly its edge pixels, each once, in
   * scan order: x-major, then y.
   */
  lemma {:induction false} EdgePointsExactly(image: seq<seq<int>>, m: nat)
    requires m <= |image|
    ensures forall p :: p in EdgePoints(image, m) <==>
      0 <= p.0 < m && 0 <= p.1 < |image[p.0]| && IsEdgePixel(image[p.0][p.1])
    ensures forall i, j :: 0 <= i < j < |EdgePoints(image, m)| ==> ScanBefore(EdgePoints(image, m)[i], EdgePoints(image, m)[j])
  {
    if m > 0 {
      EdgePointsExactly(image, m - 1);
      var prev, col := EdgePoints(image, m - 1), ColumnEdges(image, m - 1, |image[m - 1]|);
      ColumnEdgesExactly(image, m - 1, |image[m - 1]|);
      var all := prev + col;
      forall i, j | 0 <= i < j < |all| ensures ScanBefore(all[i], all[j]) {
        if j < |prev| {
        } else if i >= |prev| {
          assert all[i] == col[i - |prev|] && all[j] == col[j - |prev|];
        } else {
          assert all[i] in prev && all[j] in col;
        }
      }
    }
  }

  // ---------------------------------------------------------------------------
  // Peak extraction
  // ---------------------------------------------------------------------------

  /** Angle bin t folded once into [0, MaxTheta): the angle axis is cyclic. */
  function WrapTheta(t: int): (w: int)
    requires -MaxTheta <= t < 2 * MaxTheta
    ensures 0 <= w < MaxTheta
    ensures (w - t) % MaxTheta == 0
  {
    if t < 0 then t + MaxTheta else if t >= MaxTheta then t - MaxTheta else t
  }

  /**
   * Cell (t, r) is a peak: r keeps its whole window on the offset axis, the
   * count exceeds the threshold, and no cell of the 9x9 window around it
   * (angle wrapped, offset not) is strictly larger.
   */
  predicate IsPeak(a: array2<int>, threshold: int, t: int, r: int)
    reads a
    requires a.Length0 == MaxTheta && 0 <= t < MaxTheta
  {
    NeighbourhoodSize <= r < a.Length1 - NeighbourhoodSize && a[t, r] > threshold &&
    forall dx, dy :: -NeighbourhoodSize <= dx <= NeighbourhoodSize && -NeighbourhoodSize <= dy <= NeighbourhoodSize ==>
      Neighbour(a, t, r, dx, dy) <= a[t, r]
  }

  /** The cell at angle offset dx (wrapped) and column offset dy from (t, r). */
  function Neighbour(a: array2<int>, t: int, r: int, dx: int, dy: int): int
    reads a
    requires a.Length0 == MaxTheta && 0 <= t < MaxTheta
    requires -NeighbourhoodSize <= dx <= NeighbourhoodSize && 0 <= r + dy < a.Length1
  {
    a[WrapTheta(t + dx), r + dy]
  }

  /** What a candidate must be: a peak of the accumulator, carrying that cell's count. */
  ghost predicate IsCandidateOf(a: array2<int>, threshold: int, l: HoughLine)
    reads a
    requires a.Length0 == MaxTheta
  {
    0 <= l.theta < MaxTheta && IsPeak(a, threshold, l.theta, l.r) && l.score == a[l.theta, l.r]
  }

  /** The candidates of angle row t with column below rEnd, in increasing column. */
  function RowCandidates(a: array2<int>, threshold: int, t: int, rEnd: int, width: nat, height: nat, trig: Trig): seq<HoughLine>
    reads a
    requires a.Length0 == MaxTheta && 0 <= t < MaxTheta
    decreases rEnd
  {
    if rEnd <= NeighbourhoodSize then []
    else
      RowCandidates(a, threshold, t, rEnd - 1, width, height, trig) +
      (if IsPeak(a, threshold, t, rEnd - 1) then [NewHoughLine(t, rEnd - 1, width, height, a[t, rEnd - 1], trig)] else [])
  }

  /** The candidates of the first tEnd angle rows, in scan order. */
  function Candidates(a: array2<int>, threshold: int, tEnd: int, width: nat, height: nat, trig: Trig): seq<HoughLine>
    reads a
    requires a.Length0 == MaxTheta && tEnd <= MaxTheta
    decreases tEnd
  {
    if tEnd <= 0 then []
    else
      Candidates(a, threshold, tEnd - 1, width, height, trig) +
      RowCandidates(a, threshold, tEnd - 1, a.Length1 - NeighbourhoodSize, width, height, trig)
  }

  lemma {:induction false} RowCandidatesSound(a: array2<int>, threshold: int, t: int, rEnd: int, width: nat, height: nat, trig: Trig)
    requires a.Length0 == MaxTheta && 0 <= t < MaxTheta
    ensures forall l :: l in RowCandidates(a, threshold, t, rEnd, width, height, trig) ==>
      IsCandidateOf(a, threshold, l) && l.theta == t && l.r < rEnd
    decreases rEnd
  {
    if rEnd > NeighbourhoodSize {
      RowCandidatesSound(a, threshold, t, rEnd - 1, width, height, trig);
    }
  }

  /** Every candidate is a peak of the accumulator and carries that cell's count. */
  lemma {:induction false} CandidatesSound(a: array2<int>, threshold: int, tEnd: int, width: nat, height: nat, trig: Trig)
    requires a.Length0 == MaxTheta && tEnd <= MaxTheta
    ensures forall l :: l in Candidates(a, threshold, tEnd, width, height, trig) ==> IsCandidateOf(a, threshold, l) && l.theta < tEnd
    decreases tEnd
  {
    if tEnd > 0 {
      CandidatesSound(a, threshold, tEnd - 1, width, height, trig);
      RowCandidatesSound(a, threshold, tEnd - 1, a.Length1 - NeighbourhoodSize, width, height, trig);
    }
  }

  lemma {:induction false} RowCandidatesComplete(a: array2<int>, threshold: int, t: int, rEnd: int, width: nat, height: nat, trig: Trig, r: int)
    requires a.Length0 == MaxTheta && 0 <= t < MaxTheta
    requires r < rEnd && IsPeak(a, threshold, t, r)
    ensures exists l :: l in RowCandidates(a, threshold, t, rEnd, width, height, trig) && l.r == r
    decreases rEnd
  {
    var c := RowCandidates(a, threshold, t, rEnd, width, height, trig);
    if r == rEnd - 1 {
      assert NewHoughLine(t, r, width, height, a[t, r], trig) in c;
    } else {
      RowCandidatesComplete(a, threshold, t, rEnd - 1, width, height, trig, r);
      var l :| l in RowCandidates(a, threshold, t, rEnd - 1, width, height, trig) && l.r == r;
      assert l in c;
    }
  }

  lemma {:induction false} CandidatesComplete(a: array2<int>, threshold: int, tEnd: int, width: nat, height: nat, trig: Trig, t: int, r: int)
    requires a.Length0 == MaxTheta && tEnd <= MaxTheta
    requires 0 <= t < tEnd && IsPeak(a, threshold, t, r)
    ensures exists l :: l in Candidates(a, threshold, tEnd, width, height, trig) && l.theta == t && l.r == r
    decreases tEnd
  {
    var c := Candidates(a, threshold, tEnd, width, height, trig);
    if t == tEnd - 1 {
      RowCandidatesComplete(a, threshold, t, a.Length1 - NeighbourhoodSize, width, height, trig, r);
      RowCandidatesSound(a, threshold, t, a.Length1 - NeighbourhoodSize, width, height, trig);
      var l :| l in RowCandidates(a, threshold, t, a.Length1 - NeighbourhoodSize, width, height, trig) && l.r == r;
      assert l in c;
    } else {
      CandidatesComplete(a, threshold, tEnd - 1, width, height, trig, t, r);
      var l :| l in Candidates(a, threshold, tEnd - 1, width, height, trig) && l.theta == t && l.r == r;
      assert l in c;
    }
  }

  /**
   * Cell (t, r) yields a candidate exactly when it is a peak: r in
   * [4, doubleHeight - 4), count above the threshold, and nothing strictly
   * larger in its 9x9 window with the angle wrapped modulo 180.
   */
  lemma CandidatesAreExactlyPeaks(a: array2<int>, threshold: int, width: nat, height: nat, trig: Trig, t: int, r: int)
    requires a.Length0 == MaxTheta && 0 <= t < MaxTheta
    ensures (exists l :: l in Candidates(a, threshold, MaxTheta, width, height, trig) && l.theta == t && l.r == r)
        <==> IsPeak(a, threshold, t, r)
  {
    CandidatesSound(a, threshold, MaxTheta, width, height, trig);
    if IsPeak(a, threshold, t, r) {
      CandidatesComplete(a, threshold, MaxTheta, width, height, trig, t, r);
    }
  }

  /** Offsets strictly increase along s. */
  predicate OffsetsIncrease(s: seq<HoughLine>)
  {
    forall i, j :: 0 <= i < j < |s| ==> s[i].r < s[j].r
  }

  /** Cells strictly increase along s: by angle, then by offset within an angle. */
  predicate InScanOrder(s: seq<HoughLine>)
  {
    forall i, j :: 0 <= i < j < |s| ==> s[i].theta < s[j].theta || (s[i].theta == s[j].theta && s[i].r < s[j].r)
  }

  /** The candidates of one angle row come out in strictly increasing offset. */
  lemma {:induction false} RowCandidatesOrdered(a: array2<int>, threshold: int, t: int, rEnd: int, width: nat, height: nat, trig: Trig)
    requires a.Length0 == MaxTheta && 0 <= t < MaxTheta
    ensures OffsetsIncrease(RowCandidates(a, threshold, t, rEnd, width, height, trig))
    decreases rEnd
  {
    if rEnd > NeighbourhoodSize {
      var c0 := RowCandidates(a, threshold, t, rEnd - 1, width, height, trig);
      var c := RowCandidates(a, threshold, t, rEnd, width, height, trig);
      RowCandidatesOrdered(a, threshold, t, rEnd - 1, width, height, trig);
      RowCandidatesSound(a, threshold, t, rEnd - 1, width, height, trig);
      forall i, j | 0 <= i < j < |c|
        ensures c[i].r < c[j].r
      {
        assert c[i] == c0[i];
        if j < |c0| {
          assert c[j] == c0[j];
        } else {
          assert c0[i] in c0;
          assert c == c0 + [NewHoughLine(t, rEnd - 1, width, height, a[t, rEnd - 1], trig)];
          assert c[j].r == rEnd - 1;
        }
      }
    }
  }

  /**
   * The candidates come out in scan order: strictly increasing by angle, and
   * by offset within an angle. So no cell is ever emitted twice, and with
   * CandidatesAreExactlyPeaks every peak yields exactly one line.
   */
  lemma {:induction false} CandidatesOrdered(a: array2<int>, threshold: int, tEnd: int, width: nat, height: nat, trig: Trig)
    requires a.Length0 == MaxTheta && tEnd <= MaxTheta
    ensures InScanOrder(Candidates(a, threshold, tEnd, width, height, trig))
    decreases tEnd
  {
    if tEnd > 0 {
      var c0 := Candidates(a, threshold, tEnd - 1, width, height, trig);
      var row := RowCandidates(a, threshold, tEnd - 1, a.Length1 - NeighbourhoodSize, width, height, trig);
      var c := Candidates(a, threshold, tEnd, width, height, trig);
      assert c == c0 + row;
      CandidatesOrdered(a, threshold, tEnd - 1, width, height, trig);
      CandidatesSound(a, threshold, tEnd - 1, width, height, trig);
      RowCandidatesOrdered(a, threshold, tEnd - 1, a.Length1 - NeighbourhoodSize, width, height, trig);
      RowCandidatesSound(a, threshold, tEnd - 1, a.Length1 - NeighbourhoodSize, width, height, trig);
      forall i, j | 0 <= i < j < |c|
        ensures c[i].theta < c[j].theta || (c[i].theta == c[j].theta && c[i].r < c[j].r)
      {
        if j < |c0| {
          assert c[i] == c0[i] && c[j] == c0[j];
        } else if i < |c0| {
          assert c[i] == c0[i] && c0[i] in c0;
          assert c[j] == row[j - |c0|] && row[j - |c0|] in row;
        } else {
          assert c[i] == row[i - |c0|] && c[j] == row[j - |c0|];
        }
      }
    }
  }

  // ---------------------------------------------------------------------------
  // Sorting and resizing
  // ---------------------------------------------------------------------------

  /** Scores never increase along s. */
  predicate NonIncreasing(s: seq<HoughLine>)
  {
    forall i, j :: 0 <= i < j < |s| ==> s[i].score >= s[j].score
  }

  /** Inserts l before the first entry that does not outscore it. */
  function Insert(l: HoughLine, s: seq<HoughLine>): (r: seq<HoughLine>)
    ensures |r| == |s| + 1 && (r[0] == l || (s != [] && r[0] == s[0]))
  {
    if s == [] || s[0].score <= l.score then [l] + s else [s[0]] + Insert(l, s[1..])
  }

  /** Insertion adds l and loses nothing. */
  lemma {:induction false} InsertPermutes(l: HoughLine, s: seq<HoughLine>)
    ensures multiset(Insert(l, s)) == multiset(s) + multiset{l}
  {
    if s != [] && s[0].score > l.score {
      InsertPermutes(l, s[1..]);
      assert s == [s[0]] + s[1..];
    }
  }

  /** A head that scores at least as much as the next entry keeps a non-increasing sequence non-increasing. */
  lemma ConsNonIncreasing(h: HoughLine, s: seq<HoughLine>)
    requires NonIncreasing(s) && (s != [] ==> s[0].score <= h.score)
    ensures NonIncreasing([h] + s)
  {
    assert forall k :: 0 <= k < |s| ==> s[k].score <= h.score by {
      forall k | 0 <= k < |s|
        ensures s[k].score <= h.score
      {
        if 0 < k {
          assert s[0].score >= s[k].score;
        }
      }
    }
  }

  /** Insertion into a sequence sorted by descending score keeps it sorted. */
  lemma {:induction false} InsertSorted(l: HoughLine, s: seq<HoughLine>)
    requires NonIncreasing(s)
    ensures NonIncreasing(Insert(l, s))
  {
    if s == [] || s[0].score <= l.score {
      ConsNonIncreasing(l, s);
    } else {
      var rest := s[1..];
      assert NonIncreasing(rest) by {
        forall i, j | 0 <= i < j < |rest|
          ensures rest[i].score >= rest[j].score
        {
          assert rest[i] == s[i + 1] && rest[j] == s[j + 1];
        }
      }
      InsertSorted(l, rest);
      ConsNonIncreasing(s[0], Insert(l, rest));
    }
  }

  /** The candidates sorted by descending score, as Collections.sort with the reversed natural order leaves them. */
  function SortByScore(s: seq<HoughLine>): (r: seq<HoughLine>)
    ensures multiset(r) == multiset(s)
    ensures NonIncreasing(r)
  {
    if s == [] then []
    else
      var rest := SortByScore(s[1..]);
      InsertPermutes(s[0], rest);
      InsertSorted(s[0], rest);
      assert s == [s[0]] + s[1..];
      Insert(s[0], rest)
  }

  /** The null that Vector.setSize pads with, n times. */
  function Nulls(n: nat): (r: seq<Option<HoughLine>>)
    ensures |r| == n && forall i :: 0 <= i < n ==> r[i] == None
  {
    if n == 0 then [] else Nulls(n - 1) + [None]
  }

  /** Every entry, present. */
  function Present(s: seq<HoughLine>): (r: seq<Option<HoughLine>>)
    ensures |r| == |s| && forall i :: 0 <= i < |s| ==> r[i] == Some(s[i])
  {
    if s == [] then [] else Present(s[..|s| - 1]) + [Some(s[|s| - 1])]
  }

  /**
   * Vector.setSize(n): drop the entries from index n on, or pad with nulls
   * up to n. The result has exactly n entries: the first min(n, |s|) of s,
   * then nulls.
   */
  function SetSize(s: seq<HoughLine>, n: nat): (r: seq<Option<HoughLine>>)
    ensures |r| == n
    ensures forall i :: 0 <= i < n && i < |s| ==> r[i] == Some(s[i])
    ensures forall i :: |s| <= i < n ==> r[i] == None
  {
    if n <= |s| then Present(s[..n]) else Present(s) + Nulls(n - |s|)
  }

  // ---------------------------------------------------------------------------
  // The transform object
  // ---------------------------------------------------------------------------

  class HoughTransform {
    var width: nat
    var height: nat
    /** The trigonometry that the sine/cosine caches and the image centre provide. */
    var trig: Trig
    var houghHeight: nat
    var doubleHeight: nat
    /** The accumulator, houghArray[t, r]. */
    var houghArray: array2<int>
    var numPoints: nat
    /** The points added since the last initialise, in order. */
    ghost var points: seq<Point>

    /** The accumulator is MaxTheta x doubleHeight. */
    ghost predicate Shaped()
      reads this
    {
      houghArray.Length0 == MaxTheta && houghArray.Length1 == doubleHeight
    }

    /** The object invariant: the shape of the accumulator, and each cell counts the votes of the points added. */
    ghost predicate Valid()
      reads this, houghArray
    {
      houghHeight == HoughHeight(width, height) && doubleHeight == 2 * houghHeight && Shaped() &&
      numPoints == |points| &&
      forall t, r :: 0 <= t < MaxTheta && 0 <= r < doubleHeight ==>
        houghArray[t, r] == Votes(trig.offset, houghHeight, points, t, r)
    }

    /** A transform for a width x height image, with no points yet. */
    constructor (width: nat, height: nat, trig: Trig)
      ensures Valid() && fresh(houghArray)
      ensures this.width == width && this.height == height && this.trig == trig
      ensures points == [] && numPoints == 0
    {
      houghArray := new int[0, 0];
      new;
      Initialise(width, height, trig);
    }

    /** A transform for an image, with every edge pixel of the image added. */
    constructor FromImage(image: seq<seq<int>>, height: nat, trig: Trig)
      requires IsGrid(image, |image|, height)
      ensures Valid() && fresh(houghArray)
      ensures this.width == |image| && this.height == height && this.trig == trig
      ensures points == EdgePoints(image, |image|)
    {
      houghArray := new int[0, 0];
      new;
      Initialise(|image|, height, trig);
      AddPoints(image);
    }

    /** (Re)starts the transform: a fresh all-zero MaxTheta x 2*houghHeight accumulator, and no points. */
    method Initialise(width: nat, height: nat, trig: Trig)
      modifies this
      ensures Valid() && fresh(houghArray)
      ensures this.width == width && this.height == height && this.trig == trig
      ensures houghHeight == HoughHeight(width, height) && doubleHeight == 2 * houghHeight
      ensures houghArray.Length0 == MaxTheta && houghArray.Length1 == doubleHeight
      ensures forall t, r :: 0 <= t < MaxTheta && 0 <= r < doubleHeight ==> houghArray[t, r] == 0
      ensures points == [] && numPoints == 0
    {
      this.width := width;
      this.height := height;
      this.trig := trig;
      houghHeight := HoughHeight(width, height);
      doubleHeight := 2 * houghHeight;
      houghArray := new int[MaxTheta, doubleHeight]((t, r) => 0);
      numPoints := 0;
      points := [];
    }

    /**
     * Adds one point: in each angle row t, the cell at column
     * offset(x, y, t) + houghHeight gains one vote when that column lies in
     * [0, doubleHeight); no other cell changes, and numPoints rises by one.
     */
    method AddPoint(x: int, y: int)
      requires Valid()
      modifies this`numPoints, this`points, houghArray
      ensures Valid()
      ensures points == old(points) + [(x, y)] && numPoints == old(numPoints) + 1
      ensures forall t, r :: 0 <= t < MaxTheta && 0 <= r < doubleHeight ==>
        houghArray[t, r] == old(houghArray[t, r]) + (if trig.offset(x, y, t) + houghHeight == r then 1 else 0)
    {
      for t := 0 to MaxTheta
        invariant points == old(points) && numPoints == old(numPoints)
        invariant forall t', r :: 0 <= t' < t && 0 <= r < doubleHeight ==>
          houghArray[t', r] == old(houghArray[t', r]) + Vote(trig.offset, houghHeight, (x, y), t', r)
        invariant forall t', r :: t <= t' < MaxTheta && 0 <= r < doubleHeight ==> houghArray[t', r] == old(houghArray[t', r])
      {
        var r := trig.offset(x, y, t);
        r := r + houghHeight;
        if r < 0 || r >= doubleHeight {
          continue;
        }
        houghArray[t, r] := houghArray[t, r] + 1;
      }
      numPoints := numPoints + 1;
      forall t, r | 0 <= t < MaxTheta && 0 <= r < doubleHeight
        ensures houghArray[t, r] == Votes(trig.offset, houghHeight, points + [(x, y)], t, r)
      {
        VotesSnoc(trig.offset, houghHeight, points, (x, y), t, r);
      }
      points := points + [(x, y)];
    }

    /** Adds every edge pixel of the image, x-major then y. */
    method AddPoints(image: seq<seq<int>>)
      requires Valid()
      modifies this`numPoints, this`points, houghArray
      ensures Valid()
      ensures points == old(points) + EdgePoints(image, |image|)
    {
      for x := 0 to |image|
        invariant Valid()
        invariant points == old(points) + EdgePoints(image, x)
      {
        for y := 0 to |image[x]|
          invariant Valid()
          invariant points == old(points) + EdgePoints(image, x) + ColumnEdges(image, x, y)
        {
          if IsEdgePixel(image[x][y]) {
            AddPoint(x, y);
          }
        }
      }
    }

    /** The result getLines(n, threshold) must have, given the accumulator. */
    ghost function Lines(n: int, threshold: int): seq<Option<HoughLine>>
      reads this, houghArray
      requires Valid() && (numPoints == 0 || n >= 0)
    {
      if numPoints == 0 then []
      else SetSize(SortByScore(Candidates(houghArray, threshold, MaxTheta, width, height, trig)), n)
    }

    /** Whether no cell of the 9x9 window around (t, r) outscores it, the angle wrapping around. */
    method IsLocalMaximum(t: int, r: int) returns (isMax: bool)
      requires Shaped() && 0 <= t < MaxTheta && NeighbourhoodSize <= r < doubleHeight - NeighbourhoodSize
      ensures isMax <==> forall dx, dy :: -NeighbourhoodSize <= dx <= NeighbourhoodSize && -NeighbourhoodSize <= dy <= NeighbourhoodSize ==>
        Neighbour(houghArray, t, r, dx, dy) <= houghArray[t, r]
    {
      var peak := houghArray[t, r];
      for dx := -NeighbourhoodSize to NeighbourhoodSize + 1
        invariant forall dx', dy :: -NeighbourhoodSize <= dx' < dx && -NeighbourhoodSize <= dy <= NeighbourhoodSize ==>
          Neighbour(houghArray, t, r, dx', dy) <= peak
      {
        for dy := -NeighbourhoodSize to NeighbourhoodSize + 1
          invariant forall dx', dy' :: -NeighbourhoodSize <= dx' < dx && -NeighbourhoodSize <= dy' <= NeighbourhoodSize ==>
            Neighbour(houghArray, t, r, dx', dy') <= peak
          invariant forall dy' :: -NeighbourhoodSize <= dy' < dy ==> Neighbour(houghArray, t, r, dx, dy') <= peak
        {
          var dt := t + dx;
          var dr := r + dy;
          if dt < 0 {
            dt := dt + MaxTheta;
          } else if dt >= MaxTheta {
            dt := dt - MaxTheta;
          }
          assert houghArray[dt, dr] == Neighbour(houghArray, t, r, dx, dy);
          if houghArray[dt, dr] > peak {
            return false;
          }
        }
      }
      return true;
    }

    /** The scan of getLines: every peak above the threshold, angle row by angle row, in increasing column. */
    method FindPeaks(threshold: int) returns (found: seq<HoughLine>)
      requires Shaped()
      ensures found == Candidates(houghArray, threshold, MaxTheta, width, height, trig)
    {
      found := [];
      for t := 0 to MaxTheta
        invariant found == Candidates(houghArray, threshold, t, width, height, trig)
      {
        var row := ScanRow(threshold, t);
        found := found + row;
      }
    }

    /** The scan of angle row t: every offset that is a peak above the threshold, in increasing offset order. */
    method ScanRow(threshold: int, t: int) returns (row: seq<HoughLine>)
      requires Shaped() && 0 <= t < MaxTheta
      ensures row == RowCandidates(houghArray, threshold, t, houghArray.Length1 - NeighbourhoodSize, width, height, trig)
    {
      row := [];
      var r := NeighbourhoodSize;
      while r < doubleHeight - NeighbourhoodSize
        invariant NeighbourhoodSize <= r <= Max(NeighbourhoodSize, doubleHeight - NeighbourhoodSize)
        invariant row == RowCandidates(houghArray, threshold, t, r, width, height, trig)
      {
        if houghArray[t, r] > threshold {
          var isMax := IsLocalMaximum(t, r);
          if isMax {
            row := row + [NewHoughLine(t, r, width, height, houghArray[t, r], trig)];
          }
        }
        r := r + 1;
      }
      assert RowCandidates(houghArray, threshold, t, r, width, height, trig)
          == RowCandidates(houghArray, threshold, t, doubleHeight - NeighbourhoodSize, width, height, trig);
    }

    /**
     * The n best lines: none at all when no point was added, otherwise the
     * peaks above the threshold sorted by descending score and cut or padded
     * with nulls to exactly n entries. The accumulator is left as it is.
     */
    method GetLinesAbove(n: int, threshold: int) returns (lines: seq<Option<HoughLine>>)
      requires Valid() && (numPoints == 0 || n >= 0)
      ensures lines == Lines(n, threshold)
    {
      if numPoints == 0 {
        return [];
      }
      var found := FindPeaks(threshold);
      lines := SetSize(SortByScore(found), n);
    }

    /** getLines(n): the same as getLines(n, 0). */
    method GetLines(n: int) returns (lines: seq<Option<HoughLine>>)
      requires Valid() && (numPoints == 0 || n >= 0)
      ensures lines == Lines(n, 0)
    {
      lines := GetLinesAbove(n, 0);
    }
  }

  /**
   * A candidate recomputes houghHeight from the image size with the formula
   * initialise uses, so its column less houghHeight is the signed offset of
   * every point that voted for its cell, and its free endpoint coordinates
   * are those of the line at that offset.
   */
  lemma CandidateRecoversOffset(ht: HoughTransform, t: int, r: int, score: int, p: Point)
    requires ht.Valid()
    requires Vote(ht.trig.offset, ht.houghHeight, p, t, r) == 1
    ensures var l, rho := NewHoughLine(t, r, ht.width, ht.height, score, ht.trig), ht.trig.offset(p.0, p.1, t);
      l.r - HoughHeight(ht.width, ht.height) == rho &&
      (NearVertical(t) ==> l.x1 == ht.trig.rowToX(t, rho, 0) && l.x2 == ht.trig.rowToX(t, rho, ht.height - 1)) &&
      (!NearVertical(t) ==> l.y1 == ht.trig.columnToY(t, rho, 0) && l.y2 == ht.trig.columnToY(t, rho, ht.width - 1))
  {
  }

  /** Cutting or padding a score-sorted sequence keeps the present entries first and in non-increasing score order. */
  lemma SetSizeKeepsOrder(s: seq<HoughLine>, n: nat)
    requires NonIncreasing(s)
    ensures forall i, j :: 0 <= i < j < n && SetSize(s, n)[j].Some? ==>
      SetSize(s, n)[i].Some? && SetSize(s, n)[i].value.score >= SetSize(s, n)[j].value.score
  {
  }

  /** Sorting and resizing keep every entry a peak, and drop none unless n cuts it off. */
  lemma SortedCandidatesAreCandidates(a: array2<int>, threshold: int, found: seq<HoughLine>, n: nat)
    requires a.Length0 == MaxTheta
    requires forall l :: l in found ==> IsCandidateOf(a, threshold, l)
    ensures forall i :: 0 <= i < n && SetSize(SortByScore(found), n)[i].Some? ==>
      IsCandidateOf(a, threshold, SetSize(SortByScore(found), n)[i].value)
    ensures n >= |found| ==> forall l :: l in found ==> Some(l) in SetSize(SortByScore(found), n)
  {
    var sorted := SortByScore(found);
    var lines := SetSize(sorted, n);
    forall i | 0 <= i < n && lines[i].Some? ensures IsCandidateOf(a, threshold, lines[i].value) {
      assert lines[i].value == sorted[i];
      assert sorted[i] in multiset(found);
    }
    if n >= |found| {
      forall l | l in found ensures Some(l) in lines {
        assert l in multiset(sorted);
        var i :| 0 <= i < |sorted| && sorted[i] == l;
        assert lines[i] == Some(l);
      }
    }
  }

  /** Cutting the score-sorted entries to n keeps the best: an entry that was dropped scores no more than any entry kept. */
  lemma TopNKept(found: seq<HoughLine>, n: nat)
    ensures var lines := SetSize(SortByScore(found), n);
      forall l, i :: l in found && Some(l) !in lines && 0 <= i < n && lines[i].Some? ==> l.score <= lines[i].value.score
  {
    var sorted := SortByScore(found);
    var lines := SetSize(sorted, n);
    forall l, i | l in found && Some(l) !in lines && 0 <= i < n && lines[i].Some?
      ensures l.score <= lines[i].value.score
    {
      assert l in multiset(found);
      assert l in multiset(sorted);
      var k :| 0 <= k < |sorted| && sorted[k] == l;
      assert i < k;
      assert lines[i].value == sorted[i];
    }
  }

  /** getLines(n) returns the n best candidates: every peak left out scores no more than any line returned. */
  lemma LinesAreTopN(ht: HoughTransform, n: int, threshold: int)
    requires ht.Valid() && n >= 0
    ensures var lines, found := ht.Lines(n, threshold), Candidates(ht.houghArray, threshold, MaxTheta, ht.width, ht.height, ht.trig);
      forall l, i :: l in found && Some(l) !in lines && 0 <= i < |lines| && lines[i].Some? ==> l.score <= lines[i].value.score
  {
    if ht.numPoints != 0 {
      var found := Candidates(ht.houghArray, threshold, MaxTheta, ht.width, ht.height, ht.trig);
      assert ht.Lines(n, threshold) == SetSize(SortByScore(found), n);
      TopNKept(found, n);
    }
  }

  /**
   * What getLines returns: nothing when no point was added; otherwise exactly
   * n entries, the present ones first in non-increasing score order, each a
   * peak of the accumulator carrying its cell's count, and every peak present
   * unless n cuts it off.
   */
  lemma LinesShape(ht: HoughTransform, n: int, threshold: int)
    requires ht.Valid() && (ht.numPoints == 0 || n >= 0)
    ensures ht.numPoints == 0 ==> ht.Lines(n, threshold) == []
    ensures ht.numPoints != 0 ==> |ht.Lines(n, threshold)| == n
    ensures var lines := ht.Lines(n, threshold);
      forall i, j :: 0 <= i < j < |lines| && lines[j].Some? ==> lines[i].Some? && lines[i].value.score >= lines[j].value.score
    ensures var lines := ht.Lines(n, threshold);
      forall i :: 0 <= i < |lines| && lines[i].Some? ==> IsCandidateOf(ht.houghArray, threshold, lines[i].value)
    ensures var lines := ht.Lines(n, threshold);
      ht.numPoints != 0 && n >= |Candidates(ht.houghArray, threshold, MaxTheta, ht.width, ht.height, ht.trig)| ==>
        forall l :: l in Candidates(ht.houghArray, threshold, MaxTheta, ht.width, ht.height, ht.trig) ==> Some(l) in lines
  {
    if ht.numPoints != 0 {
      var found := Candidates(ht.houghArray, threshold, MaxTheta, ht.width, ht.height, ht.trig);
      CandidatesSound(ht.houghArray, threshold, MaxTheta, ht.width, ht.height, ht.trig);
      SetSizeKeepsOrder(SortByScore(found), n);
      SortedCandidatesAreCandidates(ht.houghArray, threshold, found, n);
    }
  }
}
