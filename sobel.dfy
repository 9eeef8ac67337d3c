/**
 * The Sobel gradient stage: two fixed 3x3 kernels convolved with a grayscale
 * image, with the border handled by summing only the in-bounds neighbours, and
 * the per-pixel magnitude derived from the two directional responses.
 *
 * The image is a grid gray[x][y] of intensities. The magnitude
 * sqrt(gx^2 + gy^2) is stored squared, so that it stays an integer; a test
 * "magnitude > t" becomes AboveThreshold(gx^2 + gy^2, t).
 */
module SobelFilter {
  import opened Grids

  /** A 3x3 kernel indexed kernel[dy + 1][dx + 1]. */
  type Kernel = seq<seq<int>>

  predicate IsKernel(k: Kernel)
  {
    |k| == 3 && forall row :: 0 <= row < 3 ==> |k[row]| == 3
  }

  /** The kernel that responds to horizontal intensity change. */
  const KernelX: Kernel := [[-1, 0, 1], [-2, 0, 2], [-1, 0, 1]]

  /** The kernel that responds to vertical intensity change. */
  const KernelY: Kernel := [[1, 2, 1], [0, 0, 0], [-1, -2, -1]]

  // ---------------------------------------------------------------------------
  // The reference rule: every in-bounds neighbour contributes, nothing else does
  // ---------------------------------------------------------------------------

  /** The contribution of neighbour (x+i, y+j): its intensity times kernel[j+1][i+1], or 0 outside the image. */
  function ClampedTap(g: seq<seq<int>>, w: int, h: int, x: int, y: int, k: Kernel, i: int, j: int): int
    requires IsGrid(g, w, h) && IsKernel(k)
    requires -1 <= i <= 1 && -1 <= j <= 1
  {
    if 0 <= x + i < w && 0 <= y + j < h then g[x + i][y + j] * k[j + 1][i + 1] else 0
  }

  /** Column i of the reference rule: the three offsets j = -1, 0, 1. */
  function ClampedColumn(g: seq<seq<int>>, w: int, h: int, x: int, y: int, k: Kernel, i: int): int
    requires IsGrid(g, w, h) && IsKernel(k)
    requires -1 <= i <= 1
  {
    ClampedTap(g, w, h, x, y, k, i, -1) + ClampedTap(g, w, h, x, y, k, i, 0) + ClampedTap(g, w, h, x, y, k, i, 1)
  }

  /** The convolution at (x, y) under the clamped-window rule: the sum over the nine offsets of the in-bounds taps. */
  function Convolution(g: seq<seq<int>>, w: int, h: int, x: int, y: int, k: Kernel): int
    requires IsGrid(g, w, h) && IsKernel(k)
  {
    ClampedColumn(g, w, h, x, y, k, -1) + ClampedColumn(g, w, h, x, y, k, 0) + ClampedColumn(g, w, h, x, y, k, 1)
  }

  // ---------------------------------------------------------------------------
  // What the source does: pick one of nine windows, then sum over it
  // ---------------------------------------------------------------------------

  /** The offsets a branch loops over: i in [iLo, iHi], j in [jLo, jHi]. */
  datatype Window = Window(iLo: int, iHi: int, jLo: int, jHi: int)

  /**
   * The window chosen by the nine-way case split on the pixel position (four
   * corners, four edges, interior), tested in the source's order. Whatever the
   * image size, offset -1 is dropped exactly at index 0, and offset +1 exactly
   * at the last index when that index is not also 0.
   */
  function BranchWindow(w: int, h: int, x: int, y: int): (win: Window)
    ensures win.iLo == (if x == 0 then 0 else -1)
    ensures win.iHi == (if x != 0 && x == w - 1 then 0 else 1)
    ensures win.jLo == (if y == 0 then 0 else -1)
    ensures win.jHi == (if y != 0 && y == h - 1 then 0 else 1)
  {
    if x == 0 && y == 0 then Window(0, 1, 0, 1)
    else if x == 0 && y == h - 1 then Window(0, 1, -1, 0)
    else if x == 0 && y != 0 then Window(0, 1, -1, 1)
    else if x == w - 1 && y == 0 then Window(-1, 0, 0, 1)
    else if x != 0 && y == 0 then Window(-1, 1, 0, 1)
    else if x == w - 1 && y == h - 1 then Window(-1, 0, -1, 0)
    else if x == w - 1 && y != h - 1 then Window(-1, 0, -1, 1)
    else if x != w - 1 && y == h - 1 then Window(-1, 1, -1, 0)
    else Window(-1, 1, -1, 1)
  }

  /** Every pixel a window reads around (x, y) lies inside the image, and every weight it uses lies inside the kernel. */
  predicate Fits(w: int, h: int, x: int, y: int, win: Window)
  {
    -1 <= win.iLo && win.iHi <= 1 && -1 <= win.jLo && win.jHi <= 1 &&
    (win.iLo <= win.iHi ==> 0 <= x + win.iLo && x + win.iHi < w) &&
    (win.jLo <= win.jHi ==> 0 <= y + win.jLo && y + win.jHi < h)
  }

  /** The sum over j in [jLo, jHi] of intensity (x+i, y+j) times kernel[j+1][i+1], accumulated in loop order. */
  function ColumnSum(g: seq<seq<int>>, w: int, h: int, x: int, y: int, k: Kernel, i: int, jLo: int, jHi: int): int
    requires IsGrid(g, w, h) && IsKernel(k)
    requires -1 <= i <= 1 && 0 <= x + i < w
    requires Fits(w, h, x, y, Window(i, i, jLo, jHi))
    decreases jHi - jLo + 1
  {
    if jHi < jLo then 0
    else ColumnSum(g, w, h, x, y, k, i, jLo, jHi - 1) + g[x + i][y + jHi] * k[jHi + 1][i + 1]
  }

  /** The sum over the whole window, column by column in loop order. */
  function WindowSum(g: seq<seq<int>>, w: int, h: int, x: int, y: int, k: Kernel, win: Window): int
    requires IsGrid(g, w, h) && IsKernel(k)
    requires Fits(w, h, x, y, win)
    decreases win.iHi - win.iLo + 1
  {
    if win.iHi < win.iLo then 0
    else WindowSum(g, w, h, x, y, k, win.(iHi := win.iHi - 1))
         + ColumnSum(g, w, h, x, y, k, win.iHi, win.jLo, win.jHi)
  }

  /** Extending a prefix of a fitting window by column i adds that column's sum. */
  lemma WindowSumStep(g: seq<seq<int>>, w: int, h: int, x: int, y: int, k: Kernel, win: Window, i: int)
    requires IsGrid(g, w, h) && IsKernel(k)
    requires Fits(w, h, x, y, win) && win.iLo <= i <= win.iHi
    ensures Fits(w, h, x, y, win.(iHi := i - 1)) && Fits(w, h, x, y, win.(iHi := i))
    ensures WindowSum(g, w, h, x, y, k, win.(iHi := i))
         == WindowSum(g, w, h, x, y, k, win.(iHi := i - 1)) + ColumnSum(g, w, h, x, y, k, i, win.jLo, win.jHi)
  {
    assert win.(iHi := i).(iHi := i - 1) == win.(iHi := i - 1);
  }

  // ---------------------------------------------------------------------------
  // The nine branches implement the clamped rule
  // ---------------------------------------------------------------------------

  /**
   * On an image at least 2x2, the window of the branch taken at (x, y) holds
   * exactly the neighbours that lie inside the image, so every read is in bounds.
   */
  lemma BranchWindowIsClamped(w: int, h: int, x: int, y: int)
    requires 2 <= w && 2 <= h && 0 <= x < w && 0 <= y < h
    ensures Fits(w, h, x, y, BranchWindow(w, h, x, y))
    ensures BranchWindow(w, h, x, y) == Window(Max(-1, -x), Min(1, w - 1 - x), Max(-1, -y), Min(1, h - 1 - y))
  {
  }

  /**
   * On an image one pixel wide or one pixel high, the corner branch at (0, 0)
   * reads index 1 along the short side, which lies outside the image.
   */
  lemma NarrowImageReadsOutside(w: int, h: int)
    requires 1 <= w && 1 <= h && (w == 1 || h == 1)
    ensures BranchWindow(w, h, 0, 0) == Window(0, 1, 0, 1)
    ensures !Fits(w, h, 0, 0, BranchWindow(w, h, 0, 0))
  {
  }

  /** A column of the clamped window sums to the reference column. */
  lemma {:induction false} ColumnSumIsClamped(g: seq<seq<int>>, w: int, h: int, x: int, y: int, k: Kernel, i: int)
    requires IsGrid(g, w, h) && IsKernel(k)
    requires 2 <= h && 0 <= y < h && -1 <= i <= 1 && 0 <= x + i < w
    ensures Fits(w, h, x, y, Window(i, i, Max(-1, -y), Min(1, h - 1 - y)))
    ensures ColumnSum(g, w, h, x, y, k, i, Max(-1, -y), Min(1, h - 1 - y)) == ClampedColumn(g, w, h, x, y, k, i)
  {
    var jLo, jHi := Max(-1, -y), Min(1, h - 1 - y);
    assert ColumnSum(g, w, h, x, y, k, i, jLo, -2) == 0;
    assert ColumnSum(g, w, h, x, y, k, i, jLo, -1) == if jLo == -1 then ClampedTap(g, w, h, x, y, k, i, -1) else 0;
    assert ColumnSum(g, w, h, x, y, k, i, jLo, 0)
        == ClampedTap(g, w, h, x, y, k, i, -1) + ClampedTap(g, w, h, x, y, k, i, 0);
    if jHi == 1 {
      assert ColumnSum(g, w, h, x, y, k, i, jLo, 1)
          == ColumnSum(g, w, h, x, y, k, i, jLo, 0) + ClampedTap(g, w, h, x, y, k, i, 1);
    }
  }

  /** The columns -1 and 0 of the clamped window sum to the reference columns -1 and 0. */
  lemma {:induction false} LeftWindowIsClamped(g: seq<seq<int>>, w: int, h: int, x: int, y: int, k: Kernel)
    requires IsGrid(g, w, h) && IsKernel(k)
    requires 2 <= w && 2 <= h && 0 <= x < w && 0 <= y < h
    ensures Fits(w, h, x, y, Window(Max(-1, -x), 0, Max(-1, -y), Min(1, h - 1 - y)))
    ensures WindowSum(g, w, h, x, y, k, Window(Max(-1, -x), 0, Max(-1, -y), Min(1, h - 1 - y)))
         == ClampedColumn(g, w, h, x, y, k, -1) + ClampedColumn(g, w, h, x, y, k, 0)
  {
    var win := Window(Max(-1, -x), 0, Max(-1, -y), Min(1, h - 1 - y));
    ColumnSumIsClamped(g, w, h, x, y, k, 0);
    assert WindowSum(g, w, h, x, y, k, win.(iHi := -2)) == 0;
    if x == 0 {
      // a column that lies outside the image contributes nothing to the reference sum
      assert ClampedColumn(g, w, h, x, y, k, -1) == 0;
      assert WindowSum(g, w, h, x, y, k, win.(iHi := -1)) == 0;
    } else {
      ColumnSumIsClamped(g, w, h, x, y, k, -1);
      assert WindowSum(g, w, h, x, y, k, win.(iHi := -1)) == ClampedColumn(g, w, h, x, y, k, -1);
    }
  }

  /** The whole clamped window sums to the reference convolution. */
  lemma {:induction false} WindowSumIsClamped(g: seq<seq<int>>, w: int, h: int, x: int, y: int, k: Kernel)
    requires IsGrid(g, w, h) && IsKernel(k)
    requires 2 <= w && 2 <= h && 0 <= x < w && 0 <= y < h
    ensures Fits(w, h, x, y, Window(Max(-1, -x), Min(1, w - 1 - x), Max(-1, -y), Min(1, h - 1 - y)))
    ensures WindowSum(g, w, h, x, y, k, Window(Max(-1, -x), Min(1, w - 1 - x), Max(-1, -y), Min(1, h - 1 - y)))
         == Convolution(g, w, h, x, y, k)
  {
    var win := Window(Max(-1, -x), Min(1, w - 1 - x), Max(-1, -y), Min(1, h - 1 - y));
    LeftWindowIsClamped(g, w, h, x, y, k);
    if x == w - 1 {
      assert ClampedColumn(g, w, h, x, y, k, 1) == 0;
    } else {
      ColumnSumIsClamped(g, w, h, x, y, k, 1);
      assert WindowSum(g, w, h, x, y, k, win)
          == WindowSum(g, w, h, x, y, k, win.(iHi := 0)) + ClampedColumn(g, w, h, x, y, k, 1);
    }
  }

  /**
   * The nine-branch convolution at any pixel of an image at least 2x2 equals
   * the clamped rule: the sum over the in-bounds neighbours only.
   */
  lemma BranchConvolutionIsClamped(g: seq<seq<int>>, w: int, h: int, x: int, y: int, k: Kernel)
    requires IsGrid(g, w, h) && IsKernel(k)
    requires 2 <= w && 2 <= h && 0 <= x < w && 0 <= y < h
    ensures Fits(w, h, x, y, BranchWindow(w, h, x, y))
    ensures WindowSum(g, w, h, x, y, k, BranchWindow(w, h, x, y)) == Convolution(g, w, h, x, y, k)
  {
    BranchWindowIsClamped(w, h, x, y);
    WindowSumIsClamped(g, w, h, x, y, k);
  }

  /** The top-left corner branch sums exactly four products, with weights k[1][1], k[1][2], k[2][1] and k[2][2]. */
  lemma CornerUsesFourWeights(g: seq<seq<int>>, w: int, h: int, k: Kernel)
    requires IsGrid(g, w, h) && IsKernel(k) && 2 <= w && 2 <= h
    ensures Fits(w, h, 0, 0, BranchWindow(w, h, 0, 0))
    ensures WindowSum(g, w, h, 0, 0, k, BranchWindow(w, h, 0, 0))
         == g[0][0] * k[1][1] + g[1][0] * k[1][2] + g[0][1] * k[2][1] + g[1][1] * k[2][2]
  {
    var win := Window(0, 1, 0, 1);
    assert ColumnSum(g, w, h, 0, 0, k, 0, 0, 1) == g[0][0] * k[1][1] + g[0][1] * k[2][1] by {
      assert ColumnSum(g, w, h, 0, 0, k, 0, 0, 0) == g[0][0] * k[1][1];
    }
    assert ColumnSum(g, w, h, 0, 0, k, 1, 0, 1) == g[1][0] * k[1][2] + g[1][1] * k[2][2] by {
      assert ColumnSum(g, w, h, 0, 0, k, 1, 0, 0) == g[1][0] * k[1][2];
    }
    assert WindowSum(g, w, h, 0, 0, k, win.(iHi := 0)) == ColumnSum(g, w, h, 0, 0, k, 0, 0, 1) by {
      assert WindowSum(g, w, h, 0, 0, k, win.(iHi := -1)) == 0;
    }
  }

  // ---------------------------------------------------------------------------
  // Properties of the Sobel responses
  // ---------------------------------------------------------------------------

  /** Every intensity of the image lies in 0..255. */
  predicate IsIntensityGrid(g: seq<seq<int>>, w: int, h: int)
  {
    IsGrid(g, w, h) && forall a, b :: 0 <= a < w && 0 <= b < h ==> 0 <= g[a][b] <= 255
  }

  /** On intensities 0..255 a tap with weight c lies between 0 and 255 * c. */
  lemma TapBounded(g: seq<seq<int>>, w: int, h: int, x: int, y: int, k: Kernel, i: int, j: int)
    requires IsIntensityGrid(g, w, h) && (k == KernelX || k == KernelY)
    requires -1 <= i <= 1 && -1 <= j <= 1
    ensures IsKernel(k)
    ensures k[j + 1][i + 1] >= 0 ==> 0 <= ClampedTap(g, w, h, x, y, k, i, j) <= 255 * k[j + 1][i + 1]
    ensures k[j + 1][i + 1] < 0 ==> 255 * k[j + 1][i + 1] <= ClampedTap(g, w, h, x, y, k, i, j) <= 0
  {
    var c := k[j + 1][i + 1];
    assert c == -2 || c == -1 || c == 0 || c == 1 || c == 2;
  }

  /**
   * On intensities 0..255 either Sobel response lies in [-1020, 1020]: the
   * positive weights and the negative weights of each kernel sum to 4 and -4.
   */
  lemma ResponseBounded(g: seq<seq<int>>, w: int, h: int, x: int, y: int, k: Kernel)
    requires IsIntensityGrid(g, w, h) && (k == KernelX || k == KernelY)
    ensures IsKernel(k)
    ensures -1020 <= Convolution(g, w, h, x, y, k) <= 1020
  {
    TapBounded(g, w, h, x, y, k, -1, -1);
    TapBounded(g, w, h, x, y, k, -1, 0);
    TapBounded(g, w, h, x, y, k, -1, 1);
    TapBounded(g, w, h, x, y, k, 0, -1);
    TapBounded(g, w, h, x, y, k, 0, 0);
    TapBounded(g, w, h, x, y, k, 0, 1);
    TapBounded(g, w, h, x, y, k, 1, -1);
    TapBounded(g, w, h, x, y, k, 1, 0);
    TapBounded(g, w, h, x, y, k, 1, 1);
  }

  /** Every intensity of the image equals c. */
  predicate IsUniform(g: seq<seq<int>>, w: int, h: int, c: int)
  {
    IsGrid(g, w, h) && forall a, b :: 0 <= a < w && 0 <= b < h ==> g[a][b] == c
  }

  /** On a uniform image both responses vanish at every interior pixel, since the weights of each kernel sum to 0. */
  lemma UniformInteriorIsFlat(g: seq<seq<int>>, w: int, h: int, c: int, x: int, y: int)
    requires IsUniform(g, w, h, c) && 0 < x < w - 1 && 0 < y < h - 1
    ensures IsKernel(KernelX) && IsKernel(KernelY)
    ensures Convolution(g, w, h, x, y, KernelX) == 0
    ensures Convolution(g, w, h, x, y, KernelY) == 0
  {
    assert g[x - 1][y - 1] == g[x - 1][y] == g[x - 1][y + 1] == c;
    assert g[x][y - 1] == g[x][y + 1] == c;
    assert g[x + 1][y - 1] == g[x + 1][y] == g[x + 1][y + 1] == c;
  }

  /** The border is not flat: on a uniform image of intensity c the top-left corner's horizontal response is 3c. */
  lemma UniformCornerIsNotFlat(g: seq<seq<int>>, w: int, h: int, c: int)
    requires IsUniform(g, w, h, c) && 2 <= w && 2 <= h
    ensures IsKernel(KernelX)
    ensures Convolution(g, w, h, 0, 0, KernelX) == 3 * c
  {
    assert g[0][1] == g[1][0] == g[1][1] == g[0][0] == c;
  }

  /** The squared gradient magnitude gx^2 + gy^2: never negative, and 0 exactly when both responses are 0. */
  function Magnitude(gx: int, gy: int): (m: int)
    ensures m >= 0
    ensures m == 0 <==> gx == 0 && gy == 0
  {
    assert gx != 0 ==> gx * gx > 0;
    assert gy != 0 ==> gy * gy > 0;
    gx * gx + gy * gy
  }

  /**
   * "sqrt(m) > t" for a squared magnitude m and an integer threshold t: the
   * root exceeds t exactly when its integer part does, or equals t while m is
   * not a perfect square.
   */
  function AboveThreshold(m: int, t: int): (above: bool)
    ensures m >= 0 ==> (above <==> t < FloorSqrt(m) || (t == FloorSqrt(m) && t * t < m))
  {
    RootExceeds(m, t);
    t < 0 || m > t * t
  }

  /** For t >= 0, m > t * t splits on the integer square root of m. */
  lemma RootExceeds(m: int, t: int)
    ensures m >= 0 && t >= 0 ==> (m > t * t <==> t < FloorSqrt(m) || (t == FloorSqrt(m) && t * t < m))
  {
    if m >= 0 && t >= 0 {
      var s := FloorSqrt(m);
      if t < s {
        SquareMonotone(t + 1, s);
      } else if t > s {
        SquareMonotone(s + 1, t);
      }
    }
  }

  /**
   * The threshold test on the squared magnitude m agrees with the source's test
   * on the real magnitude: for the non-negative real root s of m, s > t.
   */
  lemma AboveThresholdIsRootTest(m: nat, t: int, s: real)
    requires 0.0 <= s && s * s == m as real
    ensures AboveThreshold(m, t) <==> s > t as real
  {
    if t >= 0 {
      var tr := t as real;
      assert (t * t) as real == tr * tr;
      SquareDifference(s, tr);
      if s > tr {
        ProductPositive(s - tr, s + tr);
        assert (t * t) as real < m as real;
      } else {
        ProductNonNegative(tr - s, s + tr);
      }
    }
  }

  /** The difference of two squares factors into the difference times the sum. */
  lemma SquareDifference(a: real, b: real)
    ensures a * a - b * b == (a - b) * (a + b)
  {
  }

  /** The product of two positive reals is positive. */
  lemma ProductPositive(a: real, b: real)
    requires 0.0 < a && 0.0 < b
    ensures 0.0 < a * b
  {
  }

  /** The product of two non-negative reals is non-negative. */
  lemma ProductNonNegative(a: real, b: real)
    requires 0.0 <= a && 0.0 <= b
    ensures 0.0 <= a * b
  {
  }

  // ---------------------------------------------------------------------------
  // The filter object: three grids filled once, at construction
  // ---------------------------------------------------------------------------

  class Sobel {
    /** The grayscale image, gray[x][y]. */
    const gray: seq<seq<int>>
    const width: nat
    const height: nat
    /** The horizontal response at each pixel. */
    var sobelX: array2<int>
    /** The vertical response at each pixel. */
    var sobelY: array2<int>
    /** The squared gradient magnitude at each pixel. */
    var sobel: array2<int>

    /** The image can be convolved by the nine-branch code: it is at least 2x2. */
    predicate ImageOk()
    {
      IsGrid(gray, width, height) && 2 <= width && 2 <= height
    }

    /** The three grids have the image's dimensions and are distinct arrays. */
    ghost predicate Shaped()
      reads this
    {
      ImageOk() &&
      sobelX.Length0 == width && sobelX.Length1 == height &&
      sobelY.Length0 == width && sobelY.Length1 == height &&
      sobel.Length0 == width && sobel.Length1 == height &&
      sobelX != sobelY && sobelX != sobel && sobelY != sobel
    }

    ghost predicate XDone()
      reads this, sobelX
      requires ImageOk()
    {
      sobelX.Length0 == width && sobelX.Length1 == height &&
      forall i, j :: 0 <= i < width && 0 <= j < height ==> sobelX[i, j] == Convolution(gray, width, height, i, j, KernelX)
    }

    ghost predicate YDone()
      reads this, sobelY
      requires ImageOk()
    {
      sobelY.Length0 == width && sobelY.Length1 == height &&
      forall i, j :: 0 <= i < width && 0 <= j < height ==> sobelY[i, j] == Convolution(gray, width, height, i, j, KernelY)
    }

    /** The object invariant: both responses and the magnitude are computed at every pixel. */
    ghost predicate Valid()
      reads this, sobelX, sobelY, sobel
    {
      Shaped() && XDone() && YDone() &&
      forall i, j :: 0 <= i < width && 0 <= j < height ==> sobel[i, j] == Magnitude(sobelX[i, j], sobelY[i, j])
    }

    /** Allocates the three grids and fills them. */
    constructor (gray: seq<seq<int>>, width: nat, height: nat)
      requires IsGrid(gray, width, height) && 2 <= width && 2 <= height
      ensures this.gray == gray && this.width == width && this.height == height
      ensures Valid() && fresh(sobelX) && fresh(sobelY) && fresh(sobel)
    {
      this.gray := gray;
      this.width := width;
      this.height := height;
      sobelX := new int[width, height];
      sobelY := new int[width, height];
      sobel := new int[width, height];
      new;
      ComputeSobel();
    }

    /** The response of one kernel at one pixel: the nine-way border split, then the sum over the chosen window. */
    method PerformConvolution(x: int, y: int, kernel: Kernel) returns (res: int)
      requires ImageOk() && IsKernel(kernel)
      requires 0 <= x < width && 0 <= y < height
      ensures res == Convolution(gray, width, height, x, y, kernel)
    {
      var win := BranchWindow(width, height, x, y);
      BranchConvolutionIsClamped(gray, width, height, x, y, kernel);
      res := 0;
      for i := win.iLo to win.iHi + 1
        invariant Fits(width, height, x, y, win.(iHi := i - 1))
        invariant res == WindowSum(gray, width, height, x, y, kernel, win.(iHi := i - 1))
      {
        WindowSumStep(gray, width, height, x, y, kernel, win, i);
        res := AddColumn(x, y, kernel, win, i, res);
      }
    }

    /** The inner loop of a branch: adds column i of the window to the running sum. */
    method AddColumn(x: int, y: int, kernel: Kernel, win: Window, i: int, sum: int) returns (res: int)
      requires ImageOk() && IsKernel(kernel)
      requires Fits(width, height, x, y, win) && win.iLo <= i <= win.iHi && win.jLo <= win.jHi + 1
      ensures res == sum + ColumnSum(gray, width, height, x, y, kernel, i, win.jLo, win.jHi)
    {
      res := sum;
      for j := win.jLo to win.jHi + 1
        invariant res == sum + ColumnSum(gray, width, height, x, y, kernel, i, win.jLo, j - 1)
      {
        res := res + gray[x + i][y + j] * kernel[j + 1][i + 1];
      }
    }

    /** Fills the horizontal response grid. */
    method CalcSobelX()
      requires Shaped()
      modifies sobelX
      ensures XDone()
    {
      for i := 0 to width
        invariant forall a, b :: 0 <= a < i && 0 <= b < height ==> sobelX[a, b] == Convolution(gray, width, height, a, b, KernelX)
      {
        for j := 0 to height
          invariant forall a, b :: 0 <= a < i && 0 <= b < height ==> sobelX[a, b] == Convolution(gray, width, height, a, b, KernelX)
          invariant forall b :: 0 <= b < j ==> sobelX[i, b] == Convolution(gray, width, height, i, b, KernelX)
        {
          sobelX[i, j] := PerformConvolution(i, j, KernelX);
        }
      }
    }

    /** Fills the vertical response grid. */
    method CalcSobelY()
      requires Shaped()
      modifies sobelY
      ensures YDone()
    {
      for i := 0 to width
        invariant forall a, b :: 0 <= a < i && 0 <= b < height ==> sobelY[a, b] == Convolution(gray, width, height, a, b, KernelY)
      {
        for j := 0 to height
          invariant forall a, b :: 0 <= a < i && 0 <= b < height ==> sobelY[a, b] == Convolution(gray, width, height, a, b, KernelY)
          invariant forall b :: 0 <= b < j ==> sobelY[i, b] == Convolution(gray, width, height, i, b, KernelY)
        {
          sobelY[i, j] := PerformConvolution(i, j, KernelY);
        }
      }
    }

    /** Fills both response grids, then the magnitude grid from them. */
    method ComputeSobel()
      requires Shaped()
      modifies sobelX, sobelY, sobel
      ensures Valid()
    {
      CalcSobelX();
      CalcSobelY();
      for i := 0 to width
        invariant XDone() && YDone()
        invariant forall a, b :: 0 <= a < i && 0 <= b < height ==> sobel[a, b] == Magnitude(sobelX[a, b], sobelY[a, b])
      {
        for j := 0 to height
          invariant XDone() && YDone()
          invariant forall a, b :: 0 <= a < i && 0 <= b < height ==> sobel[a, b] == Magnitude(sobelX[a, b], sobelY[a, b])
          invariant forall b :: 0 <= b < j ==> sobel[i, b] == Magnitude(sobelX[i, b], sobelY[i, b])
        {
          sobel[i, j] := Magnitude(sobelX[i, j], sobelY[i, j]);
        }
      }
    }

    /** The edge mask: set exactly at the pixels whose magnitude exceeds the threshold, unset everywhere else. */
    method ThresholdImg(threshold: int) returns (mask: array2<bool>)
      requires Valid()
      ensures fresh(mask) && mask.Length0 == width && mask.Length1 == height
      ensures forall i, j :: 0 <= i < width && 0 <= j < height ==> (mask[i, j] <==> AboveThreshold(sobel[i, j], threshold))
    {
      mask := new bool[width, height]((i, j) => false);
      for i := 0 to width
        invariant forall a, b :: 0 <= a < i && 0 <= b < height ==> (mask[a, b] <==> AboveThreshold(sobel[a, b], threshold))
        invariant forall a, b :: i <= a < width && 0 <= b < height ==> !mask[a, b]
      {
        for j := 0 to height
          invariant forall a, b :: 0 <= a < i && 0 <= b < height ==> (mask[a, b] <==> AboveThreshold(sobel[a, b], threshold))
          invariant forall b :: 0 <= b < j ==> (mask[i, b] <==> AboveThreshold(sobel[i, b], threshold))
          invariant forall a, b :: (i < a < width && 0 <= b < height) || (a == i && j <= b < height) ==> !mask[a, b]
        {
          if AboveThreshold(sobel[i, j], threshold) {
            mask[i, j] := true;
          }
        }
      }
    }
  }
}
