/** Shapes shared by the gradient stage and the two Hough engines. */
module Grids {

  /** A width x height grid addressed g[x][y], the layout of the source's int[width][height] arrays. */
  predicate IsGrid<T>(g: seq<seq<T>>, width: int, height: int)
  {
    |g| == width && forall x :: 0 <= x < width ==> |g[x]| == height
  }

  /** A present value, or the null that java.util.Vector pads with. */
  datatype Option<T> = None | Some(value: T)

  function Max(a: int, b: int): int
  {
    if a < b then b else a
  }

  function Min(a: int, b: int): int
  {
    if a < b then a else b
  }

  /** The integer square root: the largest s with s * s <= n. */
  function FloorSqrt(n: nat): (s: nat)
    ensures s * s <= n < (s + 1) * (s + 1)
  {
    if n == 0 then 0
    else
      var s := FloorSqrt(n - 1);
      if (s + 1) * (s + 1) <= n then
        assert n == (s + 1) * (s + 1);
        assert (s + 2) * (s + 2) == n + 2 * s + 3;
        s + 1
      else s
  }

  /** For non-negative values, squaring preserves order. */
  lemma SquareMonotone(a: nat, b: nat)
    requires a <= b
    ensures a * a <= b * b
  {
    assert b * b - a * a == (b - a) * (b + a);
  }
}
