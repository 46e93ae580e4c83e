/** The pixel grid `pixels[x][y]` (x a column in `[0, width)`, y a row in
    `[0, height)`) and the `window x window` scratch array the filters copy a
    neighbourhood into. Both are `array2` in the model; their contents, as
    values, are `Grid`s. */
module Raster {
  import opened Pixels

  /** A grid as columns of pixels: `g[x][y]`. */
  type Grid = seq<seq<Pixel>>

  /** Every column has `height` cells. */
  predicate IsGrid(g: Grid, height: int)
  {
    forall x | 0 <= x < |g| :: |g[x]| == height
  }

  /** A square `n x n` grid. */
  predicate IsSquare(w: Grid)
  {
    IsGrid(w, |w|)
  }

  /** The array `a` holds the grid `g`, cell by cell. */
  ghost predicate Holds(a: array2<Pixel>, g: Grid)
    reads a
  {
    && |g| == a.Length0
    && IsGrid(g, a.Length1)
    && forall x, y :: 0 <= x < a.Length0 && 0 <= y < a.Length1 ==> a[x, y] == g[x][y]
  }

  /** The neighbourhood with top-left cell `(i, j)`: `w[k][m] == g[i+k][j+m]`. */
  function Window(g: Grid, height: int, i: int, j: int, n: int): (w: Grid)
    requires IsGrid(g, height)
    requires n >= 0 && 0 <= i && i + n <= |g| && 0 <= j && j + n <= height
    ensures |w| == n && IsSquare(w)
    ensures forall k, m :: 0 <= k < n && 0 <= m < n ==> w[k][m] == g[i + k][j + m]
  {
    seq(n, k requires 0 <= k < n => g[i + k][j..j + n])
  }

  /** The nested `k`/`m` loop that copies `pixels[i+k][j+m]` into `windowArr[k][m]`. */
  method LoadWindow(pixels: array2<Pixel>, windowArr: array2<Pixel>, window: int, i: int, j: int, ghost g: Grid)
    requires windowArr != pixels && Holds(pixels, g)
    requires windowArr.Length0 == window && windowArr.Length1 == window
    requires 0 <= i && i + window <= pixels.Length0 && 0 <= j && j + window <= pixels.Length1
    modifies windowArr
    ensures Holds(windowArr, Window(g, pixels.Length1, i, j, window))
  {
    var k := 0;
    while k < window
      invariant 0 <= k <= window
      invariant forall k', m' :: 0 <= k' < k && 0 <= m' < window ==> windowArr[k', m'] == pixels[i + k', j + m']
    {
      var m := 0;
      while m < window
        invariant 0 <= m <= window
        invariant forall k', m' :: 0 <= k' < k && 0 <= m' < window ==> windowArr[k', m'] == pixels[i + k', j + m']
        invariant forall m' :: 0 <= m' < m ==> windowArr[k, m'] == pixels[i + k, j + m']
      {
        windowArr[k, m] := pixels[i + k, j + m];
        m := m + 1;
      }
      k := k + 1;
    }
  }
}
