/** The in-place raster traversal shared by the serial `mean`/`median` and the
    leaf branch of the parallel `compute()`: for each column `i` of a band
    and each row `j`, copy the neighbourhood with top-left cell `(i, j)` into
    `windowArr` and overwrite `pixels[i+middle][j+middle]` with its aggregate,
    in the same array the next windows read from.

    The specification folds one `Step` per position over the evolving grid,
    columns outer and rows inner, so later windows see earlier writes. */
module Traversal {
  import opened Pixels
  import opened Raster
  import opened Kernels
  import opened WindowConfig

  /** The number of rows the inner loop visits: `j` runs while `j < height - window`. */
  function Rows(height: int, n: int): (r: int)
    ensures r >= 0 && r + n >= height && (r > 0 ==> r + n == height)
  {
    if height - n > 0 then height - n else 0
  }

  /** Where the outer loop of a band `[start, start + width)` stops: `i` runs
      while `i < start + width - window`. */
  function LeafEnd(start: int, width: int, n: int): (e: int)
    ensures e >= start && e + n >= start + width && (e > start ==> e + n == start + width)
  {
    if start + width - n > start then start + width - n else start
  }

  /** One iteration of the inner loop: the window at `(i, j)` of the current
      grid, aggregated, written to its centre cell. */
  function Step(k: Square -> Pixel, g: Grid, height: int, n: int, i: int, j: int): (r: Grid)
    requires IsGrid(g, height) && n >= 1
    requires 0 <= i && i + n <= |g| && 0 <= j && j + n <= height
    ensures IsGrid(r, height) && |r| == |g|
  {
    var c := Middle(n);
    g[i + c := g[i + c][j + c := k(Window(g, height, i, j, n))]]
  }

  /** Rows `0 .. rows-1` of column `i`, in order. */
  function ColumnPass(k: Square -> Pixel, g: Grid, height: int, n: int, i: int, rows: int): (r: Grid)
    requires IsGrid(g, height) && n >= 1
    requires 0 <= i && i + n <= |g| && 0 <= rows <= Rows(height, n)
    ensures IsGrid(r, height) && |r| == |g|
  {
    if rows == 0 then g
    else Step(k, ColumnPass(k, g, height, n, i, rows - 1), height, n, i, rows - 1)
  }

  /** Columns `start .. end-1`, each with all its rows, in order. */
  function BandPass(k: Square -> Pixel, g: Grid, height: int, n: int, start: int, end: int): (r: Grid)
    requires IsGrid(g, height) && n >= 1
    requires 0 <= start <= end && (start < end ==> end - 1 + n <= |g|)
    ensures IsGrid(r, height) && |r| == |g|
    decreases end - start
  {
    if end == start then g
    else ColumnPass(k, BandPass(k, g, height, n, start, end - 1), height, n, end - 1, Rows(height, n))
  }

  /** A leaf band `[start, start + width)`: the loops of the leaf branch of
      `compute()`. */
  function Leaf(k: Square -> Pixel, g: Grid, height: int, n: int, start: int, width: int): (r: Grid)
    requires IsGrid(g, height) && n >= 1
    requires 0 <= start && start + width <= |g|
    ensures IsGrid(r, height) && |r| == |g|
  {
    BandPass(k, g, height, n, start, LeafEnd(start, width, n))
  }

  /** The serial `mean`/`median` traversal: the whole image as one band. */
  function SerialPass(k: Square -> Pixel, g: Grid, height: int, n: int): (r: Grid)
    requires IsGrid(g, height) && n >= 1
    ensures IsGrid(r, height) && |r| == |g|
  {
    Leaf(k, g, height, n, 0, |g|)
  }

  /** The part of the grid a band writes: centre cells of the windows with
      `start <= i < end` and `0 <= j < Rows`. */
  predicate InWritten(x: int, y: int, height: int, n: int, start: int, end: int)
    requires n >= 1
  {
    start + Middle(n) <= x < end + Middle(n) && Middle(n) <= y < Rows(height, n) + Middle(n)
  }

  // ---------------------------------------------------------------------
  // The loops

  /** The nested `i`/`j` loops over the band `[start, start + width)`: load
      each window from `pixels`, aggregate it, write the result back into
      `pixels` at the window's centre. `g` is the grid `pixels` holds
      on entry. */
  method Traverse(f: Filter, ghost k: Square -> Pixel, pixels: array2<Pixel>, windowArr: array2<Pixel>, window: int,
                  start: int, width: int, ghost g: Grid)
    requires pixels != windowArr && Holds(pixels, g)
    requires window >= 1 && windowArr.Length0 == window && windowArr.Length1 == window
    requires 0 <= start && start + width <= pixels.Length0
    requires f == Mean ==> TotalsFit(window)
    requires Computes(f, k)
    modifies pixels, windowArr
    ensures Holds(pixels, Leaf(k, g, pixels.Length1, window, start, width))
  {
    var i := start;
    while i < start + width - window
      invariant start <= i <= LeafEnd(start, width, window)
      invariant Holds(pixels, BandPass(k, g, pixels.Length1, window, start, i))
    {
      TraverseColumn(f, k, pixels, windowArr, window, i, BandPass(k, g, pixels.Length1, window, start, i));
      i := i + 1;
    }
  }

  /** The inner `j` loop for column `i`. */
  method TraverseColumn(f: Filter, ghost k: Square -> Pixel, pixels: array2<Pixel>, windowArr: array2<Pixel>, window: int,
                        i: int, ghost g: Grid)
    requires pixels != windowArr && Holds(pixels, g)
    requires window >= 1 && windowArr.Length0 == window && windowArr.Length1 == window
    requires 0 <= i && i + window <= pixels.Length0
    requires f == Mean ==> TotalsFit(window)
    requires Computes(f, k)
    modifies pixels, windowArr
    ensures Holds(pixels, ColumnPass(k, g, pixels.Length1, window, i, Rows(pixels.Length1, window)))
  {
    var j := 0;
    while j < pixels.Length1 - window
      invariant 0 <= j <= Rows(pixels.Length1, window)
      invariant Holds(pixels, ColumnPass(k, g, pixels.Length1, window, i, j))
    {
      Visit(f, k, pixels, windowArr, window, i, j, ColumnPass(k, g, pixels.Length1, window, i, j));
      j := j + 1;
    }
  }

  /** The body of the loops at `(i, j)`: load the window, compute
      `calculate(middle)`, store it at `pixels[i+middle][j+middle]`. */
  method Visit(f: Filter, ghost k: Square -> Pixel, pixels: array2<Pixel>, windowArr: array2<Pixel>, window: int,
               i: int, j: int, ghost g: Grid)
    requires pixels != windowArr && Holds(pixels, g)
    requires window >= 1 && windowArr.Length0 == window && windowArr.Length1 == window
    requires 0 <= i && i + window <= pixels.Length0 && 0 <= j && j + window <= pixels.Length1
    requires f == Mean ==> TotalsFit(window)
    requires Computes(f, k)
    modifies pixels, windowArr
    ensures Holds(pixels, Step(k, g, pixels.Length1, window, i, j))
  {
    var value := LoadAndCalculate(f, pixels, windowArr, window, i, j, g);
    assert value == k(Window(g, pixels.Length1, i, j, window));
    WriteCentre(k, pixels, window, i, j, value, g);
  }

  /** The first half of the loop body: copy the window at `(i, j)` into
      `windowArr` and run `calculate(middle)` on it. */
  method LoadAndCalculate(f: Filter, pixels: array2<Pixel>, windowArr: array2<Pixel>, window: int,
                          i: int, j: int, ghost g: Grid) returns (value: Pixel)
    requires pixels != windowArr && Holds(pixels, g)
    requires window >= 1 && windowArr.Length0 == window && windowArr.Length1 == window
    requires 0 <= i && i + window <= pixels.Length0 && 0 <= j && j + window <= pixels.Length1
    requires f == Mean ==> TotalsFit(window)
    modifies windowArr
    ensures value == Aggregate(f, Window(g, pixels.Length1, i, j, window), Middle(window))
  {
    LoadWindow(pixels, windowArr, window, i, j, g);
    value := Calculate(f, windowArr, window, Middle(window), Window(g, pixels.Length1, i, j, window));
  }

  /** The second half: `pixels[i+middle][j+middle] = value`, where `value`
      is the kernel's value on the window at `(i, j)`. */
  method WriteCentre(ghost k: Square -> Pixel, pixels: array2<Pixel>, window: int, i: int, j: int, value: Pixel, ghost g: Grid)
    requires Holds(pixels, g) && window >= 1
    requires 0 <= i && i + window <= pixels.Length0 && 0 <= j && j + window <= pixels.Length1
    requires value == k(Window(g, pixels.Length1, i, j, window))
    modifies pixels
    ensures Holds(pixels, Step(k, g, pixels.Length1, window, i, j))
  {
    StepWrites(k, g, pixels.Length1, window, i, j, value);
    Store(pixels, i + Middle(window), j + Middle(window), value, g, Step(k, g, pixels.Length1, window, i, j));
  }

  /** `pixels[x][y] = value`, as a change of the grid the array holds: from
      `g` to `after`, which is `g` with cell `(x, y)` replaced. */
  method Store(pixels: array2<Pixel>, x: int, y: int, value: Pixel, ghost g: Grid, ghost after: Grid)
    requires 0 <= x < pixels.Length0 && 0 <= y < pixels.Length1 && Holds(pixels, g)
    requires after == g[x := g[x][y := value]]
    modifies pixels
    ensures Holds(pixels, after)
  {
    label Loaded:
    pixels[x, y] := value;
    forall x', y' | 0 <= x' < pixels.Length0 && 0 <= y' < pixels.Length1
      ensures pixels[x', y'] == after[x'][y']
    {
      if x' != x || y' != y {
        assert pixels[x', y'] == old@Loaded(pixels[x', y']);
      }
    }
  }

  /** `Step` writes the aggregate of the current window to its centre cell. */
  lemma StepWrites(k: Square -> Pixel, g: Grid, height: int, n: int, i: int, j: int, v: Pixel)
    requires IsGrid(g, height) && n >= 1
    requires 0 <= i && i + n <= |g| && 0 <= j && j + n <= height
    requires v == k(Window(g, height, i, j, n))
    ensures Step(k, g, height, n, i, j) == g[i + Middle(n) := g[i + Middle(n)][j + Middle(n) := v]]
  {
  }

  // ---------------------------------------------------------------------
  // What the traversal promises

  /** One step changes only the centre cell of its window, and writes there
      the aggregate of the window as it is at that moment. */
  lemma StepFrame(k: Square -> Pixel, g: Grid, height: int, n: int, i: int, j: int)
    requires IsGrid(g, height) && n >= 1
    requires 0 <= i && i + n <= |g| && 0 <= j && j + n <= height
    ensures Step(k, g, height, n, i, j)[i + Middle(n)][j + Middle(n)] == k(Window(g, height, i, j, n))
    ensures forall x, y ::
              (0 <= x < |g| && 0 <= y < height && (x != i + Middle(n) || y != j + Middle(n)))
              ==> Step(k, g, height, n, i, j)[x][y] == g[x][y]
  {
  }

  /** A column pass changes only the centre cells `(i + middle, j + middle)`,
      `0 <= j < rows`. */
  lemma {:induction false} ColumnPassFrame(k: Square -> Pixel, g: Grid, height: int, n: int, i: int, rows: int)
    requires IsGrid(g, height) && n >= 1
    requires 0 <= i && i + n <= |g| && 0 <= rows <= Rows(height, n)
    ensures forall x, y ::
              (0 <= x < |g| && 0 <= y < height && !(x == i + Middle(n) && Middle(n) <= y < rows + Middle(n)))
              ==> ColumnPass(k, g, height, n, i, rows)[x][y] == g[x][y]
  {
    if rows > 0 {
      ColumnPassFrame(k, g, height, n, i, rows - 1);
      StepFrame(k, ColumnPass(k, g, height, n, i, rows - 1), height, n, i, rows - 1);
    }
  }

  /** Only the centre cells of the band's windows are written: a cell outside
      `[start + middle, end + middle) x [middle, Rows + middle)` keeps its value. */
  lemma {:induction false} BandPassFrame(k: Square -> Pixel, g: Grid, height: int, n: int, start: int, end: int)
    requires IsGrid(g, height) && n >= 1
    requires 0 <= start <= end && (start < end ==> end - 1 + n <= |g|)
    ensures forall x, y ::
              (0 <= x < |g| && 0 <= y < height && !InWritten(x, y, height, n, start, end))
              ==> BandPass(k, g, height, n, start, end)[x][y] == g[x][y]
    decreases end - start
  {
    if end > start {
      BandPassFrame(k, g, height, n, start, end - 1);
      ColumnPassFrame(k, BandPass(k, g, height, n, start, end - 1), height, n, end - 1, Rows(height, n));
    }
  }

  /** Writes to a column stay in it: the later rows of a column pass leave an
      already written cell of that column alone. */
  lemma {:induction false} ColumnPassKeepsEarlier(k: Square -> Pixel, g: Grid, height: int, n: int, i: int, j: int, rows: int)
    requires IsGrid(g, height) && n >= 1
    requires 0 <= i && i + n <= |g| && 0 <= j < rows <= Rows(height, n)
    ensures ColumnPass(k, g, height, n, i, rows)[i + Middle(n)][j + Middle(n)]
         == ColumnPass(k, g, height, n, i, j + 1)[i + Middle(n)][j + Middle(n)]
  {
    if rows > j + 1 {
      ColumnPassKeepsEarlier(k, g, height, n, i, j, rows - 1);
      StepFrame(k, ColumnPass(k, g, height, n, i, rows - 1), height, n, i, rows - 1);
    }
  }

  /** The later columns of a band leave the cells of an earlier column alone. */
  lemma {:induction false} BandPassKeepsEarlier(k: Square -> Pixel, g: Grid, height: int, n: int, start: int, i: int, end: int, y: int)
    requires IsGrid(g, height) && n >= 1
    requires 0 <= start <= i < end && end - 1 + n <= |g| && 0 <= y < height
    ensures BandPass(k, g, height, n, start, end)[i + Middle(n)][y]
         == BandPass(k, g, height, n, start, i + 1)[i + Middle(n)][y]
    decreases end - i
  {
    if end > i + 1 {
      BandPassKeepsEarlier(k, g, height, n, start, i, end - 1, y);
      ColumnPassFrame(k, BandPass(k, g, height, n, start, end - 1), height, n, end - 1, Rows(height, n));
    }
  }

  /** The value left in a written cell is the aggregate of its window AS IT
      WAS WHEN THAT CELL WAS WRITTEN: the grid after all earlier columns of
      the band and all earlier rows of its column, not the input grid. */
  lemma WrittenValue(k: Square -> Pixel, g: Grid, height: int, n: int, start: int, end: int, i: int, j: int)
    requires IsGrid(g, height) && n >= 1
    requires 0 <= start <= i < end && end - 1 + n <= |g| && 0 <= j < Rows(height, n)
    ensures BandPass(k, g, height, n, start, end)[i + Middle(n)][j + Middle(n)]
         == k(Window(ColumnPass(k, BandPass(k, g, height, n, start, i), height, n, i, j), height, i, j, n))
  {
    var before := BandPass(k, g, height, n, start, i);
    BandPassKeepsEarlier(k, g, height, n, start, i, end, j + Middle(n));
    ColumnPassKeepsEarlier(k, before, height, n, i, j, Rows(height, n));
    StepFrame(k, ColumnPass(k, before, height, n, i, j), height, n, i, j);
  }

  /** Aliasing: the window one row further down reads, at offset
      `(middle, middle - 1)`, the value just written, not the input pixel. */
  lemma NextWindowSeesWrite(k: Square -> Pixel, g: Grid, height: int, n: int, i: int, j: int)
    requires IsGrid(g, height) && n >= 3
    requires 0 <= i && i + n <= |g| && 0 <= j && j + 1 < Rows(height, n)
    ensures Window(ColumnPass(k, g, height, n, i, j + 1), height, i, j + 1, n)[Middle(n)][Middle(n) - 1]
         == k(Window(ColumnPass(k, g, height, n, i, j), height, i, j, n))
  {
    StepFrame(k, ColumnPass(k, g, height, n, i, j), height, n, i, j);
  }

  /** The alpha bytes of a grid, cell by cell. */
  function Alphas(g: Grid): (r: seq<seq<Byte>>)
    ensures |r| == |g| && forall x :: 0 <= x < |g| ==> |r[x]| == |g[x]|
  {
    seq(|g|, x requires 0 <= x < |g| => seq(|g[x]|, y requires 0 <= y < |g[x]| => Component(g[x][y], Alpha)))
  }

  /** Equal alpha planes means every cell carries the same alpha byte. */
  lemma AlphasCells(g: Grid, h: Grid, height: int)
    requires IsGrid(g, height) && IsGrid(h, height) && |g| == |h|
    ensures Alphas(g) == Alphas(h) <==>
            forall x, y :: 0 <= x < |g| && 0 <= y < height ==> Component(h[x][y], Alpha) == Component(g[x][y], Alpha)
  {
    if forall x, y :: 0 <= x < |g| && 0 <= y < height ==> Component(h[x][y], Alpha) == Component(g[x][y], Alpha) {
      forall x | 0 <= x < |g| ensures Alphas(g)[x] == Alphas(h)[x] {
        assert forall y :: 0 <= y < height ==> Alphas(g)[x][y] == Alphas(h)[x][y];
      }
    }
    if Alphas(g) == Alphas(h) {
      forall x, y | 0 <= x < |g| && 0 <= y < height
        ensures Component(h[x][y], Alpha) == Component(g[x][y], Alpha)
      {
        assert Alphas(g)[x][y] == Alphas(h)[x][y];
      }
    }
  }

  /** One step leaves the alpha plane as it was: the only cell it writes gets
      the kernel's value, which carries that cell's own alpha. */
  lemma StepKeepsAlpha(k: Square -> Pixel, g: Grid, height: int, n: int, i: int, j: int)
    requires KeepsCentreAlpha(k)
    requires IsGrid(g, height) && n >= 1
    requires 0 <= i && i + n <= |g| && 0 <= j && j + n <= height
    ensures Alphas(Step(k, g, height, n, i, j)) == Alphas(g)
  {
    var w := Window(g, height, i, j, n);
    var c := Middle(n);
    var r := Step(k, g, height, n, i, j);
    assert Component(k(w), Alpha) == Component(g[i + c][j + c], Alpha) by {
      assert Component(k(w), Alpha) == CentreAlpha(w);
      assert w[c][c] == g[i + c][j + c];
    }
    forall x, y | 0 <= x < |g| && 0 <= y < height
      ensures Component(r[x][y], Alpha) == Component(g[x][y], Alpha)
    {
      if x == i + c && y == j + c {
        assert r[x][y] == k(w);
      } else {
        assert r[x][y] == g[x][y];
      }
    }
    AlphasCells(g, r, height);
  }

  lemma {:induction false} ColumnPassKeepsAlpha(k: Square -> Pixel, g: Grid, height: int, n: int, i: int, rows: int)
    requires KeepsCentreAlpha(k)
    requires IsGrid(g, height) && n >= 1
    requires 0 <= i && i + n <= |g| && 0 <= rows <= Rows(height, n)
    ensures Alphas(ColumnPass(k, g, height, n, i, rows)) == Alphas(g)
  {
    if rows > 0 {
      ColumnPassKeepsAlpha(k, g, height, n, i, rows - 1);
      StepKeepsAlpha(k, ColumnPass(k, g, height, n, i, rows - 1), height, n, i, rows - 1);
    }
  }

  /** Every cell of the grid keeps its own alpha byte through a band. */
  lemma {:induction false} BandPassKeepsAlpha(k: Square -> Pixel, g: Grid, height: int, n: int, start: int, end: int)
    requires KeepsCentreAlpha(k)
    requires IsGrid(g, height) && n >= 1
    requires 0 <= start <= end && (start < end ==> end - 1 + n <= |g|)
    ensures Alphas(BandPass(k, g, height, n, start, end)) == Alphas(g)
    decreases end - start
  {
    if end > start {
      BandPassKeepsAlpha(k, g, height, n, start, end - 1);
      ColumnPassKeepsAlpha(k, BandPass(k, g, height, n, start, end - 1), height, n, end - 1, Rows(height, n));
    }
  }

  lemma StepUniform(k: Square -> Pixel, g: Grid, height: int, n: int, i: int, j: int, p: Pixel)
    requires FixesUniform(k)
    requires IsGrid(g, height) && n >= 1 && IsUniform(g, p)
    requires 0 <= i && i + n <= |g| && 0 <= j && j + n <= height
    ensures IsUniform(Step(k, g, height, n, i, j), p)
  {
    var w := Window(g, height, i, j, n);
    assert IsUniform(w, p);
    assert k(w) == p;
  }

  lemma {:induction false} ColumnPassUniform(k: Square -> Pixel, g: Grid, height: int, n: int, i: int, rows: int, p: Pixel)
    requires FixesUniform(k)
    requires IsGrid(g, height) && n >= 1 && IsUniform(g, p)
    requires 0 <= i && i + n <= |g| && 0 <= rows <= Rows(height, n)
    ensures IsUniform(ColumnPass(k, g, height, n, i, rows), p)
  {
    if rows > 0 {
      ColumnPassUniform(k, g, height, n, i, rows - 1, p);
      StepUniform(k, ColumnPass(k, g, height, n, i, rows - 1), height, n, i, rows - 1, p);
    }
  }

  /** An image of one colour stays that colour. */
  lemma {:induction false} BandPassUniform(k: Square -> Pixel, g: Grid, height: int, n: int, start: int, end: int, p: Pixel)
    requires FixesUniform(k)
    requires IsGrid(g, height) && n >= 1 && IsUniform(g, p)
    requires 0 <= start <= end && (start < end ==> end - 1 + n <= |g|)
    ensures IsUniform(BandPass(k, g, height, n, start, end), p)
    decreases end - start
  {
    if end > start {
      BandPassUniform(k, g, height, n, start, end - 1, p);
      ColumnPassUniform(k, BandPass(k, g, height, n, start, end - 1), height, n, end - 1, Rows(height, n), p);
    }
  }

  lemma StepSingleCell(k: Square -> Pixel, g: Grid, height: int, i: int, j: int)
    requires FixesUniform(k)
    requires IsGrid(g, height)
    requires 0 <= i && i + 1 <= |g| && 0 <= j && j + 1 <= height
    ensures Step(k, g, height, 1, i, j) == g
  {
    var w := Window(g, height, i, j, 1);
    assert IsUniform(w, g[i][j]);
    assert k(w) == g[i][j];
    assert g[i][j := g[i][j]] == g[i];
  }

  lemma {:induction false} ColumnPassSingleCell(k: Square -> Pixel, g: Grid, height: int, i: int, rows: int)
    requires FixesUniform(k)
    requires IsGrid(g, height)
    requires 0 <= i && i + 1 <= |g| && 0 <= rows <= Rows(height, 1)
    ensures ColumnPass(k, g, height, 1, i, rows) == g
  {
    if rows > 0 {
      ColumnPassSingleCell(k, g, height, i, rows - 1);
      StepSingleCell(k, g, height, i, rows - 1);
    }
  }

  /** With `window == 1` every cell is its own window and the grid is unchanged. */
  lemma {:induction false} BandPassSingleCell(k: Square -> Pixel, g: Grid, height: int, start: int, end: int)
    requires FixesUniform(k)
    requires IsGrid(g, height)
    requires 0 <= start <= end && (start < end ==> end <= |g|)
    ensures BandPass(k, g, height, 1, start, end) == g
    decreases end - start
  {
    if end > start {
      BandPassSingleCell(k, g, height, start, end - 1);
      ColumnPassSingleCell(k, g, height, end - 1, Rows(height, 1));
    }
  }

  /** An image no wider or no taller than the window runs no iteration. */
  lemma SmallImageUnchanged(k: Square -> Pixel, g: Grid, height: int, n: int)
    requires IsGrid(g, height) && n >= 1
    requires |g| <= n || height <= n
    ensures SerialPass(k, g, height, n) == g
  {
    if |g| > n {
      NoRows(k, g, height, n, 0, |g| - n);
    }
  }

  lemma {:induction false} NoRows(k: Square -> Pixel, g: Grid, height: int, n: int, start: int, end: int)
    requires IsGrid(g, height) && n >= 1 && height <= n
    requires 0 <= start <= end && (start < end ==> end - 1 + n <= |g|)
    ensures BandPass(k, g, height, n, start, end) == g
    decreases end - start
  {
    if end > start {
      NoRows(k, g, height, n, start, end - 1);
    }
  }

  /** The serial traversal never writes the first `middle` or the last
      `middle + 1` columns and rows. */
  lemma SerialBorder(k: Square -> Pixel, g: Grid, height: int, n: int)
    requires IsGrid(g, height) && ValidWindow(n)
    ensures forall x, y ::
              (0 <= x < |g| && 0 <= y < height &&
               (x < Middle(n) || x >= |g| - Middle(n) - 1 || y < Middle(n) || y >= height - Middle(n) - 1))
              ==> SerialPass(k, g, height, n)[x][y] == g[x][y]
  {
    ValidWindowIsPositiveOdd(n);
    BandPassFrame(k, g, height, n, 0, LeafEnd(0, |g|, n));
  }

  // ---------------------------------------------------------------------
  // What a leaf band reads

  /** `g` and `h` have the same shape and the same columns `lo .. hi-1`. */
  predicate SameColumns(g: Grid, h: Grid, lo: int, hi: int)
  {
    |g| == |h| && forall x :: lo <= x < hi && 0 <= x < |g| ==> g[x] == h[x]
  }

  /** A step whose window lies in columns `lo .. hi-1` reads and writes only
      those columns. */
  lemma StepSameColumns(k: Square -> Pixel, g: Grid, h: Grid, height: int, n: int, i: int, j: int, lo: int, hi: int)
    requires IsGrid(g, height) && IsGrid(h, height) && n >= 1
    requires 0 <= i && i + n <= |g| && 0 <= j && j + n <= height
    requires SameColumns(g, h, lo, hi) && lo <= i && i + n <= hi
    ensures SameColumns(Step(k, g, height, n, i, j), Step(k, h, height, n, i, j), lo, hi)
  {
    var w, v := Window(g, height, i, j, n), Window(h, height, i, j, n);
    forall t | 0 <= t < n ensures w[t] == v[t] {
      assert g[i + t] == h[i + t];
    }
    assert w == v;
  }

  lemma {:induction false} ColumnPassSameColumns(k: Square -> Pixel, g: Grid, h: Grid, height: int, n: int, i: int, rows: int, lo: int, hi: int)
    requires IsGrid(g, height) && IsGrid(h, height) && n >= 1
    requires 0 <= i && i + n <= |g| && 0 <= rows <= Rows(height, n)
    requires SameColumns(g, h, lo, hi) && lo <= i && i + n <= hi
    ensures SameColumns(ColumnPass(k, g, height, n, i, rows), ColumnPass(k, h, height, n, i, rows), lo, hi)
  {
    if rows > 0 {
      ColumnPassSameColumns(k, g, h, height, n, i, rows - 1, lo, hi);
      StepSameColumns(k, ColumnPass(k, g, height, n, i, rows - 1), ColumnPass(k, h, height, n, i, rows - 1),
                      height, n, i, rows - 1, lo, hi);
    }
  }

  lemma {:induction false} BandPassSameColumns(k: Square -> Pixel, g: Grid, h: Grid, height: int, n: int, start: int, end: int, lo: int, hi: int)
    requires IsGrid(g, height) && IsGrid(h, height) && n >= 1
    requires 0 <= start <= end && (start < end ==> end - 1 + n <= |g|)
    requires SameColumns(g, h, lo, hi) && lo <= start && (start < end ==> end - 1 + n <= hi)
    ensures SameColumns(BandPass(k, g, height, n, start, end), BandPass(k, h, height, n, start, end), lo, hi)
    decreases end - start
  {
    if end > start {
      BandPassSameColumns(k, g, h, height, n, start, end - 1, lo, hi);
      ColumnPassSameColumns(k, BandPass(k, g, height, n, start, end - 1), BandPass(k, h, height, n, start, end - 1),
                            height, n, end - 1, Rows(height, n), lo, hi);
    }
  }

  /** A leaf band `[start, start + width)` reads only the columns
      `start .. start + width - 2`: two images that agree there come out of
      the leaf loops agreeing there, and every other column of either image
      keeps its own values. */
  lemma LeafReadsOwnColumns(k: Square -> Pixel, g: Grid, h: Grid, height: int, n: int, start: int, width: int)
    requires IsGrid(g, height) && IsGrid(h, height) && n >= 1
    requires 0 <= start && start + width <= |g|
    requires SameColumns(g, h, start, start + width - 1)
    ensures SameColumns(Leaf(k, g, height, n, start, width), Leaf(k, h, height, n, start, width), start, start + width - 1)
    ensures forall x :: 0 <= x < |g| && !(start <= x < start + width - 1) ==> Leaf(k, g, height, n, start, width)[x] == g[x]
  {
    var end := LeafEnd(start, width, n);
    BandPassSameColumns(k, g, h, height, n, start, end, start, start + width - 1);
    BandPassFrame(k, g, height, n, start, end);
    var r := Leaf(k, g, height, n, start, width);
    forall x | 0 <= x < |g| && !(start <= x < start + width - 1) ensures r[x] == g[x] {
      forall y | 0 <= y < height ensures r[x][y] == g[x][y] {
        assert !InWritten(x, y, height, n, start, end);
      }
    }
  }
}
