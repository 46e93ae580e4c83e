/** The filters as a whole: the serial `mean`/`median`, the recursion of
    the parallel `compute()` as one worker runs it, and the window check of
    `main` in front of either. */
module Engine {
  import opened Pixels
  import opened Raster
  import opened Kernels
  import opened WindowConfig
  import opened Traversal
  import opened Bands

  // ---------------------------------------------------------------------
  // The recursion of `compute()`, as a function of the grid

  /** The grid after `compute()` on band `b`: a leaf runs the loops over its
      columns; a split band runs the right child and then the left child,
      the left one on the grid the right one left behind. */
  function BandTree(f: Filter, k: Square -> Pixel, g: Grid, height: int, n: int, b: Band): (r: Grid)
    requires IsGrid(g, height) && Finishes(f, n, b)
    requires 0 <= b.start && 0 <= b.width && b.start + b.width <= |g|
    ensures IsGrid(r, height) && |r| == |g|
    decreases b.width
  {
    if IsLeaf(f, b) then Leaf(k, g, height, n, b.start, b.width)
    else
      SplitNarrower(f, b, n);
      SplitInside(f, b, n);
      BandTree(f, k, BandTree(f, k, g, height, n, Right(b, n)), height, n, Left(b))
  }

  /** Every band of `bs` lies inside a grid `width` columns wide. */
  predicate AllInside(bs: seq<Band>, width: int)
  {
    forall l :: l in bs ==> 0 <= l.width && Inside(l, 0, width)
  }

  /** The leaf loops of the bands `bs`, one band after the other. */
  function RunLeaves(k: Square -> Pixel, g: Grid, height: int, n: int, bs: seq<Band>): (r: Grid)
    requires IsGrid(g, height) && n >= 1 && AllInside(bs, |g|)
    ensures IsGrid(r, height) && |r| == |g|
  {
    if bs == [] then g
    else
      var last := bs[|bs| - 1];
      assert last in bs;
      Leaf(k, RunLeaves(k, g, height, n, bs[..|bs| - 1]), height, n, last.start, last.width)
  }

  lemma {:induction false} RunLeavesAppend(k: Square -> Pixel, g: Grid, height: int, n: int, bs: seq<Band>, cs: seq<Band>)
    requires IsGrid(g, height) && n >= 1 && AllInside(bs, |g|) && AllInside(cs, |g|)
    ensures AllInside(bs + cs, |g|)
    ensures RunLeaves(k, g, height, n, bs + cs) == RunLeaves(k, RunLeaves(k, g, height, n, bs), height, n, cs)
    decreases |cs|
  {
    if cs == [] {
      assert bs + cs == bs;
    } else {
      var last := cs[|cs| - 1];
      assert (bs + cs)[..|bs + cs| - 1] == bs + cs[..|cs| - 1];
      RunLeavesAppend(k, g, height, n, bs, cs[..|cs| - 1]);
    }
  }

  /** The recursion of `compute()` is the leaf loops of `Leaves`, in order:
      what the split bands add between them is only to cut the bands. */
  lemma {:induction false} BandTreeRunsLeaves(f: Filter, k: Square -> Pixel, g: Grid, height: int, n: int, b: Band)
    requires IsGrid(g, height) && Finishes(f, n, b)
    requires 0 <= b.start && 0 <= b.width && b.start + b.width <= |g|
    ensures AllInside(Leaves(f, b, n), |g|)
    ensures BandTree(f, k, g, height, n, b) == RunLeaves(k, g, height, n, Leaves(f, b, n))
    decreases b.width
  {
    LeavesInside(f, b, n);
    if IsLeaf(f, b) {
      assert [b][..0] == [];
    } else {
      SplitNarrower(f, b, n);
      SplitInside(f, b, n);
      var right := Right(b, n);
      var rightGrid := BandTree(f, k, g, height, n, right);
      BandTreeRunsLeaves(f, k, g, height, n, right);
      BandTreeRunsLeaves(f, k, rightGrid, height, n, Left(b));
      RunLeavesAppend(k, g, height, n, Leaves(f, right, n), Leaves(f, Left(b), n));
    }
  }

  /** The cells band `b` may write: the centre cells of its windows. */
  predicate Written(x: int, y: int, height: int, n: int, b: Band)
    requires n >= 1
  {
    InWritten(x, y, height, n, b.start, b.start + b.width - n)
  }

  /** The recursion writes only centre cells of windows inside the root band;
      with the root `Band(0, w)` these are the cells the serial loops write. */
  lemma {:induction false} BandTreeFrame(f: Filter, k: Square -> Pixel, g: Grid, height: int, n: int, b: Band)
    requires IsGrid(g, height) && Finishes(f, n, b)
    requires 0 <= b.start && 0 <= b.width && b.start + b.width <= |g|
    ensures forall x, y ::
              (0 <= x < |g| && 0 <= y < height && !Written(x, y, height, n, b))
              ==> BandTree(f, k, g, height, n, b)[x][y] == g[x][y]
    decreases b.width
  {
    if IsLeaf(f, b) {
      BandPassFrame(k, g, height, n, b.start, LeafEnd(b.start, b.width, n));
    } else {
      SplitNarrower(f, b, n);
      SplitInside(f, b, n);
      var rightGrid := BandTree(f, k, g, height, n, Right(b, n));
      BandTreeFrame(f, k, g, height, n, Right(b, n));
      BandTreeFrame(f, k, rightGrid, height, n, Left(b));
    }
  }

  /** Every cell keeps its own alpha byte through the recursion. */
  lemma {:induction false} BandTreeKeepsAlpha(f: Filter, k: Square -> Pixel, g: Grid, height: int, n: int, b: Band)
    requires KeepsCentreAlpha(k)
    requires IsGrid(g, height) && Finishes(f, n, b)
    requires 0 <= b.start && 0 <= b.width && b.start + b.width <= |g|
    ensures Alphas(BandTree(f, k, g, height, n, b)) == Alphas(g)
    decreases b.width
  {
    if IsLeaf(f, b) {
      BandPassKeepsAlpha(k, g, height, n, b.start, LeafEnd(b.start, b.width, n));
    } else {
      SplitNarrower(f, b, n);
      SplitInside(f, b, n);
      BandTreeKeepsAlpha(f, k, g, height, n, Right(b, n));
      BandTreeKeepsAlpha(f, k, BandTree(f, k, g, height, n, Right(b, n)), height, n, Left(b));
    }
  }

  /** An image of one colour stays that colour through the recursion. */
  lemma {:induction false} BandTreeUniform(f: Filter, k: Square -> Pixel, g: Grid, height: int, n: int, b: Band, p: Pixel)
    requires FixesUniform(k)
    requires IsGrid(g, height) && Finishes(f, n, b) && IsUniform(g, p)
    requires 0 <= b.start && 0 <= b.width && b.start + b.width <= |g|
    ensures IsUniform(BandTree(f, k, g, height, n, b), p)
    decreases b.width
  {
    if IsLeaf(f, b) {
      BandPassUniform(k, g, height, n, b.start, LeafEnd(b.start, b.width, n), p);
    } else {
      SplitNarrower(f, b, n);
      SplitInside(f, b, n);
      BandTreeUniform(f, k, g, height, n, Right(b, n), p);
      BandTreeUniform(f, k, BandTree(f, k, g, height, n, Right(b, n)), height, n, Left(b), p);
    }
  }

  /** An image narrower than the threshold is one leaf: the root task does
      exactly the serial traversal. */
  lemma NarrowImageIsSerial(f: Filter, k: Square -> Pixel, g: Grid, height: int, n: int)
    requires IsGrid(g, height) && n >= 1 && |g| < Threshold(f)
    ensures BandTree(f, k, g, height, n, Band(0, |g|)) == SerialPass(k, g, height, n)
  {
  }

  // ---------------------------------------------------------------------
  // What the two filters promise about the whole image

  /** Both filters, serial or parallel, leave every cell's alpha byte as it was. */
  lemma FilterKeepsAlpha(f: Filter, g: Grid, height: int, n: int)
    requires IsGrid(g, height) && n >= 1
    ensures forall x, y :: 0 <= x < |g| && 0 <= y < height ==>
              Component(SerialPass(Kernel(f), g, height, n)[x][y], Alpha) == Component(g[x][y], Alpha)
    ensures Finishes(f, n, Band(0, |g|)) ==>
              forall x, y :: 0 <= x < |g| && 0 <= y < height ==>
                Component(BandTree(f, Kernel(f), g, height, n, Band(0, |g|))[x][y], Alpha) == Component(g[x][y], Alpha)
  {
    KernelKeepsAlpha(f);
    BandPassKeepsAlpha(Kernel(f), g, height, n, 0, LeafEnd(0, |g|, n));
    AlphasCells(g, SerialPass(Kernel(f), g, height, n), height);
    if Finishes(f, n, Band(0, |g|)) {
      BandTreeKeepsAlpha(f, Kernel(f), g, height, n, Band(0, |g|));
      AlphasCells(g, BandTree(f, Kernel(f), g, height, n, Band(0, |g|)), height);
    }
  }

  /** Both filters, serial or parallel, leave an image of one colour as it is. */
  lemma FilterUniform(f: Filter, g: Grid, height: int, n: int, p: Pixel)
    requires IsGrid(g, height) && n >= 1 && IsUniform(g, p)
    ensures SerialPass(Kernel(f), g, height, n) == g
    ensures Finishes(f, n, Band(0, |g|)) ==> BandTree(f, Kernel(f), g, height, n, Band(0, |g|)) == g
  {
    KernelFixesUniform(f);
    BandPassUniform(Kernel(f), g, height, n, 0, LeafEnd(0, |g|, n), p);
    UniformIsFixed(g, SerialPass(Kernel(f), g, height, n), height, p);
    if Finishes(f, n, Band(0, |g|)) {
      BandTreeUniform(f, Kernel(f), g, height, n, Band(0, |g|), p);
      UniformIsFixed(g, BandTree(f, Kernel(f), g, height, n, Band(0, |g|)), height, p);
    }
  }

  /** Two grids of the same shape, both of colour `p`, are equal. */
  lemma UniformIsFixed(g: Grid, h: Grid, height: int, p: Pixel)
    requires IsGrid(g, height) && IsGrid(h, height) && |g| == |h|
    requires IsUniform(g, p) && IsUniform(h, p)
    ensures h == g
  {
    forall x | 0 <= x < |g| ensures h[x] == g[x] {
      assert forall y :: 0 <= y < height ==> h[x][y] == g[x][y];
    }
  }

  /** With `window == 1` both filters leave the image as it is. */
  lemma FilterWindowOne(f: Filter, g: Grid, height: int)
    requires IsGrid(g, height)
    ensures SerialPass(Kernel(f), g, height, 1) == g
    ensures BandTree(f, Kernel(f), g, height, 1, Band(0, |g|)) == g
  {
    KernelFixesUniform(f);
    BandPassSingleCell(Kernel(f), g, height, 0, LeafEnd(0, |g|, 1));
    BandTreeWindowOne(f, Kernel(f), g, height, Band(0, |g|));
  }

  lemma {:induction false} BandTreeWindowOne(f: Filter, k: Square -> Pixel, g: Grid, height: int, b: Band)
    requires FixesUniform(k)
    requires IsGrid(g, height)
    requires 0 <= b.start && 0 <= b.width && b.start + b.width <= |g|
    ensures BandTree(f, k, g, height, 1, b) == g
    decreases b.width
  {
    if IsLeaf(f, b) {
      BandPassSingleCell(k, g, height, b.start, LeafEnd(b.start, b.width, 1));
    } else {
      SplitNarrower(f, b, 1);
      SplitInside(f, b, 1);
      BandTreeWindowOne(f, k, g, height, Right(b, 1));
      BandTreeWindowOne(f, k, g, height, Left(b));
    }
  }

  // ---------------------------------------------------------------------
  // The programs

  /** One task of the parallel filter: its band, the image height, and its
      own scratch window, allocated by the constructor. */
  class Task {
    const filter: Filter
    const width: int
    const height: int
    const start: int
    const windowArr: array2<Pixel>

    /** `new MeanFilterParallel(w, h, x)` / `new MedianFilterParallel(w, h, x)`. */
    constructor(filter: Filter, w: int, h: int, x: int, window: int)
      requires window >= 0
      ensures this.filter == filter && width == w && height == h && start == x
      ensures fresh(windowArr) && windowArr.Length0 == window && windowArr.Length1 == window
    {
      this.filter := filter;
      width := w;
      height := h;
      start := x;
      windowArr := new Pixel[window, window];
    }

    /** `compute()`: run the leaf loops on narrow bands, otherwise split
        and run the right child, then the left child, in place on `pixels`. */
    method Compute(ghost k: Square -> Pixel, pixels: array2<Pixel>, window: int, ghost g: Grid)
      requires pixels != windowArr && Holds(pixels, g) && height == pixels.Length1
      requires windowArr.Length0 == window && windowArr.Length1 == window
      requires Finishes(filter, window, Band(start, width)) && (filter == Mean ==> TotalsFit(window)) && Computes(filter, k)
      requires 0 <= start && 0 <= width && start + width <= pixels.Length0
      modifies pixels, windowArr
      ensures Holds(pixels, BandTree(filter, k, g, height, window, Band(start, width)))
      decreases width
    {
      if width < Threshold(filter) {
        Traverse(filter, k, pixels, windowArr, window, start, width, g);
      } else {
        var split := width / 2;
        var leftWidth := split + 3;
        var rightWidth := width - (split + 1) + (window - 1) + 3;
        var left := new Task(filter, leftWidth, height, start + 0, window);
        var right := new Task(filter, rightWidth, height, start + (split - window) - 1, window);
        ghost var b := Band(start, width);
        SplitNarrower(filter, b, window);
        SplitInside(filter, b, window);
        assert left.width == Left(b).width && right.width == Right(b, window).width;
        assert left.start == Left(b).start && right.start == Right(b, window).start;
        right.Compute(k, pixels, window, g);
        ghost var afterRight := BandTree(filter, k, g, height, window, Right(b, window));
        left.Compute(k, pixels, window, afterRight);
        assert BandTree(filter, k, g, height, window, b) == BandTree(filter, k, afterRight, height, window, Left(b));
      }
    }
  }

  /** The serial `mean(inputImage)` / `median(inputImage)` on the loaded pixels. */
  method Serial(f: Filter, pixels: array2<Pixel>, window: int, ghost g: Grid)
    requires Holds(pixels, g) && window >= 1 && (f == Mean ==> TotalsFit(window))
    modifies pixels
    ensures Holds(pixels, SerialPass(Kernel(f), g, pixels.Length1, window))
  {
    var windowArr := new Pixel[window, window];
    KernelComputes(f);
    Traverse(f, Kernel(f), pixels, windowArr, window, 0, pixels.Length0, g);
  }

  /** The parallel `mean`/`median`: `pool.invoke` on the root task, which
      covers the whole image. */
  method Parallel(f: Filter, pixels: array2<Pixel>, window: int, ghost g: Grid)
    requires Holds(pixels, g) && Finishes(f, window, Band(0, pixels.Length0)) && (f == Mean ==> TotalsFit(window))
    modifies pixels
    ensures Holds(pixels, BandTree(f, Kernel(f), g, pixels.Length1, window, Band(0, pixels.Length0)))
  {
    var root := new Task(f, pixels.Length0, pixels.Length1, 0, window);
    KernelComputes(f);
    root.Compute(Kernel(f), pixels, window, g);
  }

  datatype Outcome = Filtered | InvalidWindow

  /** `main` after reading the arguments: refuse an invalid window before
      the image is touched, otherwise filter it. */
  method Run(f: Filter, parallel: bool, window: int, pixels: array2<Pixel>, ghost g: Grid) returns (outcome: Outcome)
    requires Holds(pixels, g)
    requires ValidWindow(window) && f == Mean ==> TotalsFit(window)
    requires ValidWindow(window) && parallel ==> Finishes(f, window, Band(0, pixels.Length0))
    modifies pixels
    ensures outcome == InvalidWindow <==> !ValidWindow(window)
    ensures outcome == InvalidWindow ==> Holds(pixels, g)
    ensures outcome == Filtered && !parallel ==> Holds(pixels, SerialPass(Kernel(f), g, pixels.Length1, window))
    ensures outcome == Filtered && parallel ==>
              Holds(pixels, BandTree(f, Kernel(f), g, pixels.Length1, window, Band(0, pixels.Length0)))
  {
    if window < 1 || JavaRem(window, 2) == 0 {
      return InvalidWindow;
    }
    if parallel {
      Parallel(f, pixels, window, g);
    } else {
      Serial(f, pixels, window, g);
    }
    outcome := Filtered;
  }
}
