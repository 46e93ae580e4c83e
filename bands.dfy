/** The band arithmetic of the parallel `compute()`: a task owns the columns
    `[start, start + width)`; one narrower than the threshold runs the leaf
    loops, a wider one is cut into a left and a right child whose ranges
    overlap around the cut. */
module Bands {
  import opened Kernels

  /** One task's column range `[start, start + width)`. */
  datatype Band = Band(start: int, width: int)

  /** `THRESHOLD`: 500 columns for the mean filter, 300 for the median. */
  function Threshold(f: Filter): (t: int)
    ensures t > 0
  {
    match f
    case Mean => 500
    case Median => 300
  }

  /** `width < THRESHOLD`: a band this narrow runs the loops itself. */
  predicate IsLeaf(f: Filter, b: Band)
  {
    b.width < Threshold(f)
  }

  /** `split = width / 2` (the width is never negative here, so Java's
      truncating division agrees with Dafny's). */
  function Split(b: Band): int
  {
    b.width / 2
  }

  /** `new ...(split + 3, height, start + 0)`. */
  function Left(b: Band): Band
  {
    Band(b.start + 0, Split(b) + 3)
  }

  /** `new ...(width - (split+1) + (window-1) + 3, height, start + (split - window) - 1)`. */
  function Right(b: Band, n: int): Band
  {
    Band(b.start + (Split(b) - n) - 1, b.width - (Split(b) + 1) + (n - 1) + 3)
  }

  /** The window sizes for which every split makes both children narrower:
      `2 * window + 4 <= THRESHOLD`, that is `window <= 248` for the mean
      filter and `window <= 148` for the median. */
  predicate SplitSafe(f: Filter, n: int)
  {
    n >= 1 && 2 * n + 4 <= Threshold(f)
  }

  /** The bands on which `compute()` finishes: a leaf runs its loops for any
      window; a wider band is split, which shrinks both children only when
      `SplitSafe` holds. */
  predicate Finishes(f: Filter, n: int, b: Band)
  {
    n >= 1 && (IsLeaf(f, b) || SplitSafe(f, n))
  }

  /** The bound in words: at most 248 for the mean filter, 148 for the median. */
  lemma SplitSafeWindows(n: int)
    ensures SplitSafe(Mean, n) <==> 1 <= n <= 248
    ensures SplitSafe(Median, n) <==> 1 <= n <= 148
  {
  }

  /** The integers `lo .. hi-1`. */
  function Range(lo: int, hi: int): (r: set<int>)
    ensures forall i :: i in r <==> lo <= i < hi
    decreases hi - lo
  {
    if hi <= lo then {} else Range(lo, hi - 1) + {hi - 1}
  }

  /** The columns `i` the leaf loops of a band would visit: `start <= i < start + width - window`.
      These are the windows' left edges; the written cells are `middle` further right. */
  function Columns(b: Band, n: int): set<int>
  {
    Range(b.start, b.start + b.width - n)
  }

  /** There are exactly `hi - lo` integers in `lo .. hi-1`. */
  lemma {:induction false} RangeSize(lo: int, hi: int)
    requires lo <= hi
    ensures |Range(lo, hi)| == hi - lo
    decreases hi - lo
  {
    if lo < hi {
      RangeSize(lo, hi - 1);
      assert hi - 1 !in Range(lo, hi - 1);
    }
  }

  // ---------------------------------------------------------------------
  // One split

  /** The right child ends where its parent ends, the left child starts
      where its parent starts and ends strictly inside it, and the right
      child starts to the right of the parent's start. Together: both
      children lie inside the parent, so a leaf's reads stay in the image. */
  lemma SplitInside(f: Filter, b: Band, n: int)
    requires SplitSafe(f, n) && !IsLeaf(f, b)
    ensures Right(b, n).start + Right(b, n).width == b.start + b.width
    ensures Left(b).start == b.start && Left(b).start + Left(b).width < b.start + b.width
    ensures b.start < Right(b, n).start
  {
  }

  /** Both children are strictly narrower than the parent and not empty:
      the recursion of `compute()` terminates. */
  lemma SplitNarrower(f: Filter, b: Band, n: int)
    requires SplitSafe(f, n) && !IsLeaf(f, b)
    ensures 0 < Left(b).width < b.width
    ensures 0 < Right(b, n).width < b.width
  {
  }

  /** Without the bound on the window the right child need not shrink:
      a 301-wide window on a 600-column median band gives a right child of
      602 columns, and the recursion never reaches a leaf. */
  lemma WideWindowGrows()
    ensures !IsLeaf(Median, Band(0, 600))
    ensures Right(Band(0, 600), 301).width > 600
  {
  }

  /** The two children's columns together are the parent's columns. */
  lemma SplitCovers(f: Filter, b: Band, n: int)
    requires SplitSafe(f, n) && !IsLeaf(f, b)
    ensures Columns(Left(b), n) + Columns(Right(b, n), n) == Columns(b, n)
  {
  }

  /** The children share exactly the four columns from the right child's start:
      both tasks filter these columns, so they are not disjoint. */
  lemma SplitOverlap(f: Filter, b: Band, n: int)
    requires SplitSafe(f, n) && !IsLeaf(f, b)
    ensures Columns(Left(b), n) * Columns(Right(b, n), n) == Range(Right(b, n).start, Right(b, n).start + 4)
    ensures |Columns(Left(b), n) * Columns(Right(b, n), n)| == 4
  {
    RangeSize(Right(b, n).start, Right(b, n).start + 4);
  }

  // ---------------------------------------------------------------------
  // The whole recursion

  /** The leaf bands of `compute()` in the order one worker runs them:
      `left.fork(); right.compute(); left.join();` runs the right child
      first and then, at the join, the forked left child. */
  function Leaves(f: Filter, b: Band, n: int): seq<Band>
    requires Finishes(f, n, b) && b.width >= 0
    decreases b.width
  {
    if IsLeaf(f, b) then [b]
    else
      SplitNarrower(f, b, n);
      Leaves(f, Right(b, n), n) + Leaves(f, Left(b), n)
  }

  /** The columns of a sequence of bands, together. */
  function Covered(bs: seq<Band>, n: int): set<int>
  {
    if bs == [] then {} else Covered(bs[..|bs| - 1], n) + Columns(bs[|bs| - 1], n)
  }

  lemma {:induction false} CoveredAppend(bs: seq<Band>, cs: seq<Band>, n: int)
    ensures Covered(bs + cs, n) == Covered(bs, n) + Covered(cs, n)
    decreases |cs|
  {
    if cs == [] {
      assert bs + cs == bs;
    } else {
      var last := cs[|cs| - 1];
      assert (bs + cs)[..|bs + cs| - 1] == bs + cs[..|cs| - 1];
      CoveredAppend(bs, cs[..|cs| - 1], n);
    }
  }

  /** The leaves cover the root's columns, no more and no less. */
  lemma {:induction false} LeavesCover(f: Filter, b: Band, n: int)
    requires Finishes(f, n, b) && b.width >= 0
    ensures Covered(Leaves(f, b, n), n) == Columns(b, n)
    decreases b.width
  {
    if IsLeaf(f, b) {
      assert Covered([b], n) == Covered([], n) + Columns(b, n);
    } else {
      SplitNarrower(f, b, n);
      LeavesCover(f, Right(b, n), n);
      LeavesCover(f, Left(b), n);
      CoveredAppend(Leaves(f, Right(b, n), n), Leaves(f, Left(b), n), n);
      SplitCovers(f, b, n);
    }
  }

  /** `lo <= b.start` and `b.start + b.width <= hi`. */
  predicate Inside(b: Band, lo: int, hi: int)
  {
    lo <= b.start && b.start + b.width <= hi
  }

  /** Every leaf is narrower than the threshold, is not empty unless the root
      is, and lies inside the root: with the root `Band(0, w)` the leaf loops
      read only columns of the image. */
  lemma {:induction false} LeavesInside(f: Filter, b: Band, n: int)
    requires Finishes(f, n, b) && b.width >= 0
    ensures forall l :: l in Leaves(f, b, n) ==>
              IsLeaf(f, l) && 0 <= l.width && Inside(l, b.start, b.start + b.width)
    decreases b.width
  {
    if !IsLeaf(f, b) {
      SplitNarrower(f, b, n);
      SplitInside(f, b, n);
      LeavesInside(f, Right(b, n), n);
      LeavesInside(f, Left(b), n);
    }
  }
}
