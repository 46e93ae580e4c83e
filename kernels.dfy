/** The per-window aggregators, `calculate(middle)` in each filter: the
    truncating mean and the sorted median of each colour channel over the
    `window x window` neighbourhood, with the alpha byte taken from the
    centre cell and the four bytes packed back into one pixel. */
module Kernels {
  import opened Pixels
  import opened Raster
  import opened Sorting
  import opened WindowConfig

  datatype Filter = Mean | Median

  /** The cells of a window in the order `calculate` visits them:
      `w[0][0], w[0][1], ..., w[1][0], ...`. */
  function Flatten(w: Grid): seq<Pixel>
  {
    if w == [] then [] else Flatten(w[..|w| - 1]) + w[|w| - 1]
  }

  /** One channel of each cell, as the `int`s the filters add up or sort. */
  function Levels(cs: seq<Pixel>, c: Channel): seq<int>
  {
    seq(|cs|, t requires 0 <= t < |cs| => Level(cs[t], c))
  }

  function Sum(vs: seq<int>): int
  {
    if vs == [] then 0 else Sum(vs[..|vs| - 1]) + vs[|vs| - 1]
  }

  /** Every value lies in `[lo, hi]`. */
  predicate Within(vs: seq<int>, lo: int, hi: int)
  {
    forall e :: e in vs ==> lo <= e <= hi
  }

  /** `total / (window*window)`: the totals are never negative, so Java's
      truncating division and Dafny's agree. */
  function ChannelMean(vs: seq<int>): int
    requires |vs| > 0
  {
    Sum(vs) / |vs|
  }

  /** The element at index `|vs| / 2` of the ascending sort; it is one of
      the values. */
  function ChannelMedian(vs: seq<int>): (v: int)
    requires |vs| > 0
    ensures v in vs
  {
    var sorted := Sort(vs);
    assert sorted[|vs| / 2] in multiset(sorted);
    sorted[|vs| / 2]
  }

  /** The aggregate of one colour channel. */
  function Combine(f: Filter, vs: seq<int>): int
    requires |vs| > 0
  {
    match f
    case Mean => ChannelMean(vs)
    case Median => ChannelMedian(vs)
  }

  /** One byte of `calculate(middle)`'s result: alpha from the centre cell,
      each colour channel aggregated over the window. */
  function ChannelOut(f: Filter, w: Grid, middle: int, c: Channel): Byte
    requires IsSquare(w) && 0 <= middle < |w|
  {
    if c == Alpha then
      Component(w[middle][middle], Alpha)
    else
      var vs := Levels(Flatten(w), c);
      FlattenLength(w, |w|);
      LevelsInRange(Flatten(w), c);
      CombineWithin(f, vs, 0, 255);
      Combine(f, vs) as Byte
  }

  /** `calculate(middle)` on the window `w`. */
  function Aggregate(f: Filter, w: Grid, middle: int): Pixel
    requires IsSquare(w) && 0 <= middle < |w|
  {
    Pack(ChannelOut(f, w, middle, Alpha), ChannelOut(f, w, middle, Red),
         ChannelOut(f, w, middle, Green), ChannelOut(f, w, middle, Blue))
  }

  /** A uniform window: every cell holds `p`. */
  predicate IsUniform(w: Grid, p: Pixel)
  {
    forall k, m :: 0 <= k < |w| && 0 <= m < |w[k]| ==> w[k][m] == p
  }

  /** A non-empty square window, the shape every `windowArr` has. */
  type Square = w: Grid | IsSquare(w) && |w| >= 1 witness [[0]]

  /** The filter's `calculate(middle)`, with `middle = window / 2`, as a
      function of the window contents. */
  function Kernel(f: Filter): Square -> Pixel
  {
    (w: Square) => Aggregate(f, w, Middle(|w|))
  }

  /** `k` is the kernel of filter `f`: on every window it returns what
      `calculate(middle)` returns. */
  ghost predicate Computes(f: Filter, k: Square -> Pixel)
  {
    forall w: Square, middle: int :: middle == Middle(|w|) ==> Aggregate(f, w, middle) == k(w)
  }

  /** `Kernel(f)` is the kernel of `f`. */
  lemma KernelComputes(f: Filter)
    ensures Computes(f, Kernel(f))
  {
  }

  /** The alpha byte of a window's centre cell. */
  function CentreAlpha(w: Square): Byte
  {
    Component(w[Middle(|w|)][Middle(|w|)], Alpha)
  }

  /** A kernel whose output carries the centre cell's alpha byte. */
  ghost predicate KeepsCentreAlpha(k: Square -> Pixel)
  {
    forall w: Square {:trigger CentreAlpha(w)} :: Component(k(w), Alpha) == CentreAlpha(w)
  }

  /** A kernel that maps a window of one colour to that colour. */
  ghost predicate FixesUniform(k: Square -> Pixel)
  {
    forall w: Square, p: Pixel :: IsUniform(w, p) ==> k(w) == p
  }

  // ---------------------------------------------------------------------
  // What `calculate` promises

  /** Both aggregates stay within any bounds of the values: the mean
      because the total lies between `n * lo` and `n * hi`, the median
      because it is one of the values. In particular each lies between the
      channel's minimum and maximum in the window. */
  lemma CombineWithin(f: Filter, vs: seq<int>, lo: int, hi: int)
    requires |vs| > 0 && Within(vs, lo, hi)
    ensures lo <= Combine(f, vs) <= hi
  {
    match f
    case Mean =>
      SumBounds(vs, lo, hi);
      DivBetween(Sum(vs), |vs|, lo, hi);
    case Median =>
  }

  /** The output's alpha byte is the centre cell's alpha byte. */
  lemma AggregateKeepsAlpha(f: Filter, w: Grid, middle: int)
    requires IsSquare(w) && 0 <= middle < |w|
    ensures Component(Aggregate(f, w, middle), Alpha) == Component(w[middle][middle], Alpha)
  {
    AggregateUnpacks(f, w, middle);
  }

  /** Unpacking a colour channel of the output gives, bit-exact, that
      channel's aggregate over the window values. */
  lemma AggregateChannel(f: Filter, w: Grid, middle: int, c: Channel)
    requires IsSquare(w) && 0 <= middle < |w| && c != Alpha
    ensures |Levels(Flatten(w), c)| == |w| * |w| > 0
    ensures Level(Aggregate(f, w, middle), c) == Combine(f, Levels(Flatten(w), c))
  {
    FlattenLength(w, |w|);
    LevelsInRange(Flatten(w), c);
    CombineWithin(f, Levels(Flatten(w), c), 0, 255);
    AggregateUnpacks(f, w, middle);
    ByteRoundTrip(Combine(f, Levels(Flatten(w), c)));
  }

  /** Mean filter: each colour channel is the channel total over the
      `window * window` cells divided by their number, truncated. */
  lemma MeanChannel(w: Grid, middle: int, c: Channel)
    requires IsSquare(w) && 0 <= middle < |w| && c != Alpha
    ensures |Levels(Flatten(w), c)| == |w| * |w| > 0
    ensures Level(Aggregate(Mean, w, middle), c) == Sum(Levels(Flatten(w), c)) / |Levels(Flatten(w), c)|
  {
    AggregateChannel(Mean, w, middle, c);
  }

  /** Both filters: each colour channel of the output lies within any bounds
      of that channel's values in the window (so between their minimum and
      maximum, and never above 255). */
  lemma AggregateWithin(f: Filter, w: Grid, middle: int, c: Channel, lo: int, hi: int)
    requires IsSquare(w) && 0 <= middle < |w| && c != Alpha
    requires Within(Levels(Flatten(w), c), lo, hi)
    ensures lo <= Level(Aggregate(f, w, middle), c) <= hi
  {
    AggregateChannel(f, w, middle, c);
    CombineWithin(f, Levels(Flatten(w), c), lo, hi);
  }

  /** Median filter: each colour channel is the element at index
      `window*window / 2` of that channel's sorted window values, and is one
      of those values. */
  lemma MedianChannel(w: Grid, middle: int, c: Channel)
    requires IsSquare(w) && 0 <= middle < |w| && c != Alpha
    ensures |Levels(Flatten(w), c)| == |w| * |w| > 0
    ensures Level(Aggregate(Median, w, middle), c) == Sort(Levels(Flatten(w), c))[|w| * |w| / 2]
    ensures Level(Aggregate(Median, w, middle), c) in Levels(Flatten(w), c)
  {
    AggregateChannel(Median, w, middle, c);
  }

  /** The median has rank `|vs| / 2`: the first `|vs| / 2 + 1` sorted values
      are window values (counted with repetitions) no larger than it, and the
      last `|vs| - |vs| / 2` are window values no smaller than it. For the odd
      counts a valid window gives, both numbers are `|vs| / 2 + 1`. */
  lemma MedianRank(vs: seq<int>)
    requires |vs| > 0
    ensures multiset(Sort(vs)[..|vs| / 2 + 1]) <= multiset(vs)
    ensures forall t :: 0 <= t <= |vs| / 2 ==> Sort(vs)[t] <= ChannelMedian(vs)
    ensures multiset(Sort(vs)[|vs| / 2..]) <= multiset(vs)
    ensures forall t :: |vs| / 2 <= t < |vs| ==> ChannelMedian(vs) <= Sort(vs)[t]
  {
    MedianRankLow(vs);
    MedianRankHigh(vs);
  }

  /** The lower half of `MedianRank`. */
  lemma MedianRankLow(vs: seq<int>)
    requires |vs| > 0
    ensures multiset(Sort(vs)[..|vs| / 2 + 1]) <= multiset(vs)
    ensures forall t :: 0 <= t <= |vs| / 2 ==> Sort(vs)[t] <= ChannelMedian(vs)
  {
    var sorted, k := Sort(vs), |vs| / 2;
    assert ChannelMedian(vs) == sorted[k];
    SortedPrefix(sorted, k);
  }

  /** The upper half of `MedianRank`. */
  lemma MedianRankHigh(vs: seq<int>)
    requires |vs| > 0
    ensures multiset(Sort(vs)[|vs| / 2..]) <= multiset(vs)
    ensures forall t :: |vs| / 2 <= t < |vs| ==> ChannelMedian(vs) <= Sort(vs)[t]
  {
    var sorted, k := Sort(vs), |vs| / 2;
    assert ChannelMedian(vs) == sorted[k];
    SortedSuffix(sorted, k);
  }

  /** A window whose cells all share one colour yields that colour. */
  lemma AggregateUniform(f: Filter, w: Grid, middle: int, p: Pixel)
    requires IsSquare(w) && 0 <= middle < |w|
    requires IsUniform(w, p)
    ensures Aggregate(f, w, middle) == p
  {
    forall c ensures ChannelOut(f, w, middle, c) == Component(p, c) {
      ChannelOutUniform(f, w, middle, p, c);
    }
    PackUnpack(p);
  }

  /** A one-cell window (`window == 1`) gives back its pixel. */
  lemma AggregateSingleCell(f: Filter, w: Grid)
    requires IsSquare(w) && |w| == 1
    ensures Aggregate(f, w, 0) == w[0][0]
  {
    AggregateUniform(f, w, 0, w[0][0]);
  }

  /** Both filters keep the centre cell's alpha byte. */
  lemma KernelKeepsAlpha(f: Filter)
    ensures KeepsCentreAlpha(Kernel(f))
  {
    forall w: Square ensures Component(Kernel(f)(w), Alpha) == CentreAlpha(w) {
      AggregateKeepsAlpha(f, w, Middle(|w|));
    }
  }

  /** Both filters map a window of one colour to that colour. */
  lemma KernelFixesUniform(f: Filter)
    ensures FixesUniform(Kernel(f))
  {
    forall w: Square, p: Pixel | IsUniform(w, p) ensures Kernel(f)(w) == p {
      AggregateUniform(f, w, Middle(|w|), p);
    }
  }

  /** Under `TotalsFit`, a channel total of the whole window lies in
      `[0, 2^31 - 1]`: the running `int` totals of the mean filter never wrap
      around, so the unbounded sums of the model are the totals Java holds. */
  lemma TotalsFitInt(w: Grid, c: Channel)
    requires IsSquare(w) && TotalsFit(|w|)
    ensures 0 <= Sum(Levels(Flatten(w), c)) <= 0x7FFF_FFFF
  {
    FlattenLength(w, |w|);
    LevelsInRange(Flatten(w), c);
    SumBounds(Levels(Flatten(w), c), 0, 255);
  }

  // ---------------------------------------------------------------------
  // The imperative `calculate` methods, over the scratch array

  /** `MeanFilter*.calculate`: accumulate the three channel totals in the
      nested loops, divide by `window * window`, pack with the centre alpha. */
  method MeanCalculate(windowArr: array2<Pixel>, window: int, middle: int, ghost w: Grid) returns (pixelValue: Pixel)
    requires window >= 1 && windowArr.Length0 == window && windowArr.Length1 == window
    requires Holds(windowArr, w)
    requires 0 <= middle < window
    requires TotalsFit(window)
    ensures pixelValue == Aggregate(Mean, w, middle)
  {
    var redTotal, greenTotal, blueTotal := 0, 0, 0;
    var i := 0;
    while i < window
      invariant 0 <= i <= window
      invariant redTotal == Sum(Levels(Flatten(w[..i]), Red))
      invariant greenTotal == Sum(Levels(Flatten(w[..i]), Green))
      invariant blueTotal == Sum(Levels(Flatten(w[..i]), Blue))
    {
      redTotal, greenTotal, blueTotal := AddRow(windowArr, window, i, redTotal, greenTotal, blueTotal, w);
      i := i + 1;
    }
    assert w[..window] == w;
    FlattenLength(w, window);
    var alphaValue := Component(windowArr[middle, middle], Alpha);
    var redAverage := redTotal / (window * window);
    var greenAverage := greenTotal / (window * window);
    var blueAverage := blueTotal / (window * window);
    MeanResult(w, middle, redAverage, greenAverage, blueAverage);
    pixelValue := Pack(alphaValue, redAverage as Byte, greenAverage as Byte, blueAverage as Byte);
  }

  /** The inner loop of `MeanFilter*.calculate` over row `i` of the window:
      each cell's channels added to the running totals. */
  method AddRow(windowArr: array2<Pixel>, window: int, i: int, red: int, green: int, blue: int, ghost w: Grid)
    returns (redTotal: int, greenTotal: int, blueTotal: int)
    requires window >= 1 && windowArr.Length0 == window && windowArr.Length1 == window
    requires Holds(windowArr, w) && 0 <= i < window
    requires red == Sum(Levels(Flatten(w[..i]), Red))
    requires green == Sum(Levels(Flatten(w[..i]), Green))
    requires blue == Sum(Levels(Flatten(w[..i]), Blue))
    ensures redTotal == Sum(Levels(Flatten(w[..i + 1]), Red))
    ensures greenTotal == Sum(Levels(Flatten(w[..i + 1]), Green))
    ensures blueTotal == Sum(Levels(Flatten(w[..i + 1]), Blue))
  {
    VisitedStart(w, i);
    redTotal, greenTotal, blueTotal := red, green, blue;
    var j := 0;
    while j < window
      invariant 0 <= j <= window
      invariant redTotal == Sum(Levels(Visited(w, i, j), Red))
      invariant greenTotal == Sum(Levels(Visited(w, i, j), Green))
      invariant blueTotal == Sum(Levels(Visited(w, i, j), Blue))
    {
      redTotal, greenTotal, blueTotal := AddCell(windowArr, window, i, j, redTotal, greenTotal, blueTotal, w);
      j := j + 1;
    }
    VisitedRow(w, i);
    ghost var row := Visited(w, i, j);
    assert row == Flatten(w[..i + 1]);
    assert redTotal == Sum(Levels(row, Red));
    assert greenTotal == Sum(Levels(row, Green));
    assert blueTotal == Sum(Levels(row, Blue));
  }

  /** `MedianFilter*.calculate`: copy each channel into its own array, sort
      the three arrays, take index `window*window / 2`, pack with the centre
      alpha. */
  method MedianCalculate(windowArr: array2<Pixel>, window: int, middle: int, ghost w: Grid) returns (pixelValue: Pixel)
    requires window >= 1 && windowArr.Length0 == window && windowArr.Length1 == window
    requires Holds(windowArr, w)
    requires 0 <= middle < window
    ensures pixelValue == Aggregate(Median, w, middle)
  {
    ghost var flat := Flatten(w);
    var reds, greens, blues := Gather(windowArr, window, w);
    SortArray(reds);
    SortArray(greens);
    SortArray(blues);
    FlattenLength(w, window);
    var middleNum := (window * window) / 2;
    var alphaValue := Component(windowArr[middle, middle], Alpha);
    var redValue := reds[middleNum];
    var greenValue := greens[middleNum];
    var blueValue := blues[middleNum];
    assert redValue == Sort(Levels(flat, Red))[middleNum];
    assert greenValue == Sort(Levels(flat, Green))[middleNum];
    assert blueValue == Sort(Levels(flat, Blue))[middleNum];
    MedianResult(w, middle, redValue, greenValue, blueValue);
    pixelValue := Pack(alphaValue, redValue as Byte, greenValue as Byte, blueValue as Byte);
  }

  /** The body of the inner loop of `MeanFilter*.calculate`: cell `(i, j)`'s
      channels added to the running totals. */
  method AddCell(windowArr: array2<Pixel>, window: int, i: int, j: int, red: int, green: int, blue: int, ghost w: Grid)
    returns (redTotal: int, greenTotal: int, blueTotal: int)
    requires window >= 1 && windowArr.Length0 == window && windowArr.Length1 == window
    requires Holds(windowArr, w) && 0 <= i < window && 0 <= j < window
    requires red == Sum(Levels(Visited(w, i, j), Red))
    requires green == Sum(Levels(Visited(w, i, j), Green))
    requires blue == Sum(Levels(Visited(w, i, j), Blue))
    ensures redTotal == Sum(Levels(Visited(w, i, j + 1), Red))
    ensures greenTotal == Sum(Levels(Visited(w, i, j + 1), Green))
    ensures blueTotal == Sum(Levels(Visited(w, i, j + 1), Blue))
  {
    var pixel := windowArr[i, j];
    assert pixel == w[i][j];
    TotalStep(w, i, j, Red);
    TotalStep(w, i, j, Green);
    TotalStep(w, i, j, Blue);
    redTotal := red + Level(pixel, Red);
    greenTotal := green + Level(pixel, Green);
    blueTotal := blue + Level(pixel, Blue);
  }

  /** The nested loops of `MedianFilter*.calculate`: each channel of the
      window, row by row, stored into its own `window * window` array at the
      running index `num`. */
  method Gather(windowArr: array2<Pixel>, window: int, ghost w: Grid) returns (reds: array<int>, greens: array<int>, blues: array<int>)
    requires window >= 1 && windowArr.Length0 == window && windowArr.Length1 == window
    requires Holds(windowArr, w)
    ensures fresh(reds) && fresh(greens) && fresh(blues)
    ensures reds != greens && greens != blues && reds != blues
    ensures reds[..] == Levels(Flatten(w), Red)
    ensures greens[..] == Levels(Flatten(w), Green)
    ensures blues[..] == Levels(Flatten(w), Blue)
  {
    reds := new int[window * window];
    greens := new int[window * window];
    blues := new int[window * window];
    var num := 0;
    var i := 0;
    while i < window
      invariant 0 <= i <= window
      invariant 0 <= num <= reds.Length
      invariant reds[..num] == Levels(Flatten(w[..i]), Red)
      invariant greens[..num] == Levels(Flatten(w[..i]), Green)
      invariant blues[..num] == Levels(Flatten(w[..i]), Blue)
    {
      num := GatherRow(windowArr, window, i, num, reds, greens, blues, w);
      i := i + 1;
    }
    assert w[..window] == w;
    FlattenLength(w, window);
    assert |Levels(Flatten(w), Red)| == window * window;
    assert reds[..] == reds[..num] && greens[..] == greens[..num] && blues[..] == blues[..num];
  }

  /** The inner loop of `Gather`, over row `i` of the window. */
  method GatherRow(windowArr: array2<Pixel>, window: int, i: int, num: int,
                   reds: array<int>, greens: array<int>, blues: array<int>, ghost w: Grid) returns (next: int)
    requires window >= 1 && windowArr.Length0 == window && windowArr.Length1 == window
    requires Holds(windowArr, w)
    requires 0 <= i < window
    requires reds != greens && greens != blues && reds != blues
    requires reds.Length == greens.Length == blues.Length == window * window
    requires 0 <= num <= reds.Length
    requires reds[..num] == Levels(Flatten(w[..i]), Red)
    requires greens[..num] == Levels(Flatten(w[..i]), Green)
    requires blues[..num] == Levels(Flatten(w[..i]), Blue)
    modifies reds, greens, blues
    ensures 0 <= next <= reds.Length
    ensures reds[..next] == Levels(Flatten(w[..i + 1]), Red)
    ensures greens[..next] == Levels(Flatten(w[..i + 1]), Green)
    ensures blues[..next] == Levels(Flatten(w[..i + 1]), Blue)
  {
    VisitedStart(w, i);
    next := num;
    var j := 0;
    while j < window
      invariant 0 <= j <= window
      invariant 0 <= next <= reds.Length
      invariant reds[..next] == Levels(Visited(w, i, j), Red)
      invariant greens[..next] == Levels(Visited(w, i, j), Green)
      invariant blues[..next] == Levels(Visited(w, i, j), Blue)
    {
      VisitedBound(w, i, j);
      GatherCell(windowArr, window, i, j, next, reds, greens, blues, w);
      next := next + 1;
      j := j + 1;
    }
    VisitedRow(w, i);
    PrefixBound(w, i + 1);
  }

  /** The body of the inner loop of `Gather`: cell `(i, j)`'s channels stored
      at the running index `num`. */
  method GatherCell(windowArr: array2<Pixel>, window: int, i: int, j: int, num: int,
                    reds: array<int>, greens: array<int>, blues: array<int>, ghost w: Grid)
    requires window >= 1 && windowArr.Length0 == window && windowArr.Length1 == window
    requires Holds(windowArr, w)
    requires 0 <= i < window && 0 <= j < window
    requires reds != greens && greens != blues && reds != blues
    requires reds.Length == greens.Length == blues.Length
    requires 0 <= num < reds.Length
    requires reds[..num] == Levels(Visited(w, i, j), Red)
    requires greens[..num] == Levels(Visited(w, i, j), Green)
    requires blues[..num] == Levels(Visited(w, i, j), Blue)
    modifies reds, greens, blues
    ensures reds[..num + 1] == Levels(Visited(w, i, j + 1), Red)
    ensures greens[..num + 1] == Levels(Visited(w, i, j + 1), Green)
    ensures blues[..num + 1] == Levels(Visited(w, i, j + 1), Blue)
  {
    var pixel := windowArr[i, j];
    assert pixel == w[i][j];
    LevelsStep(w, i, j);
    Record(reds, num, Level(pixel, Red), Levels(Visited(w, i, j), Red));
    Record(greens, num, Level(pixel, Green), Levels(Visited(w, i, j), Green));
    Record(blues, num, Level(pixel, Blue), Levels(Visited(w, i, j), Blue));
  }

  /** One store `values[num] = v` at the running index: the recorded prefix
      grows by `v`. */
  method Record(values: array<int>, num: int, v: int, ghost recorded: seq<int>)
    requires 0 <= num < values.Length && values[..num] == recorded
    modifies values
    ensures values[..num + 1] == recorded + [v]
  {
    values[num] := v;
    assert values[..num + 1] == values[..num] + [v];
  }

  /** The aggregator a filter uses. */
  method Calculate(f: Filter, windowArr: array2<Pixel>, window: int, middle: int, ghost w: Grid) returns (pixelValue: Pixel)
    requires window >= 1 && windowArr.Length0 == window && windowArr.Length1 == window
    requires Holds(windowArr, w)
    requires 0 <= middle < window
    requires f == Mean ==> TotalsFit(window)
    ensures pixelValue == Aggregate(f, w, middle)
  {
    match f
    case Mean => pixelValue := MeanCalculate(windowArr, window, middle, w);
    case Median => pixelValue := MedianCalculate(windowArr, window, middle, w);
  }

  // ---------------------------------------------------------------------
  // Helpers

  /** The cells the nested loops have visited before cell `(i, j)`. */
  function Visited(w: Grid, i: int, j: int): seq<Pixel>
    requires 0 <= i < |w| && 0 <= j <= |w[i]|
  {
    Flatten(w[..i]) + w[i][..j]
  }

  lemma VisitedBound(w: Grid, i: int, j: int)
    requires IsSquare(w) && 0 <= i < |w| && 0 <= j < |w|
    ensures |Visited(w, i, j)| < |w| * |w|
  {
    FlattenLength(w[..i], |w|);
    CellIndexBound(i, j, |w|);
  }

  lemma PrefixBound(w: Grid, i: int)
    requires IsSquare(w) && 0 <= i <= |w|
    ensures |Flatten(w[..i])| <= |w| * |w|
  {
    FlattenLength(w[..i], |w|);
    MulLe(i, |w|, |w|);
  }

  lemma VisitedStart(w: Grid, i: int)
    requires 0 <= i < |w|
    ensures Visited(w, i, 0) == Flatten(w[..i])
  {
    assert w[i][..0] == [];
  }

  lemma VisitedStep(w: Grid, i: int, j: int)
    requires 0 <= i < |w| && 0 <= j < |w[i]|
    ensures Visited(w, i, j + 1) == Visited(w, i, j) + [w[i][j]]
  {
    assert w[i][..j + 1] == w[i][..j] + [w[i][j]];
  }

  lemma VisitedRow(w: Grid, i: int)
    requires 0 <= i < |w|
    ensures Visited(w, i, |w[i]|) == Flatten(w[..i + 1])
  {
    assert w[i][..|w[i]|] == w[i];
    assert w[..i + 1][..i] == w[..i];
  }

  lemma TotalStep(w: Grid, i: int, j: int, c: Channel)
    requires 0 <= i < |w| && 0 <= j < |w[i]|
    ensures Sum(Levels(Visited(w, i, j + 1), c)) == Sum(Levels(Visited(w, i, j), c)) + Level(w[i][j], c)
  {
    LevelsStep(w, i, j);
    SumAppend(Levels(Visited(w, i, j), c), Level(w[i][j], c));
  }

  lemma LevelsStep(w: Grid, i: int, j: int)
    requires 0 <= i < |w| && 0 <= j < |w[i]|
    ensures forall c :: Levels(Visited(w, i, j + 1), c) == Levels(Visited(w, i, j), c) + [Level(w[i][j], c)]
  {
    VisitedStep(w, i, j);
    forall c ensures Levels(Visited(w, i, j + 1), c) == Levels(Visited(w, i, j), c) + [Level(w[i][j], c)] {
      LevelsAppend(Visited(w, i, j), w[i][j], c);
    }
  }

  /** The three averages the mean loop computes are the aggregate's channels. */
  lemma MeanResult(w: Grid, middle: int, r: int, g: int, b: int)
    requires IsSquare(w) && 0 <= middle < |w| && |Flatten(w)| == |w| * |w|
    requires r == Sum(Levels(Flatten(w), Red)) / (|w| * |w|)
    requires g == Sum(Levels(Flatten(w), Green)) / (|w| * |w|)
    requires b == Sum(Levels(Flatten(w), Blue)) / (|w| * |w|)
    ensures 0 <= r < 256 && 0 <= g < 256 && 0 <= b < 256
    ensures Pack(Component(w[middle][middle], Alpha), r as Byte, g as Byte, b as Byte)
         == Aggregate(Mean, w, middle)
  {
    ChannelOutIs(Mean, w, middle, Red, r);
    ChannelOutIs(Mean, w, middle, Green, g);
    ChannelOutIs(Mean, w, middle, Blue, b);
  }

  /** The three sorted middle elements the median loop picks are the aggregate's channels. */
  lemma MedianResult(w: Grid, middle: int, r: int, g: int, b: int)
    requires IsSquare(w) && 0 <= middle < |w| && |Flatten(w)| == |w| * |w|
    requires r == Sort(Levels(Flatten(w), Red))[|w| * |w| / 2]
    requires g == Sort(Levels(Flatten(w), Green))[|w| * |w| / 2]
    requires b == Sort(Levels(Flatten(w), Blue))[|w| * |w| / 2]
    ensures 0 <= r < 256 && 0 <= g < 256 && 0 <= b < 256
    ensures Pack(Component(w[middle][middle], Alpha), r as Byte, g as Byte, b as Byte)
         == Aggregate(Median, w, middle)
  {
    ChannelOutIs(Median, w, middle, Red, r);
    ChannelOutIs(Median, w, middle, Green, g);
    ChannelOutIs(Median, w, middle, Blue, b);
  }

  lemma ChannelOutIs(f: Filter, w: Grid, middle: int, c: Channel, v: int)
    requires IsSquare(w) && 0 <= middle < |w| && c != Alpha
    requires |Flatten(w)| > 0 && v == Combine(f, Levels(Flatten(w), c))
    ensures 0 <= v < 256 && ChannelOut(f, w, middle, c) == v as Byte
  {
    LevelsInRange(Flatten(w), c);
    CombineWithin(f, Levels(Flatten(w), c), 0, 255);
  }

  lemma ChannelOutUniform(f: Filter, w: Grid, middle: int, p: Pixel, c: Channel)
    requires IsSquare(w) && 0 <= middle < |w|
    requires IsUniform(w, p)
    ensures ChannelOut(f, w, middle, c) == Component(p, c)
  {
    if c != Alpha {
      var cs := Flatten(w);
      FlattenLength(w, |w|);
      FlattenUniform(w, p);
      var vs := Levels(cs, c);
      forall e | e in vs ensures e == Level(p, c) {
        var t :| 0 <= t < |vs| && vs[t] == e;
        assert cs[t] in cs;
      }
      CombineWithin(f, vs, Level(p, c), Level(p, c));
      LevelAsByte(p, c);
    }
  }

  lemma AggregateUnpacks(f: Filter, w: Grid, middle: int)
    requires IsSquare(w) && 0 <= middle < |w|
    ensures forall c :: Component(Aggregate(f, w, middle), c) == ChannelOut(f, w, middle, c)
  {
    UnpackPack(ChannelOut(f, w, middle, Alpha), ChannelOut(f, w, middle, Red),
               ChannelOut(f, w, middle, Green), ChannelOut(f, w, middle, Blue));
  }

  lemma {:induction false} FlattenLength(w: Grid, n: int)
    requires IsGrid(w, n)
    ensures |Flatten(w)| == |w| * n
  {
    if w != [] {
      var init := w[..|w| - 1];
      assert IsGrid(init, n);
      FlattenLength(init, n);
      assert |Flatten(w)| == |init| * n + n;
      MulSucc(|init|, n);
    }
  }

  lemma MulSucc(a: int, n: int)
    ensures (a + 1) * n == a * n + n
  {
  }

  /** Every cell of a uniform window, flattened, is the one colour. */
  lemma {:induction false} FlattenUniform(w: Grid, p: Pixel)
    requires IsUniform(w, p)
    ensures forall e :: e in Flatten(w) ==> e == p
  {
    if w != [] {
      FlattenUniform(w[..|w| - 1], p);
    }
  }

  lemma LevelsInRange(cs: seq<Pixel>, c: Channel)
    ensures Within(Levels(cs, c), 0, 255)
  {
  }

  lemma LevelsAppend(cs: seq<Pixel>, p: Pixel, c: Channel)
    ensures Levels(cs + [p], c) == Levels(cs, c) + [Level(p, c)]
  {
  }

  lemma SumAppend(vs: seq<int>, v: int)
    ensures Sum(vs + [v]) == Sum(vs) + v
  {
    assert (vs + [v])[..|vs|] == vs;
  }

  lemma {:induction false} SumBounds(vs: seq<int>, lo: int, hi: int)
    requires Within(vs, lo, hi)
    ensures |vs| * lo <= Sum(vs) <= |vs| * hi
  {
    if vs != [] {
      var init := vs[..|vs| - 1];
      assert forall e :: e in init ==> e in vs;
      SumBounds(init, lo, hi);
      assert vs[|vs| - 1] in vs;
      assert |vs| * lo == |init| * lo + lo;
      assert |vs| * hi == |init| * hi + hi;
    }
  }

  lemma MulLe(a: int, b: int, n: int)
    requires a <= b && n >= 0
    ensures a * n <= b * n
  {
  }

  lemma DivBetween(s: int, n: int, lo: int, hi: int)
    requires n > 0 && n * lo <= s <= n * hi
    ensures lo <= s / n <= hi
  {
    var q := s / n;
    assert s == q * n + s % n && 0 <= s % n < n;
    if q < lo {
      MulLe(q, lo - 1, n);
      assert false;
    }
    if q > hi {
      MulLe(hi + 1, q, n);
      assert false;
    }
  }

  lemma CellIndexBound(i: int, j: int, n: int)
    requires 0 <= i < n && 0 <= j < n
    ensures 0 <= i * n + j < n * n
  {
    MulLe(i, n - 1, n);
  }

  lemma SortedSuffix(s: seq<int>, k: int)
    requires 0 <= k < |s| && Sorted(s)
    ensures multiset(s[k..]) <= multiset(s)
    ensures forall t :: k <= t < |s| ==> s[k] <= s[t]
  {
    assert s == s[..k] + s[k..];
  }

  lemma SortedPrefix(s: seq<int>, k: int)
    requires 0 <= k < |s| && Sorted(s)
    ensures multiset(s[..k + 1]) <= multiset(s)
    ensures forall t :: 0 <= t <= k ==> s[t] <= s[k]
  {
    assert s == s[..k + 1] + s[k + 1..];
  }
}
