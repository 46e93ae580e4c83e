# Mean and median image filters — a Dafny model

The repository filters an image with a square sliding window, in four
versions. `MeanFilterSerial` and `MedianFilterSerial` are serial.
`MeanFilterParallel` and `MedianFilterParallel` are fork/join tasks.

- The image is an `int[width][height]` grid of packed ARGB pixels.
- For each window position `(i, j)`, the program copies the neighbourhood
  `pixels[i..i+window)[j..j+window)` into a scratch array `windowArr`.
- It then overwrites the centre cell `pixels[i+middle][j+middle]` with the
  result of `calculate(middle)`:
  - the mean filter takes the truncated mean of each colour channel;
  - the median filter takes the element at index `window*window/2` of each
    channel's ascending sort;
  - both copy the alpha byte of the centre cell.
- The writes go into the same grid the later windows read from.
- A parallel task narrower than `THRESHOLD` (500 for the mean, 300 for the
  median) runs these loops over its own columns. A wider task is cut into
  two overlapping children.

The model has eight modules, one file each:

| file | module | what it holds |
|---|---|---|
| `pixels.dfy` | `Pixels` | the packed 32-bit pixel (`bv32`): channel extraction `(p >> s) & 0xff`, and packing with shifts and ors |
| `config.dfy` | `WindowConfig` | the window check of `main`, Java's `%`, `middle = window / 2`, and the bound that keeps the mean's totals inside an `int` |
| `sorting.dfy` | `Sorting` | `Arrays.sort`: a reference insertion sort `Sort`, and a verified in-place sort of an `array<int>` against it |
| `raster.dfy` | `Raster` | grids as values (`seq<seq<Pixel>>`), the relation between an `array2` and the grid it holds, the window function, and the `k`/`m` copy loops |
| `kernels.dfy` | `Kernels` | `calculate(middle)`: a pure specification `Aggregate`, with its properties, and the two imperative `calculate` methods with their accumulation and fill loops, proved against it |
| `traversal.dfy` | `Traversal` | the in-place `i`/`j` loops over a band of columns, as `array2` methods, plus their specification (explained below) |
| `bands.dfy` | `Bands` | the band arithmetic of `compute()`: threshold, split, children, and the recursive list of leaf bands |
| `engine.dfy` | `Engine` | the recursion of `compute()` on the grid, the `Task` class (one instance of a parallel filter), the serial and parallel entry points, and the window check in front of them |

The traversal is specified as a fold of one `Step` per window position over
the evolving grid. The columns are the outer loop and the rows the inner
one. Each step reads its window from the grid as the previous steps left it.
This is the program's in-place, raster-order behaviour, not a convolution of
the input. `Traversal.WrittenValue` and `Traversal.NextWindowSeesWrite` state
this explicitly.

The traversal is generic over the per-window kernel `k`. The filters' kernel
is `Kernels.Kernel(f)`. The structural facts are proved once for any kernel
with the property in question: the frame, alpha preservation, uniform
images and `window == 1`. The filters are then shown to have those
properties (`Kernels.KernelKeepsAlpha`, `Kernels.KernelFixesUniform`).

The methods work on `array2<Pixel>`. Each takes a ghost grid `g` that the
array holds on entry, and ensures that on exit the array holds the
specification function applied to `g`.

The loops stop one window position early: `i < width - window` is
exclusive, so the last column and the last row of window positions are
never visited. The model keeps this bound (`Traversal.Rows`,
`Traversal.LeafEnd`). The parallel median's entry point
is named `mean` in `src/MedianFilterParallel.java:89`; it is modelled as
`Engine.Parallel` for both filters.

## Model

| member | source | states |
|---|---|---|
| Pixels.Component | src/MeanFilterSerial.java:126-128 | the byte `(p >> s) & 0xff` of a channel, with `s` 24, 16, 8 or 0; `Pixels.Level` bounds it and `Pixels.UnpackPack`/`Pixels.PackUnpack` prove it inverts `Pack` |
| Pixels.Pack | src/MeanFilterSerial.java:139 | the bitwise or of alpha shifted left by 24, red by 16, green by 8 and blue, on four bytes; its two round trips with `Component` are `Pixels.UnpackPack` and `Pixels.PackUnpack` |
| Pixels.Level | src/MeanFilterSerial.java:126-128 | a channel extracted with `>>` and `& 0xff` is an int in `[0, 255]` |
| Pixels.UnpackPack | src/MeanFilterSerial.java:139 | extracting each channel from the word packed by shifts and ors of `a`, `r`, `g`, `b` returns each of them unchanged |
| Pixels.PackUnpack | src/MedianFilterSerial.java:145-151 | repacking the four extracted bytes of a pixel gives back its exact bit pattern |
| WindowConfig.JavaDiv | src/MeanFilterSerial.java:33 | Java's `int` division, rounded toward zero: the quotient that `JavaRem`'s identity uses |
| WindowConfig.JavaRem | src/MeanFilterSerial.java:33 | Java's `%`: the truncated quotient times `b` plus the remainder is the dividend, and the remainder lies in `[0, b)` for a non-negative dividend and in `(-b, 0]` for a negative one; together these fix it (`-3 % 2 == -1`, `WindowConfig.JavaRemSamples`) |
| WindowConfig.JavaRemSamples | src/MeanFilterSerial.java:33 | `-3 % 2` is `-1` in Java where Dafny's `%` gives `1`; `3 % 2 == 1` and `-4 % 2 == 0` |
| WindowConfig.ValidWindow | src/MeanFilterSerial.java:33 | the negation of the check `window < 1` or `window % 2 == 0`, with Java's `%`; `WindowConfig.ValidWindowIsPositiveOdd` says what it accepts |
| WindowConfig.Middle | src/MeanFilterSerial.java:94 | `(int)Math.floor(window/2)` on a positive window; `WindowConfig.ValidWindowCentred` proves it is the centre |
| WindowConfig.ValidWindowIsPositiveOdd | src/MeanFilterSerial.java:33-37 | the check `window < 1 or window % 2 == 0` refuses exactly the rest: it accepts a window exactly when it is at least 1 and odd |
| WindowConfig.RejectedWindows | src/MedianFilterSerial.java:34-38 | windows 0, -3 and 4 are refused; 1 and 3 are accepted |
| WindowConfig.ValidWindowCentred | src/MedianFilterSerial.java:143 | for an accepted window, `middle` cells lie on each side of the centre, and `window*window` is odd, so index `window*window/2` is the true middle of the sorted values |
| WindowConfig.TotalsFitBound | src/MeanFilterSerial.java:117-128 | for accepted windows, `255 * window * window` fits in an `int` exactly when `window <= 2901` |
| Sorting.Insert | src/MedianFilterSerial.java:138-140 | inserting into a sorted sequence keeps it sorted and adds exactly that element to its multiset |
| Sorting.Sort | src/MedianFilterSerial.java:138-140 | the reference sort's result is ascending, with the same multiset and the same length as its input |
| Sorting.SortedUnique | src/MedianFilterParallel.java:145-147 | two ascending sequences with the same multiset are equal, so any correct sort gives the same array |
| Sorting.SortIsTheSortedPermutation | src/MedianFilterSerial.java:138-140 | every ascending permutation of `s` is `Sort(s)` |
| Sorting.SortArray | src/MedianFilterParallel.java:145-147 | the in-place sort leaves the array ascending, as a permutation of its old contents, and equal to `Sort` of them |
| Raster.Window | src/MeanFilterSerial.java:85-91 | the window at `(i, j)` is `n x n`, and its cell `[k][m]` is grid cell `[i+k][j+m]` |
| Raster.LoadWindow | src/MeanFilterParallel.java:165-171 | after the `k`/`m` loops, `windowArr` holds exactly the window of the current grid at `(i, j)` |
| Kernels.ChannelMean | src/MeanFilterSerial.java:134-136 | a channel total divided by the cell count, truncated; `Kernels.MeanChannel` and `Kernels.AggregateWithin` state its value and bounds |
| Kernels.ChannelMedian | src/MedianFilterSerial.java:143-148 | the element at index `n/2` of the sorted channel values is one of those values |
| Kernels.CombineWithin | src/MeanFilterSerial.java:134-136 | if every channel value is in `[lo, hi]`, all mean and median aggregates are in `[lo, hi]` too |
| Kernels.Combine | src/MeanFilterSerial.java:134-136 | the per-channel aggregate of each filter: the mean, or the median of src/MedianFilterSerial.java:143-148 |
| Kernels.Aggregate | src/MeanFilterSerial.java:115-142 | `calculate(middle)` as a function of the window: centre alpha and the aggregated colour channels, packed; the lemmas below it and the two `calculate` methods state and prove what it is |
| Kernels.Kernel | src/MeanFilterSerial.java:94-95 | what the traversal writes for a window: `calculate(middle)` with `middle = window / 2`; `Kernels.KernelKeepsAlpha` and `Kernels.KernelFixesUniform` are its properties |
| Kernels.AggregateKeepsAlpha | src/MeanFilterSerial.java:133-139 | the output's alpha byte is the alpha byte of `windowArr[middle][middle]` |
| Kernels.AggregateChannel | src/MedianFilterParallel.java:152-158 | a window has `window*window > 0` values per channel, and unpacking a colour channel of the output gives bit-exactly that channel's aggregate |
| Kernels.MeanChannel | src/MeanFilterSerial.java:117-136 | each colour channel of the mean output is `floor(channel total / (window*window))` |
| Kernels.AggregateWithin | src/MeanFilterParallel.java:125-144 | each output colour channel lies within any bounds of that channel's window values: between their minimum and maximum, and at most 255 |
| Kernels.MedianChannel | src/MedianFilterSerial.java:125-148 | each median output channel is element `window*window/2` of the ascending sort of that channel's window values, and is one of them |
| Kernels.MedianRank | src/MedianFilterSerial.java:138-148 | the median has rank `n/2`: at least `n/2 + 1` window values (with repetitions) are at most it, and at least `n - n/2` are at least it |
| Kernels.AggregateUniform | src/MeanFilterSerial.java:122-139 | a window whose cells all hold `p` yields `p`, for both filters |
| Kernels.AggregateSingleCell | src/MedianFilterSerial.java:143-151 | with `window == 1`, `calculate(0)` returns the single cell's pixel unchanged |
| Kernels.KernelKeepsAlpha | src/MedianFilterSerial.java:145-151 | both kernels give every window the alpha byte of its centre cell |
| Kernels.KernelFixesUniform | src/MedianFilterParallel.java:132-158 | both kernels map every window of one colour to that colour |
| Kernels.TotalsFitInt | src/MeanFilterParallel.java:125-136 | under the window bound, a channel total over the whole window is in `[0, 2^31 - 1]`, so the `int` totals do not wrap around |
| Kernels.MeanCalculate | src/MeanFilterSerial.java:115-142 | the accumulation loops, divisions and packing return exactly the mean-filter `Aggregate` of the window |
| Kernels.AddRow | src/MeanFilterSerial.java:124-129 | one pass of the inner loop adds a whole window row's channel values to the three running totals |
| Kernels.AddCell | src/MeanFilterSerial.java:125-127 | one cell's red, green and blue levels are added to the totals, which then cover the cells visited so far in row-major order |
| Kernels.MedianCalculate | src/MedianFilterSerial.java:116-154 | the fill, the three sorts and the index `middleNum` return exactly the median-filter `Aggregate` of the window |
| Kernels.Gather | src/MedianFilterSerial.java:118-135 | three fresh, distinct arrays of `window*window` cells hold the red, green and blue values of the window in visiting order |
| Kernels.GatherRow | src/MedianFilterSerial.java:127-134 | one pass of the inner loop appends a window row's channel values at `num` and advances `num` to match |
| Kernels.GatherCell | src/MedianFilterSerial.java:129-133 | one cell's three levels are stored at index `num` of their arrays, so each array's first `num + 1` entries are the levels of the cells visited so far |
| Kernels.Record | src/MedianFilterSerial.java:129-133 | `values[num] = v` extends the recorded prefix by `v` |
| Kernels.Calculate | src/MeanFilterParallel.java:123-150 | the `calculate` of either filter returns that filter's `Aggregate` of the window |
| Traversal.Rows | src/MeanFilterSerial.java:82 | the inner loop runs `max(height - window, 0)` times; when it runs at all, `rows + window == height` |
| Traversal.LeafEnd | src/MeanFilterParallel.java:160 | the outer loop of a band stops at `start + width - window`, or at `start` if that is smaller: the end is at least `start`, the last window reaches the band's end or past it, and exactly to it when the loop runs |
| Traversal.Step | src/MeanFilterSerial.java:94-95 | one window position turns a grid into a grid of the same shape |
| Traversal.ColumnPass | src/MeanFilterSerial.java:82-96 | the rows of one column, applied in order, keep the grid's shape |
| Traversal.BandPass | src/MeanFilterParallel.java:160-177 | the columns of a band, applied in order, keep the grid's shape |
| Traversal.Leaf | src/MedianFilterParallel.java:171-188 | the leaf loops of a band keep the grid's shape |
| Traversal.SerialPass | src/MedianFilterSerial.java:81-97 | the serial loops over the whole image keep the grid's shape |
| Traversal.Traverse | src/MeanFilterParallel.java:160-177 | the in-place `i`/`j` loops over a band leave `pixels` holding `Leaf` of the grid they held on entry |
| Traversal.TraverseColumn | src/MeanFilterSerial.java:82-96 | the inner `j` loop leaves `pixels` holding the column pass of the entry grid |
| Traversal.Visit | src/MeanFilterSerial.java:85-95 | one loop body leaves `pixels` holding `Step` of the grid it held before |
| Traversal.LoadAndCalculate | src/MedianFilterSerial.java:86-96 | loading the window and calling `calculate(middle)` returns the aggregate of the current window |
| Traversal.WriteCentre | src/MedianFilterSerial.java:96 | writing the kernel's value to `pixels[i+middle][j+middle]` leaves `pixels` holding `Step` of the grid |
| Traversal.Store | src/MeanFilterParallel.java:175 | a single array write changes exactly one cell of the held grid |
| Traversal.StepFrame | src/MeanFilterSerial.java:95 | a step writes the kernel's value on the current window to the centre cell and leaves every other cell as it was |
| Traversal.ColumnPassFrame | src/MeanFilterSerial.java:82-96 | a column pass changes only cells `(i+middle, j+middle)` with `0 <= j < rows` |
| Traversal.BandPassFrame | src/MeanFilterParallel.java:160-177 | a band changes only the centre cells `(i+middle, j+middle)` with `start <= i < end` and `0 <= j < height - window`; every other cell keeps its value |
| Traversal.ColumnPassKeepsEarlier | src/MedianFilterSerial.java:83-97 | later rows of a column do not overwrite a centre cell already written in that column |
| Traversal.BandPassKeepsEarlier | src/MedianFilterSerial.java:81-97 | later columns of a band do not overwrite the cells of an earlier column |
| Traversal.WrittenValue | src/MeanFilterSerial.java:80-95 | a written cell finally holds the kernel's value on its window as the grid was when the cell was written, after all earlier columns and rows, not on the input grid |
| Traversal.NextWindowSeesWrite | src/MeanFilterSerial.java:82-95 | for `window >= 3`, the window one row further down reads the value just written at its offset `(middle, middle-1)` |
| Traversal.Alphas | src/MeanFilterSerial.java:133 | the alpha plane of a grid has the grid's shape |
| Traversal.AlphasCells | src/MeanFilterSerial.java:133 | two grids of one shape have equal alpha planes exactly when every cell carries the same alpha byte |
| Traversal.StepKeepsAlpha | src/MeanFilterSerial.java:95 | for a kernel that keeps the centre alpha, a step leaves the alpha plane unchanged |
| Traversal.ColumnPassKeepsAlpha | src/MedianFilterSerial.java:83-97 | for such a kernel, a column pass leaves the alpha plane unchanged |
| Traversal.BandPassKeepsAlpha | src/MeanFilterParallel.java:160-177 | for such a kernel, a band leaves every cell's alpha byte as it was |
| Traversal.StepUniform | src/MeanFilterSerial.java:95 | for a kernel that fixes uniform windows, a step keeps a one-colour grid that colour |
| Traversal.ColumnPassUniform | src/MedianFilterSerial.java:83-97 | for such a kernel, a column pass keeps a one-colour grid that colour |
| Traversal.BandPassUniform | src/MeanFilterParallel.java:160-177 | for such a kernel, a uniform image stays uniform through a band |
| Traversal.StepSingleCell | src/MeanFilterSerial.java:94-95 | with `window == 1`, a step leaves the grid unchanged |
| Traversal.ColumnPassSingleCell | src/MeanFilterSerial.java:82-96 | with `window == 1`, a column pass leaves the grid unchanged |
| Traversal.BandPassSingleCell | src/MeanFilterSerial.java:80-96 | with `window == 1`, the whole traversal leaves the grid unchanged |
| Traversal.SmallImageUnchanged | src/MeanFilterSerial.java:80-82 | if `width <= window` or `height <= window`, no iteration runs and the grid is unchanged |
| Traversal.NoRows | src/MedianFilterSerial.java:81-83 | if `height <= window`, the inner loop never runs and every band leaves the grid unchanged |
| Traversal.SerialBorder | src/MedianFilterSerial.java:81-96 | for an accepted window, the first `middle` and last `middle+1` columns and rows keep their input values |
| Traversal.SameColumns | src/MeanFilterParallel.java:160-175 | two grids of the same shape agree on the columns `lo .. hi-1` |
| Traversal.StepSameColumns | src/MeanFilterParallel.java:165-174 | a step whose window lies inside columns `lo .. hi-1` keeps two grids that agree there in agreement there: it reads and writes nothing else |
| Traversal.ColumnPassSameColumns | src/MeanFilterParallel.java:162-175 | the same for a whole column of windows |
| Traversal.BandPassSameColumns | src/MeanFilterParallel.java:160-176 | the same for a band of columns whose windows all lie inside `lo .. hi-1` |
| Traversal.LeafReadsOwnColumns | src/MeanFilterParallel.java:157-176 | a leaf band `[start, start + width)` reads only the columns `start .. start + width - 2`: two images that agree there still agree there after the leaf loops, and every other column keeps its own values |
| Bands.Threshold | src/MeanFilterParallel.java:24 | the contract states that `THRESHOLD` is positive; the body gives the values, 500 for the mean filter and 300 for the median (src/MedianFilterParallel.java:25) |
| Bands.IsLeaf | src/MeanFilterParallel.java:157 | a band narrower than `THRESHOLD` runs the loops itself |
| Bands.Split | src/MeanFilterParallel.java:182 | `split = width / 2` |
| Bands.Left | src/MeanFilterParallel.java:185-188 | the left child: `split + 3` columns from the parent's start; `Bands.SplitInside` and `Bands.SplitNarrower` place it |
| Bands.Right | src/MeanFilterParallel.java:186-189 | the right child: `width - (split+1) + (window-1) + 3` columns from `start + (split - window) - 1`; `Bands.SplitInside` proves it ends where the parent ends |
| Bands.Finishes | src/MeanFilterParallel.java:157-193 | the bands on which `compute()` finishes: a leaf for every window, a split band only under `SplitSafe` (`Bands.WideWindowGrows`) |
| Bands.SplitSafeWindows | src/MeanFilterParallel.java:182-189 | the split bound `2*window + 4 <= THRESHOLD` means `window <= 248` for the mean filter and `window <= 148` for the median |
| Bands.Range | src/MeanFilterParallel.java:160 | `Range(lo, hi)` is exactly the integers `lo <= i < hi`, the values the loop index takes |
| Bands.RangeSize | src/MedianFilterParallel.java:171 | that range has `hi - lo` elements |
| Bands.SplitInside | src/MeanFilterParallel.java:182-189 | the right child ends where the parent ends; the left child starts at the parent's start and ends strictly inside it; the right child starts after the parent's start |
| Bands.SplitNarrower | src/MedianFilterParallel.java:193-200 | under the split bound, both children are non-empty and strictly narrower than the parent, so the recursion terminates |
| Bands.WideWindowGrows | src/MedianFilterParallel.java:193-200 | without the bound it does not: with window 301, a 600-column median band has a 602-column right child |
| Bands.SplitCovers | src/MeanFilterParallel.java:185-189 | the children's processed columns together are exactly the parent's `[start, start+width-window)` |
| Bands.SplitOverlap | src/MedianFilterParallel.java:196-200 | the children share exactly four processed columns, those from the right child's start on |
| Bands.CoveredAppend | src/MeanFilterParallel.java:191-193 | the columns of two lists of bands, concatenated, are the union of their columns |
| Bands.Leaves | src/MeanFilterParallel.java:155-195 | the leaf bands that `compute()` reaches, in the order one worker runs them, right child first; `Bands.LeavesCover` and `Bands.LeavesInside` are its properties |
| Bands.LeavesCover | src/MeanFilterParallel.java:155-195 | the leaf bands of the recursion cover exactly the root band's processed columns |
| Bands.LeavesInside | src/MedianFilterParallel.java:166-206 | every leaf band is narrower than `THRESHOLD`, not of negative width, and inside the root band (for the root `[0, w)`, inside the image) |
| Engine.BandTree | src/MeanFilterParallel.java:155-195 | the recursion of `compute()`, right child then left child, keeps the grid's shape; it is defined on every band `compute()` finishes on (`Bands.Finishes`): a leaf for any window, a split band under `SplitSafe` |
| Engine.RunLeaves | src/MeanFilterParallel.java:157-177 | running the leaf loops of a list of bands, one after the other, keeps the grid's shape |
| Engine.RunLeavesAppend | src/MeanFilterParallel.java:191-193 | running two lists of leaves in sequence is running their concatenation |
| Engine.BandTreeRunsLeaves | src/MeanFilterParallel.java:188-193 | the recursion does the leaf loops of `Bands.Leaves`, in that order, and every leaf fits the image |
| Engine.BandTreeFrame | src/MeanFilterParallel.java:157-193 | the recursion writes only centre cells of windows inside the root band; every other cell keeps its value |
| Engine.BandTreeKeepsAlpha | src/MedianFilterParallel.java:166-206 | for a kernel that keeps the centre alpha, the recursion leaves the alpha plane unchanged |
| Engine.BandTreeUniform | src/MedianFilterParallel.java:166-206 | for a kernel that fixes uniform windows, a uniform image stays uniform through the recursion |
| Engine.BandTreeWindowOne | src/MeanFilterParallel.java:155-195 | with `window == 1`, the recursion leaves the grid unchanged |
| Engine.NarrowImageIsSerial | src/MeanFilterParallel.java:157-177 | for every window of at least 1, an image narrower than `THRESHOLD` makes the root task (start 0, line 100) a leaf, and it does exactly the serial traversal |
| Engine.FilterKeepsAlpha | src/MeanFilterSerial.java:133-139 | both filters, serial or parallel, leave every pixel's alpha byte as it was |
| Engine.FilterUniform | src/MedianFilterSerial.java:125-151 | both filters, serial or parallel, leave an image of one colour unchanged |
| Engine.UniformIsFixed | src/MeanFilterSerial.java:122-139 | two grids of the same shape and the same single colour are equal |
| Engine.FilterWindowOne | src/MeanFilterSerial.java:133-139 | with `window == 1`, both filters, serial or parallel, leave the image unchanged |
| Engine.Task.constructor | src/MeanFilterParallel.java:29-35 | a task records its width, height and start, and allocates its own fresh `window x window` scratch array |
| Engine.Task.Compute | src/MedianFilterParallel.java:166-206 | `compute()` leaves `pixels` holding `BandTree` of the grid they held on entry: the leaf loops, or the split with right child then left child |
| Engine.Serial | src/MeanFilterSerial.java:70-97 | `mean`/`median` allocate `windowArr`, then leave `pixels` holding `SerialPass` of the loaded grid |
| Engine.Parallel | src/MeanFilterParallel.java:88-106 | the root task over `[0, width)` leaves `pixels` holding `BandTree` of the loaded grid, for any window on an image narrower than `THRESHOLD` and under `SplitSafe` on a wider one |
| Engine.Run | src/MedianFilterSerial.java:34-38 | an invalid window is refused with the pixels untouched; otherwise the filter runs, and the outcome reports which happened |

## Left out

- File and codec I/O are not modelled: `ImageIO.read`/`write`, the JPEG output, and `loadInput`/`loadOutput`. The model starts from the loaded `pixels` array. The alpha dropped by `TYPE_3BYTE_BGR` on output is outside it too.
- Console output, `System.exit` and the `System.currentTimeMillis` timing have no logical content. An invalid window is modelled as the `InvalidWindow` outcome.
- Argument parsing is not modelled, nor are the static fields. `window`, `pixels` and `windowArr` become parameters, and in `Engine.Task` fields.
- Fork/join scheduling is not modelled: `ForkJoinPool.invoke`, `fork` and `join`. `Engine.BandTree` and `Engine.Task.Compute` model the schedule of a single worker: the right child, then the forked left child at the join.
  - With several workers, sibling bands share four columns (`Bands.SplitOverlap`). Their tasks then write those cells concurrently in the same array: a data race.
  - So nothing is claimed about parallel output equalling serial output on wide images. The equality is claimed only for images narrower than the threshold (`Engine.NarrowImageIsSerial`).
- Kernels.MeanCalculate: does not model 32-bit wrap-around of the channel totals. It requires `TotalsFit(window)` (`window <= 2901`, `WindowConfig.TotalsFitBound`), under which the totals cannot wrap (`Kernels.TotalsFitInt`). Larger windows would overflow in Java.
- Engine.Task.Compute: a band that is split requires `SplitSafe` (`window <= 248` for the mean, `<= 148` for the median; `Bands.Finishes`). A leaf band runs for any window. With a larger window a wide band's right child need not shrink (`Bands.WideWindowGrows`). Java's `right.compute()` is a direct call, so the recursion goes ever deeper until it ends in a `StackOverflowError`; the model does not describe that error and demands the bound for split bands instead.
- Kernels.MedianCalculate: does not model the failure to allocate `window*window`-element arrays, or the overflow of `window*window` for huge windows.
- `Arrays.sort` is modelled by its result, as an in-place sort (`Sorting.SortArray`). Its dual-pivot quicksort algorithm is not modelled.
- The serial filters' `width`/`height` static fields are the array dimensions `pixels.Length0`/`pixels.Length1`.
