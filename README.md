# Quadtree image compression, modelled in Dafny

This project models the core of a quadtree image compressor for 8-bit RGB images.
The compressor works on a rectangle of the image in four steps:

1. It computes the rectangle's average colour.
2. It scores how far the rectangle is from uniform, with the metric the user chose:
   1 is the variance and 2 is the mean absolute deviation (MAD).
   Metrics 3, 4 and 5 are stubs, and every other selector is invalid.
3. It stops when the score is below the threshold, when the rectangle is no larger
   than the minimum block size, or when halving it would leave a half of zero size.
4. Otherwise it splits the rectangle into four quadrants (NW, NE, SW, SE) and
   compresses each of them at the next depth.

Each leaf is then painted into a black output raster in its average colour.
The average is clamped to [0, 255] and truncated.
During the build, the global node counter and deepest-depth counter are updated.

Files:

- `raster.dfy` (module `Raster`): samples, pixels, the real-valued `RGB` average,
  images as rows of pixels, and rectangular regions.
- `stats.dfy` (module `RegionStats`) holds the region statistics:
  - `MeanColor`, `VarianceError` and `MadError` are specification functions over
    exact reals, built on left-to-right, top-to-bottom sums (`RowSum`, `BlockSum`);
  - the source's three accumulating loops are methods, each proved equal to its
    function;
  - lemmas give the properties of the statistics.
- `quadtree.dfy` (module `Quadtree`) holds the builder:
  - the tree node is the datatype `Node`;
  - the decomposition is the recursive specification function `Decomposition`;
  - `NodeCount` and `MaxDepth` measure a tree;
  - the structural invariant is `WellFormed`, and every node carrying its region's
    average is `Summarises`;
  - the two global counters are the fields of a `RunCounters` object;
  - `BuildQuadtree` is the source's recursive builder. It returns the tree and updates
    those fields. It is proved to return `Decomposition`, to add the tree's node
    count to the node counter, and to raise the depth counter to the tree's
    maximum depth.
- `render.dfy` (module `Render`) holds the renderer:
  - `Leaves` gives a tree's leaves in the order the renderer visits them;
  - `Paint` gives what drawing them in that order leaves in one pixel;
  - `DrawRectangle` and `ReconstructImage` write into an `array2<Pixel>` in place;
  - `Compress` is the program's reset/build/render sequence.

An unimplemented or invalid metric scores 0, so it does not force maximal
splitting. With a positive threshold, `error < threshold` holds and the root is a
leaf. Only with a threshold of 0 or less does the tree split down to the size
limits. `Quadtree.MetricFallback` states this.

## Model

| member | source | states |
|---|---|---|
| `RegionStats.CalculateAverageColor` | src/main.cpp:63-81 | the nested summing loop returns exactly `MeanColor`: black for a zero-area region, otherwise each channel's sum divided by the pixel count |
| `RegionStats.MeanColorIsMean` | src/main.cpp:64-80 | the average is black on zero area, and on positive area each channel times the pixel count gives back the channel total; this restates the division in `MeanColor`'s definition, and the loop's contract carries the real content |
| `RegionStats.MeanColorBounds` | src/main.cpp:68-79 | every channel of the average lies in [0, 255] |
| `RegionStats.MeanColorUniform` | src/main.cpp:63-81 | the average of a non-empty region painted in one colour is that colour |
| `RegionStats.CalculateErrorVariance` | src/main.cpp:83-105 | the loop returns exactly `VarianceError`: 0 when the area is at most 1, else the mean over channels of the summed squared deviations divided by the area |
| `RegionStats.VarianceZeroIff` | src/main.cpp:83-105 | the variance score is never negative; it is 0 when the area is at most 1; on a larger region it is 0 exactly when every pixel equals the average |
| `RegionStats.CalculateErrorMad` | src/main.cpp:107-132 | the loop returns exactly `MadError`: 0 on zero area, the sums taken over the region clamped to the image, divided by the clamped pixel count, 0 when that count is not positive |
| `RegionStats.MadZeroIff` | src/main.cpp:107-132 | the MAD score is never negative, and it is 0 exactly when every pixel of the region inside the image equals the average |
| `Quadtree.RunCounters.constructor` | src/main.cpp:134-135 | both counters start at 0 |
| `Quadtree.CalculateError` | src/main.cpp:149-170 | metric 1 gives the variance, 2 the MAD, and 3, 4, 5 and every other selector give 0 |
| `Quadtree.BuildQuadtree` | src/main.cpp:137-199 | returns the decomposition of the region at the given depth; the node counter grows by the node count of the returned tree; the depth counter becomes the larger of its old value and the tree's deepest depth |
| `Quadtree.BuildChildren` | src/main.cpp:180-196 | the split branch builds the four quadrant slots NW, NE, SW, SE in that order, with the same counter accounting |
| `Quadtree.BuildSlot` | src/main.cpp:188-195 | a quadrant of zero width or height leaves its slot null and the counters unchanged; otherwise the slot holds its decomposition |
| `Quadtree.Decompose` | src/main.cpp:317-321 | after resetting the counters and building from the whole image at depth 0, the node counter equals the tree's node count and the depth counter equals its maximum depth |
| `Quadtree.StopRule` | src/main.cpp:173-179 | a node covers its region at its depth with the region's average; it is a leaf exactly when error < threshold, or width*height <= minBlockSize, or width/2 == 0, or height/2 == 0; a leaf has no children |
| `Quadtree.QuadrantsTile` | src/main.cpp:183-195 | every pixel of a region lies in exactly one of its four quadrants, and a pixel outside it in none |
| `Quadtree.QuadrantsArea` | src/main.cpp:183-186 | the four quadrant areas add up to the parent's width * height |
| `Quadtree.QuadrantsShrink` | src/main.cpp:173-195 | when a region at least 2 x 2 is split, all four quadrants are non-empty, inside the parent, and strictly narrower and lower than it, so all four children are built |
| `Quadtree.DecompositionShape` | src/main.cpp:137-199 | the decomposition is a well-formed quadtree: a leaf has four null slots; an internal node has all four children over its quadrants in NW, NE, SW, SE order, one level deeper; every node lies inside the image and carries its region's average |
| `Quadtree.MetricFallback` | src/main.cpp:149-178 | with a metric other than 1 or 2, the node is a leaf exactly when the threshold is positive or a size condition holds |
| `Quadtree.UniformRegionIsLeaf` | src/main.cpp:147-179 | under every metric, a non-empty one-colour region with a positive threshold is not split |
| `Quadtree.DepthBound` | src/main.cpp:173-195 | a well-formed tree over a region no wider and no taller than 2^k reaches at most k levels below its root |
| `Render.Truncate8` | src/main.cpp:208-210 | the clamp and the cast to an 8-bit sample: at most 0 gives 0, at least 255 gives 255, and in between the integer part |
| `Render.LeafColourExact` | src/main.cpp:207-210 | an average that is exactly a pixel colour is painted as that colour |
| `Render.DrawRectangle` | src/main.cpp:212-215 | raster pixels inside the inclusive corner rectangle take the colour; all other pixels keep their old value |
| `Render.ReconstructImage` | src/main.cpp:201-221 | each pixel ends up as if the subtree's leaves had been drawn over it one after another, depth first, children NW, NE, SW, SE; a null slot paints nothing |
| `Render.LeavesTile` | src/main.cpp:201-221 | the leaves of a well-formed tree tile its region: each pixel of the region lies in exactly one leaf, and each other pixel in none |
| `Render.OutsideUnchanged` | src/main.cpp:201-221 | rendering a well-formed tree leaves every pixel outside its region untouched |
| `Render.RenderedPixel` | src/main.cpp:313-323 | rendering the whole-image decomposition over a black raster gives each pixel the clamped, truncated average colour of the one leaf that contains it |
| `Render.Compress` | src/main.cpp:313-323 | the output raster has the image's size; the counters equal the tree's node count and maximum depth; every output pixel lies in exactly one leaf and carries that leaf's clamped, truncated average colour |
| `Render.UniformImageReproduced` | src/main.cpp:313-323 | an image painted in one colour is rendered back unchanged |

## Left out

- File input and output, console prompts, input validation loops, timing and every printed message are not modelled. That covers the metric stubs' messages and the invalid-metric warning in the builder, and the warning for images without three channels. The image is an input value and the output raster is returned.
- Arithmetic is exact: `double` sums and divisions are real numbers, so floating-point rounding of the sums and averages is not modelled.
- Coordinates and sizes are natural numbers: the source's `int` products such as `width * height` could overflow on a huge image, and the model does not wrap them.
- Memory management is not modelled: node allocation, raw child pointers and the destructor. The tree is an inductive value. The builder returns each child slot instead of writing a pointer into a heap node.
- The max-pixel-difference, entropy and SSIM metrics do not exist in the source; the model gives them the source's score of 0.
- `RegionStats.CalculateAverageColor` and `RegionStats.CalculateErrorVariance` require the region to lie inside the image. For a region with pixels to read, the source would otherwise read outside the image. A zero-area region (average) or a region of at most one pixel (variance) returns before any read, yet the requirement still excludes such a region when it lies off the image. Its callers never pass such a region, and the MAD method needs no such requirement because it clamps.
- `Render.DrawRectangle`: does not model CImg's swapping of reversed corners. For a zero-size leaf, the clipped inclusive range empties itself instead. The builder creates such a leaf only at the root of an empty image, whose raster has no pixels to paint.
- `BuildChildren`, `BuildSlot` and `CalculateError` are separate methods here, but they stand for code written inline in the source's `buildQuadtree`.
- `Render.ReconstructImage` visits all the slots of a node; every node the builder makes has exactly four.
