/** Region statistics: the per-channel average colour of a rectangle and the two
    implemented homogeneity scores (population variance and mean absolute
    deviation), each as a specification function over exact reals and as the
    source's accumulating loops proved equal to it. */
module RegionStats {
  import opened Raster

  /** What one sample contributes to a running sum: itself, its squared
      deviation from `mu`, or its absolute deviation from `mu`. */
  datatype Term = Plain | Squared | Absolute

  function Abs(v: real): real {
    if v < 0.0 then -v else v
  }

  function Contribution(t: Term, s: Sample, mu: real): real {
    match t
    case Plain => s as real
    case Squared => Mul(s as real - mu, s as real - mu)
    case Absolute => Abs(s as real - mu)
  }

  /** A squared or absolute deviation is non-negative and zero only at `mu` itself. */
  lemma ContributionDeviation(t: Term, s: Sample, mu: real)
    requires t != Plain
    ensures Contribution(t, s, mu) >= 0.0
    ensures Contribution(t, s, mu) == 0.0 <==> s as real == mu
  {
    SquareFacts(s as real - mu);
  }

  /** Sum of the contributions of channel `c` over columns `x0 .. x1-1` of row `j`,
      accumulated left to right. Empty when `x1 <= x0`. */
  function RowSum(img: Image, t: Term, c: Channel, mu: real, j: nat, x0: nat, x1: int): real
    requires j < img.height && x1 <= img.width
    decreases x1 - x0
  {
    if x1 <= x0 then 0.0
    else RowSum(img, t, c, mu, j, x0, x1 - 1) + Contribution(t, At(img, x1 - 1, j).Get(c), mu)
  }

  /** Sum of the contributions over rows `y0 .. y1-1`, each row over columns `x0 .. x1-1`,
      accumulated top to bottom. */
  function BlockSum(img: Image, t: Term, c: Channel, mu: real, x0: nat, x1: int, y0: nat, y1: int): real
    requires x1 <= img.width && y1 <= img.height
    decreases y1 - y0
  {
    if y1 <= y0 then 0.0
    else BlockSum(img, t, c, mu, x0, x1, y0, y1 - 1) + RowSum(img, t, c, mu, y1 - 1, x0, x1)
  }

  /** Sum of channel `c` over a region inside the image. */
  function Total(img: Image, rg: Region, c: Channel): real
    requires rg.Within(img)
  {
    BlockSum(img, Plain, c, 0.0, rg.x, rg.x + rg.width, rg.y, rg.y + rg.height)
  }

  /** The per-channel arithmetic mean over the region; black for an empty region. */
  function MeanColor(img: Image, rg: Region): RGB
    requires rg.Within(img)
  {
    if rg.Area() == 0 then Black
    else
      var n := rg.Area() as real;
      RGB(Total(img, rg, Red) / n, Total(img, rg, Green) / n, Total(img, rg, Blue) / n)
  }

  /** The mean over the three channels of the population variance about `avg`;
      zero when the region has at most one pixel. */
  function VarianceError(img: Image, rg: Region, avg: RGB): real
    requires rg.Within(img)
  {
    var n := rg.Area() as real;
    if n <= 1.0 then 0.0
    else
      var x1, y1 := rg.x + rg.width, rg.y + rg.height;
      (BlockSum(img, Squared, Red, avg.r, rg.x, x1, rg.y, y1) / n
       + BlockSum(img, Squared, Green, avg.g, rg.x, x1, rg.y, y1) / n
       + BlockSum(img, Squared, Blue, avg.b, rg.x, x1, rg.y, y1) / n) / 3.0
  }

  /** The mean over the three channels of the mean absolute deviation from `avg`,
      over the part of the region that lies inside the image; zero when the region
      is empty or the clamped pixel count is not positive. */
  function MadError(img: Image, rg: Region, avg: RGB): real
  {
    if rg.Area() == 0 then 0.0
    else
      var xEnd := Min(rg.x + rg.width, img.width);
      var yEnd := Min(rg.y + rg.height, img.height);
      var n := (xEnd - rg.x) * (yEnd - rg.y);
      if n <= 0 then 0.0
      else
        (BlockSum(img, Absolute, Red, avg.r, rg.x, xEnd, rg.y, yEnd) / n as real
         + BlockSum(img, Absolute, Green, avg.g, rg.x, xEnd, rg.y, yEnd) / n as real
         + BlockSum(img, Absolute, Blue, avg.b, rg.x, xEnd, rg.y, yEnd) / n as real) / 3.0
  }

  /** Every channel of `p` equals the corresponding channel of `avg`. */
  predicate Matches(p: Pixel, avg: RGB) {
    p.r as real == avg.r && p.g as real == avg.g && p.b as real == avg.b
  }

  // ---------------------------------------------------------------------------
  // The source's loops

  /** Sums the three channels row by row and divides by the pixel count. */
  method CalculateAverageColor(img: Image, x: nat, y: nat, width: nat, height: nat) returns (avg: RGB)
    requires Region(x, y, width, height).Within(img)
    ensures avg == MeanColor(img, Region(x, y, width, height))
  {
    avg := Black;
    var numPixels := (width * height) as real;
    if numPixels == 0.0 {
      return;
    }
    var rSum, gSum, bSum := 0.0, 0.0, 0.0;
    for j := y to y + height
      invariant rSum == BlockSum(img, Plain, Red, 0.0, x, x + width, y, j)
      invariant gSum == BlockSum(img, Plain, Green, 0.0, x, x + width, y, j)
      invariant bSum == BlockSum(img, Plain, Blue, 0.0, x, x + width, y, j)
    {
      for i := x to x + width
        invariant rSum == BlockSum(img, Plain, Red, 0.0, x, x + width, y, j) + RowSum(img, Plain, Red, 0.0, j, x, i)
        invariant gSum == BlockSum(img, Plain, Green, 0.0, x, x + width, y, j) + RowSum(img, Plain, Green, 0.0, j, x, i)
        invariant bSum == BlockSum(img, Plain, Blue, 0.0, x, x + width, y, j) + RowSum(img, Plain, Blue, 0.0, j, x, i)
      {
        var p := At(img, i, j);
        rSum := rSum + p.r as real;
        gSum := gSum + p.g as real;
        bSum := bSum + p.b as real;
      }
    }
    avg := RGB(rSum / numPixels, gSum / numPixels, bSum / numPixels);
  }

  /** Sums the squared deviations from `avgColor` per channel, divides each by the
      pixel count and averages the three variances. */
  method CalculateErrorVariance(img: Image, x: nat, y: nat, width: nat, height: nat, avgColor: RGB)
    returns (error: real)
    requires Region(x, y, width, height).Within(img)
    ensures error == VarianceError(img, Region(x, y, width, height), avgColor)
  {
    var numPixels := (width * height) as real;
    if numPixels <= 1.0 {
      return 0.0;
    }
    var rVarSum, gVarSum, bVarSum := 0.0, 0.0, 0.0;
    for j := y to y + height
      invariant rVarSum == BlockSum(img, Squared, Red, avgColor.r, x, x + width, y, j)
      invariant gVarSum == BlockSum(img, Squared, Green, avgColor.g, x, x + width, y, j)
      invariant bVarSum == BlockSum(img, Squared, Blue, avgColor.b, x, x + width, y, j)
    {
      for i := x to x + width
        invariant rVarSum == BlockSum(img, Squared, Red, avgColor.r, x, x + width, y, j)
                             + RowSum(img, Squared, Red, avgColor.r, j, x, i)
        invariant gVarSum == BlockSum(img, Squared, Green, avgColor.g, x, x + width, y, j)
                             + RowSum(img, Squared, Green, avgColor.g, j, x, i)
        invariant bVarSum == BlockSum(img, Squared, Blue, avgColor.b, x, x + width, y, j)
                             + RowSum(img, Squared, Blue, avgColor.b, j, x, i)
      {
        var p := At(img, i, j);
        var rDiff := p.r as real - avgColor.r;
        var gDiff := p.g as real - avgColor.g;
        var bDiff := p.b as real - avgColor.b;
        rVarSum := rVarSum + rDiff * rDiff;
        gVarSum := gVarSum + gDiff * gDiff;
        bVarSum := bVarSum + bDiff * bDiff;
      }
    }
    var rVariance := rVarSum / numPixels;
    var gVariance := gVarSum / numPixels;
    var bVariance := bVarSum / numPixels;
    error := (rVariance + gVariance + bVariance) / 3.0;
  }

  /** Sums the absolute deviations from `avgColor` over the region clamped to the
      image edges, divides by the clamped pixel count and averages the channels. */
  method CalculateErrorMad(img: Image, x: nat, y: nat, width: nat, height: nat, avgColor: RGB)
    returns (error: real)
    ensures error == MadError(img, Region(x, y, width, height), avgColor)
  {
    var numPixels := (width * height) as real;
    if numPixels == 0.0 {
      return 0.0;
    }
    var rMadSum, gMadSum, bMadSum := 0.0, 0.0, 0.0;
    var xEnd := Min(x + width, img.width);
    var yEnd := Min(y + height, img.height);
    var j := y;
    // When a clamped extent is empty the loops do not run; `Min` keeps the sums'
    // upper bounds inside the image in that case too.
    while j < yEnd
      invariant y <= j && (j <= yEnd || j == y)
      invariant rMadSum == BlockSum(img, Absolute, Red, avgColor.r, x, xEnd, y, Min(j, yEnd))
      invariant gMadSum == BlockSum(img, Absolute, Green, avgColor.g, x, xEnd, y, Min(j, yEnd))
      invariant bMadSum == BlockSum(img, Absolute, Blue, avgColor.b, x, xEnd, y, Min(j, yEnd))
    {
      var i := x;
      while i < xEnd
        invariant x <= i && (i <= xEnd || i == x)
        invariant rMadSum == BlockSum(img, Absolute, Red, avgColor.r, x, xEnd, y, j)
                             + RowSum(img, Absolute, Red, avgColor.r, j, x, Min(i, xEnd))
        invariant gMadSum == BlockSum(img, Absolute, Green, avgColor.g, x, xEnd, y, j)
                             + RowSum(img, Absolute, Green, avgColor.g, j, x, Min(i, xEnd))
        invariant bMadSum == BlockSum(img, Absolute, Blue, avgColor.b, x, xEnd, y, j)
                             + RowSum(img, Absolute, Blue, avgColor.b, j, x, Min(i, xEnd))
      {
        var p := At(img, i, j);
        rMadSum := rMadSum + Abs(p.r as real - avgColor.r);
        gMadSum := gMadSum + Abs(p.g as real - avgColor.g);
        bMadSum := bMadSum + Abs(p.b as real - avgColor.b);
        i := i + 1;
      }
      j := j + 1;
    }
    numPixels := ((xEnd - x) * (yEnd - y)) as real;
    if numPixels <= 0.0 {
      return 0.0;
    }
    var rMad := rMadSum / numPixels;
    var gMad := gMadSum / numPixels;
    var bMad := bMadSum / numPixels;
    error := (rMad + gMad + bMad) / 3.0;
  }

  // ---------------------------------------------------------------------------
  // Properties of the sums

  /** A row of samples sums to between 0 and 255 per pixel. */
  lemma {:induction false} RowSumBounds(img: Image, c: Channel, j: nat, x0: nat, x1: nat)
    requires j < img.height && x0 <= x1 <= img.width
    ensures 0.0 <= RowSum(img, Plain, c, 0.0, j, x0, x1) <= 255.0 * (x1 - x0) as real
    decreases x1 - x0
  {
    if x0 < x1 {
      RowSumBounds(img, c, j, x0, x1 - 1);
    }
  }

  /** A block of samples sums to between 0 and 255 per pixel. */
  lemma {:induction false} BlockSumBounds(img: Image, c: Channel, x0: nat, x1: nat, y0: nat, y1: nat)
    requires x0 <= x1 <= img.width && y0 <= y1 <= img.height
    ensures 0.0 <= BlockSum(img, Plain, c, 0.0, x0, x1, y0, y1) <= 255.0 * ((x1 - x0) * (y1 - y0)) as real
    decreases y1 - y0
  {
    if y0 < y1 {
      BlockSumBounds(img, c, x0, x1, y0, y1 - 1);
      RowSumBounds(img, c, y1 - 1, x0, x1);
      assert (x1 - x0) * (y1 - 1 - y0) + (x1 - x0) == (x1 - x0) * (y1 - y0);
    }
  }

  /** A row whose channel is constantly `v` sums to the row length times `v`'s contribution. */
  lemma {:induction false} RowSumUniform(img: Image, t: Term, c: Channel, mu: real, j: nat, x0: nat, x1: nat, v: Sample)
    requires j < img.height && x0 <= x1 <= img.width
    requires forall i: nat | x0 <= i < x1 :: At(img, i, j).Get(c) == v
    ensures RowSum(img, t, c, mu, j, x0, x1) == Mul((x1 - x0) as real, Contribution(t, v, mu))
    decreases x1 - x0
  {
    if x0 < x1 {
      RowSumUniform(img, t, c, mu, j, x0, x1 - 1, v);
      MulAdd((x1 - 1 - x0) as real, 1.0, Contribution(t, v, mu));
    } else {
      assert Mul(0.0, Contribution(t, v, mu)) == 0.0;
    }
  }

  /** A block whose channel is constantly `v` sums to its area times `v`'s contribution. */
  lemma {:induction false} BlockSumUniform(img: Image, t: Term, c: Channel, mu: real,
                                           x0: nat, x1: nat, y0: nat, y1: nat, v: Sample)
    requires x0 <= x1 <= img.width && y0 <= y1 <= img.height
    requires forall i: nat, j: nat | x0 <= i < x1 && y0 <= j < y1 :: At(img, i, j).Get(c) == v
    ensures BlockSum(img, t, c, mu, x0, x1, y0, y1) == Mul(((x1 - x0) * (y1 - y0)) as real, Contribution(t, v, mu))
    decreases y1 - y0
  {
    var q := Contribution(t, v, mu);
    if y0 < y1 {
      BlockSumUniform(img, t, c, mu, x0, x1, y0, y1 - 1, v);
      RowSumUniform(img, t, c, mu, y1 - 1, x0, x1, v);
      var w, h := x1 - x0, y1 - 1 - y0;
      assert w * h + w == w * (h + 1);
      MulAdd((w * h) as real, w as real, q);
    } else {
      assert Mul(0.0, q) == 0.0;
    }
  }

  /** Sums of deviations are non-negative, and vanish exactly when every sample
      equals `mu`. */
  lemma {:induction false} RowSumDeviation(img: Image, t: Term, c: Channel, mu: real, j: nat, x0: nat, x1: int)
    requires t != Plain
    requires j < img.height && x1 <= img.width
    ensures RowSum(img, t, c, mu, j, x0, x1) >= 0.0
    ensures RowSum(img, t, c, mu, j, x0, x1) == 0.0
            <==> forall i: nat | x0 <= i < x1 :: At(img, i, j).Get(c) as real == mu
    decreases x1 - x0
  {
    if x0 < x1 {
      RowSumDeviation(img, t, c, mu, j, x0, x1 - 1);
      ContributionDeviation(t, At(img, x1 - 1, j).Get(c), mu);
    }
  }

  lemma {:induction false} BlockSumDeviation(img: Image, t: Term, c: Channel, mu: real,
                                             x0: nat, x1: int, y0: nat, y1: int)
    requires t != Plain
    requires x1 <= img.width && y1 <= img.height
    ensures BlockSum(img, t, c, mu, x0, x1, y0, y1) >= 0.0
    ensures BlockSum(img, t, c, mu, x0, x1, y0, y1) == 0.0
            <==> forall i: nat, j: nat | x0 <= i < x1 && y0 <= j < y1 :: At(img, i, j).Get(c) as real == mu
    decreases y1 - y0
  {
    if y0 < y1 {
      BlockSumDeviation(img, t, c, mu, x0, x1, y0, y1 - 1);
      RowSumDeviation(img, t, c, mu, y1 - 1, x0, x1);
    }
  }

  // ---------------------------------------------------------------------------
  // Real products

  /** Real multiplication of two non-constant factors. Keeping it behind a function
      lets the lemmas below establish the facts about products once, instead of
      leaving them to the solver's non-linear arithmetic at every use. */
  function Mul(a: real, b: real): real {
    a * b
  }

  lemma ProductPositive(a: real, b: real)
    requires a > 0.0 && b > 0.0
    ensures Mul(a, b) > 0.0
  {
  }

  /** A square is non-negative and vanishes only at zero. */
  lemma SquareFacts(v: real)
    ensures Mul(v, v) >= 0.0
    ensures Mul(v, v) == 0.0 <==> v == 0.0
  {
    if v > 0.0 {
      ProductPositive(v, v);
    } else if v < 0.0 {
      ProductPositive(-v, -v);
      assert Mul(-v, -v) == Mul(v, v);
    } else {
      assert Mul(v, v) == Mul(0.0, 0.0) == 0.0;
    }
  }

  lemma MulAdd(a: real, b: real, q: real)
    ensures Mul(a, q) + Mul(b, q) == Mul(a + b, q)
  {
  }

  lemma MulDiv(n: real, q: real)
    requires n > 0.0
    ensures Mul(n, q) / n == q
  {
  }

  lemma DivMul(a: real, n: real)
    requires n > 0.0
    ensures Mul(a / n, n) == a
  {
  }

  lemma DivBound(a: real, n: real)
    requires n > 0.0 && 0.0 <= a <= 255.0 * n
    ensures 0.0 <= a / n <= 255.0
  {
  }

  lemma ZeroProduct(a: nat, b: nat)
    ensures a * b == 0 <==> a == 0 || b == 0
  {
  }

  lemma PositiveProduct(a: int, b: int)
    requires a > 0 && b > 0
    ensures a * b > 0
  {
  }

  /** Three non-negative per-channel sums, each divided by a positive count and then
      averaged, are non-negative and vanish exactly when all three sums do. */
  lemma ChannelAverage(a: real, b: real, c: real, n: real)
    requires a >= 0.0 && b >= 0.0 && c >= 0.0 && n > 0.0
    ensures (a / n + b / n + c / n) / 3.0 >= 0.0
    ensures (a / n + b / n + c / n) / 3.0 == 0.0 <==> a == 0.0 && b == 0.0 && c == 0.0
  {
    assert a / n >= 0.0 && b / n >= 0.0 && c / n >= 0.0;
    assert a / n == 0.0 ==> a == 0.0 by {
      if a / n == 0.0 {
        assert a == (a / n) * n;
      }
    }
    assert b / n == 0.0 ==> b == 0.0 by {
      if b / n == 0.0 {
        assert b == (b / n) * n;
      }
    }
    assert c / n == 0.0 ==> c == 0.0 by {
      if c / n == 0.0 {
        assert c == (c / n) * n;
      }
    }
  }

  // ---------------------------------------------------------------------------
  // Properties of the statistics

  /** Every channel of the average colour lies in the sample range [0, 255]. */
  lemma MeanColorBounds(img: Image, rg: Region)
    requires rg.Within(img)
    ensures forall c: Channel :: 0.0 <= MeanColor(img, rg).Get(c) <= 255.0
  {
    if rg.Area() != 0 {
      var n := rg.Area() as real;
      forall c: Channel ensures 0.0 <= Total(img, rg, c) / n <= 255.0 {
        BlockSumBounds(img, c, rg.x, rg.x + rg.width, rg.y, rg.y + rg.height);
        DivBound(Total(img, rg, c), n);
      }
    }
  }

  /** The average colour of a non-empty region painted in one colour is that colour. */
  lemma MeanColorUniform(img: Image, rg: Region, p: Pixel)
    requires rg.Within(img) && rg.Area() > 0
    requires Uniform(img, rg, p)
    ensures MeanColor(img, rg) == RGB(p.r as real, p.g as real, p.b as real)
  {
    var n := rg.Area() as real;
    forall c: Channel ensures Total(img, rg, c) / n == p.Get(c) as real {
      BlockSumUniform(img, Plain, c, 0.0, rg.x, rg.x + rg.width, rg.y, rg.y + rg.height, p.Get(c));
      MulDiv(n, p.Get(c) as real);
    }
  }

  /** The average colour is the arithmetic mean of the region: an empty region
      averages to black, and over a non-empty one each channel of the average,
      multiplied by the pixel count, gives back that channel's total. */
  lemma MeanColorIsMean(img: Image, rg: Region)
    requires rg.Within(img)
    ensures rg.Area() == 0 ==> MeanColor(img, rg) == Black
    ensures rg.Area() > 0 ==>
      forall c: Channel :: Mul(MeanColor(img, rg).Get(c), rg.Area() as real) == Total(img, rg, c)
  {
    if rg.Area() > 0 {
      forall c: Channel ensures Mul(MeanColor(img, rg).Get(c), rg.Area() as real) == Total(img, rg, c) {
        DivMul(Total(img, rg, c), rg.Area() as real);
      }
    }
  }

  /** The variance score is never negative, and on a region of two or more pixels it
      is zero exactly when every pixel equals `avg` in every channel. */
  lemma VarianceZeroIff(img: Image, rg: Region, avg: RGB)
    requires rg.Within(img)
    ensures VarianceError(img, rg, avg) >= 0.0
    ensures rg.Area() <= 1 ==> VarianceError(img, rg, avg) == 0.0
    ensures rg.Area() > 1 ==>
      (VarianceError(img, rg, avg) == 0.0 <==> forall i: nat, j: nat | rg.Contains(i, j) :: Matches(At(img, i, j), avg))
  {
    if rg.Area() > 1 {
      var x1, y1 := rg.x + rg.width, rg.y + rg.height;
      BlockSumDeviation(img, Squared, Red, avg.r, rg.x, x1, rg.y, y1);
      BlockSumDeviation(img, Squared, Green, avg.g, rg.x, x1, rg.y, y1);
      BlockSumDeviation(img, Squared, Blue, avg.b, rg.x, x1, rg.y, y1);
      ChannelAverage(BlockSum(img, Squared, Red, avg.r, rg.x, x1, rg.y, y1),
                     BlockSum(img, Squared, Green, avg.g, rg.x, x1, rg.y, y1),
                     BlockSum(img, Squared, Blue, avg.b, rg.x, x1, rg.y, y1),
                     rg.Area() as real);
    }
  }

  /** The MAD score is never negative, and it is zero exactly when every pixel of
      the region that lies inside the image equals `avg` in every channel. */
  lemma MadZeroIff(img: Image, rg: Region, avg: RGB)
    ensures MadError(img, rg, avg) >= 0.0
    ensures MadError(img, rg, avg) == 0.0
            <==> forall i: nat, j: nat | rg.Contains(i, j) && i < img.width && j < img.height :: Matches(At(img, i, j), avg)
  {
    var xEnd := Min(rg.x + rg.width, img.width);
    var yEnd := Min(rg.y + rg.height, img.height);
    var n := (xEnd - rg.x) * (yEnd - rg.y);
    ZeroProduct(rg.width, rg.height);
    if rg.x < xEnd && rg.y < yEnd {
      PositiveProduct(xEnd - rg.x, yEnd - rg.y);
    }
    BlockSumDeviation(img, Absolute, Red, avg.r, rg.x, xEnd, rg.y, yEnd);
    BlockSumDeviation(img, Absolute, Green, avg.g, rg.x, xEnd, rg.y, yEnd);
    BlockSumDeviation(img, Absolute, Blue, avg.b, rg.x, xEnd, rg.y, yEnd);
    if rg.Area() != 0 && n > 0 {
      ChannelAverage(BlockSum(img, Absolute, Red, avg.r, rg.x, xEnd, rg.y, yEnd),
                     BlockSum(img, Absolute, Green, avg.g, rg.x, xEnd, rg.y, yEnd),
                     BlockSum(img, Absolute, Blue, avg.b, rg.x, xEnd, rg.y, yEnd),
                     n as real);
    }
  }
}
