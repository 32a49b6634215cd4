/** Colour estimation for recognised text (OCR.cs): the dominant foreground
    colour of a word by histogram vote, the background colour of a line as the
    mean of its border pixels, the colour-distance test both rely on, and a
    clamped lightening of a colour. */
module OcrColor {
  import opened Common
  import opened Imaging

  /** The distance above which a pixel is taken to belong to the glyphs. */
  const DifferenceThreshold: int := 50

  function SquaredDistance(p: Color, q: Color): nat {
    (p.r - q.r) * (p.r - q.r) + (p.g - q.g) * (p.g - q.g) + (p.b - q.b) * (p.b - q.b)
  }

  /** `IsSignificantlyDifferent`: the Euclidean RGB distance exceeds the
      threshold. The source compares `Math.Sqrt` of the squared distance with
      the threshold; on integers that is the comparison of the squares (see
      `SignificanceIsSqrtComparison`), and a negative threshold is always
      exceeded. */
  predicate IsSignificantlyDifferent(pixel: Color, background: Color, threshold: int) {
    threshold < 0 || SquaredDistance(pixel, background) > threshold * threshold
  }

  /** The test agrees with comparing the real square root of the squared
      distance against the threshold, for every threshold. */
  lemma SignificanceIsSqrtComparison(pixel: Color, background: Color, threshold: int, distance: real)
    requires distance >= 0.0
    requires distance * distance == SquaredDistance(pixel, background) as real
    ensures IsSignificantlyDifferent(pixel, background, threshold) <==> distance > threshold as real
  {
    var t := threshold as real;
    if threshold >= 0 {
      assert (threshold * threshold) as real == t * t;
      if distance > t {
        SquareGrows(t, distance);
      } else {
        SquareGrows(distance, t);
      }
    }
  }

  /** Squaring is monotonic on the non-negative reals. */
  lemma SquareGrows(a: real, b: real)
    requires 0.0 <= a <= b
    ensures a * a <= b * b
    ensures a < b ==> a * a < b * b
  {
    DifferenceOfSquares(a, b);
    if a < b {
      RealProductPositive(b - a, b + a);
    } else {
      assert a == b;
    }
  }

  lemma DifferenceOfSquares(a: real, b: real)
    ensures b * b - a * a == (b - a) * (b + a)
  {
  }

  lemma RealProductPositive(a: real, b: real)
    requires a > 0.0 && b > 0.0
    ensures a * b > 0.0
  {
  }

  /** The test does not depend on which colour is the pixel. */
  lemma SignificanceIsSymmetric(p: Color, q: Color, threshold: int)
    ensures IsSignificantlyDifferent(p, q, threshold) == IsSignificantlyDifferent(q, p, threshold)
  {
    assert (p.r - q.r) * (p.r - q.r) == (q.r - p.r) * (q.r - p.r);
    assert (p.g - q.g) * (p.g - q.g) == (q.g - p.g) * (q.g - p.g);
    assert (p.b - q.b) * (p.b - q.b) == (q.b - p.b) * (q.b - p.b);
  }

  /** Colours with the same RGB channels are never significantly different
      under a non-negative threshold, whatever their alpha. */
  lemma SameRgbIsNotSignificant(p: Color, q: Color, threshold: int)
    requires threshold >= 0
    requires p.r == q.r && p.g == q.g && p.b == q.b
    ensures !IsSignificantlyDifferent(p, q, threshold)
  {
  }

  /** A pixel takes part in the vote against `background`. */
  predicate Qualifies(background: Color, c: Color) {
    IsSignificantlyDifferent(c, background, DifferenceThreshold)
  }

  /** Pixels of colour `c` in column `x` of the region, rows `0 .. yEnd`. */
  function ColumnCount(img: Image, region: Rect, c: Color, x: int, yEnd: int): nat
    reads img
    requires RegionInImage(img, region)
    requires 0 <= x < region.width && 0 <= yEnd <= region.height
    decreases yEnd
  {
    if yEnd == 0 then 0
    else ColumnCount(img, region, c, x, yEnd - 1) + (if Pixel(img, region, x, yEnd - 1) == c then 1 else 0)
  }

  /** Pixels of colour `c` in columns `0 .. xEnd` of the region. */
  function CountBefore(img: Image, region: Rect, c: Color, xEnd: int): nat
    reads img
    requires RegionInImage(img, region)
    requires 0 <= xEnd <= region.width
    decreases xEnd
  {
    if xEnd == 0 then 0
    else CountBefore(img, region, c, xEnd - 1) + ColumnCount(img, region, c, xEnd - 1, region.height)
  }

  /** How many pixels of the region have colour `c` (all four channels). */
  function PixelCount(img: Image, region: Rect, c: Color): nat
    reads img
    requires RegionInImage(img, region)
  {
    CountBefore(img, region, c, region.width)
  }

  /** Some pixel of the region has colour `c`. */
  ghost predicate Occurs(img: Image, region: Rect, c: Color)
    reads img
    requires RegionInImage(img, region)
  {
    exists x, y :: 0 <= x < region.width && 0 <= y < region.height && Pixel(img, region, x, y) == c
  }

  lemma {:induction false} ColumnCountPositive(img: Image, region: Rect, c: Color, x: int, yEnd: int)
    requires RegionInImage(img, region)
    requires 0 <= x < region.width && 0 <= yEnd <= region.height
    ensures ColumnCount(img, region, c, x, yEnd) > 0 <==>
            exists y :: 0 <= y < yEnd && Pixel(img, region, x, y) == c
  {
    if yEnd > 0 {
      ColumnCountPositive(img, region, c, x, yEnd - 1);
    }
  }

  lemma {:induction false} CountBeforePositive(img: Image, region: Rect, c: Color, xEnd: int)
    requires RegionInImage(img, region)
    requires 0 <= xEnd <= region.width
    ensures CountBefore(img, region, c, xEnd) > 0 <==>
            exists x, y :: 0 <= x < xEnd && 0 <= y < region.height && Pixel(img, region, x, y) == c
  {
    if xEnd > 0 {
      CountBeforePositive(img, region, c, xEnd - 1);
      ColumnCountPositive(img, region, c, xEnd - 1, region.height);
      if CountBefore(img, region, c, xEnd) > 0 {
        if CountBefore(img, region, c, xEnd - 1) == 0 {
          var y :| 0 <= y < region.height && Pixel(img, region, xEnd - 1, y) == c;
          assert 0 <= xEnd - 1 < xEnd;
        }
      }
    }
  }

  /** The histogram count of a colour is positive exactly when the colour
      occurs in the region. */
  lemma PixelCountPositive(img: Image, region: Rect, c: Color)
    requires RegionInImage(img, region)
    ensures PixelCount(img, region, c) > 0 <==> Occurs(img, region, c)
  {
    CountBeforePositive(img, region, c, region.width);
  }

  /** What `GetWordTextColor` promises: White when no pixel of the region
      qualifies; otherwise a qualifying colour that occurs in the region and
      whose pixel count no other qualifying colour exceeds. Which of several
      equally frequent colours is chosen is left open. */
  ghost predicate IsDominantTextColor(img: Image, region: Rect, background: Color, color: Color)
    reads img
    requires RegionInImage(img, region)
  {
    && ((forall c :: Qualifies(background, c) ==> PixelCount(img, region, c) == 0) ==> color == White)
    && ((exists c :: Qualifies(background, c) && PixelCount(img, region, c) > 0) ==>
          && Qualifies(background, color)
          && PixelCount(img, region, color) > 0
          && forall c :: Qualifies(background, c) ==> PixelCount(img, region, c) <= PixelCount(img, region, color))
  }

  /** `GetWordTextColor`: counts every qualifying pixel of the word's region in
      a histogram, column by column, and returns its most frequent colour, or
      White when the histogram stays empty. */
  method GetWordTextColor(img: Image, region: Rect, background: Color) returns (color: Color)
    requires RegionInImage(img, region)
    ensures IsDominantTextColor(img, region, background, color)
  {
    var histogram := CountColors(img, region, background);
    color := White;
    if histogram.Keys != {} {
      color := MostFrequent(histogram);
    } else {
      assert forall c :: Qualifies(background, c) ==> PixelCount(img, region, c) == 0 by {
        forall c | Qualifies(background, c) ensures PixelCount(img, region, c) == 0 {
          assert c !in histogram;
        }
      }
    }
  }

  /** The histogram of the qualifying pixels of the region: a colour is a key
      exactly when it qualifies and occurs, and maps to its pixel count. */
  method CountColors(img: Image, region: Rect, background: Color) returns (histogram: map<Color, nat>)
    requires RegionInImage(img, region)
    ensures forall c :: c in histogram <==> Qualifies(background, c) && PixelCount(img, region, c) > 0
    ensures forall c :: c in histogram ==> histogram[c] == PixelCount(img, region, c)
  {
    histogram := map[];
    var x := 0;
    while x < region.width
      invariant 0 <= x <= region.width
      invariant forall c :: c in histogram <==> Qualifies(background, c) && CountBefore(img, region, c, x) > 0
      invariant forall c :: c in histogram ==> histogram[c] == CountBefore(img, region, c, x)
    {
      histogram := CountColumn(img, region, background, x, histogram);
      x := x + 1;
    }
  }

  /** The inner loop: adds the qualifying pixels of column `x`, top to
      bottom, to a histogram of the columns before it. */
  method CountColumn(img: Image, region: Rect, background: Color, x: int, before: map<Color, nat>)
    returns (histogram: map<Color, nat>)
    requires RegionInImage(img, region) && 0 <= x < region.width
    requires forall c :: c in before <==> Qualifies(background, c) && CountBefore(img, region, c, x) > 0
    requires forall c :: c in before ==> before[c] == CountBefore(img, region, c, x)
    ensures forall c :: c in histogram <==> Qualifies(background, c) && CountBefore(img, region, c, x + 1) > 0
    ensures forall c :: c in histogram ==> histogram[c] == CountBefore(img, region, c, x + 1)
  {
    histogram := before;
    var y := 0;
    while y < region.height
      invariant 0 <= y <= region.height
      invariant forall c :: c in histogram <==>
        Qualifies(background, c) && CountBefore(img, region, c, x) + ColumnCount(img, region, c, x, y) > 0
      invariant forall c :: c in histogram ==>
        histogram[c] == CountBefore(img, region, c, x) + ColumnCount(img, region, c, x, y)
    {
      var pixel := img[region.x + x, region.y + y];
      assert pixel == Pixel(img, region, x, y);
      if IsSignificantlyDifferent(pixel, background, DifferenceThreshold) {
        if pixel in histogram {
          histogram := histogram[pixel := histogram[pixel] + 1];
        } else {
          histogram := histogram[pixel := 1];
        }
      }
      y := y + 1;
    }
    assert forall c :: CountBefore(img, region, c, x + 1) ==
                       CountBefore(img, region, c, x) + ColumnCount(img, region, c, x, region.height);
  }

  /** The selection loop: a key of the histogram whose count no other key
      exceeds. */
  method MostFrequent(histogram: map<Color, nat>) returns (best: Color)
    requires histogram.Keys != {}
    ensures best in histogram && forall c :: c in histogram ==> histogram[c] <= histogram[best]
  {
    var remaining := histogram.Keys;
    best :| best in remaining;
    remaining := remaining - {best};
    while remaining != {}
      invariant remaining <= histogram.Keys
      invariant best in histogram
      invariant forall c :: c in histogram && c !in remaining ==> histogram[c] <= histogram[best]
      decreases remaining
    {
      var c :| c in remaining;
      if histogram[c] > histogram[best] {
        best := c;
      }
      remaining := remaining - {c};
    }
  }

  /** A word region whose every pixel has the background's RGB channels gets
      White, the fallback. */
  lemma UniformRegionGivesWhite(img: Image, region: Rect, background: Color, color: Color)
    requires RegionInImage(img, region)
    requires forall x, y :: 0 <= x < region.width && 0 <= y < region.height ==>
               var p := Pixel(img, region, x, y); p.r == background.r && p.g == background.g && p.b == background.b
    requires IsDominantTextColor(img, region, background, color)
    ensures color == White
  {
    forall c | Qualifies(background, c)
      ensures PixelCount(img, region, c) == 0
    {
      PixelCountPositive(img, region, c);
      if Occurs(img, region, c) {
        var x, y :| 0 <= x < region.width && 0 <= y < region.height && Pixel(img, region, x, y) == c;
        SameRgbIsNotSignificant(c, background, DifferenceThreshold);
        assert false;
      }
    }
  }

  // ---------------------------------------------------------------------
  // Background colour

  /** Which channel of a colour. */
  datatype Channel3 = R | G | B

  function ChannelOf(c: Color, ch: Channel3): Channel {
    match ch
    case R => c.r
    case G => c.g
    case B => c.b
  }

  /** Sum of one channel over a sequence of colours, accumulated front to back. */
  function ChannelSum(s: seq<Color>, ch: Channel3): (total: nat)
    ensures total <= 255 * |s|
  {
    if |s| == 0 then 0
    else
      assert 255 * |s| == 255 * (|s| - 1) + 255;
      ChannelSum(s[..|s| - 1], ch) + ChannelOf(s[|s| - 1], ch)
  }

  /** `Color.FromArgb(totalR / count, totalG / count, totalB / count)`: the
      truncated per-channel mean, opaque. */
  function MeanColor(s: seq<Color>): Color
    requires |s| > 0
  {
    DivBounds(ChannelSum(s, R), |s|, 0, 255);
    DivBounds(ChannelSum(s, G), |s|, 0, 255);
    DivBounds(ChannelSum(s, B), |s|, 0, 255);
    FromRgb(ChannelSum(s, R) / |s|, ChannelSum(s, G) / |s|, ChannelSum(s, B) / |s|)
  }

  /** The top and bottom pixels of columns `0 .. k`, top first. */
  function RowSamples(img: Image, rect: Rect, k: int): (s: seq<Color>)
    reads img
    requires RegionInImage(img, rect) && rect.height > 0
    requires 0 <= k <= rect.width
    ensures |s| == 2 * k
    decreases k
  {
    if k == 0 then []
    else RowSamples(img, rect, k - 1) + [Pixel(img, rect, k - 1, 0), Pixel(img, rect, k - 1, rect.height - 1)]
  }

  /** The left and right pixels of rows `0 .. k`, left first. */
  function ColumnSamples(img: Image, rect: Rect, k: int): (s: seq<Color>)
    reads img
    requires RegionInImage(img, rect) && rect.width > 0
    requires 0 <= k <= rect.height
    ensures |s| == 2 * k
    decreases k
  {
    if k == 0 then []
    else ColumnSamples(img, rect, k - 1) + [Pixel(img, rect, 0, k - 1), Pixel(img, rect, rect.width - 1, k - 1)]
  }

  /** The border samples in the order `GetBackgroundColor` collects them:
      2·width + 2·height pixels, each corner twice. */
  function BorderSamples(img: Image, rect: Rect): seq<Color>
    reads img
    requires RegionInImage(img, rect) && rect.width > 0 && rect.height > 0
  {
    RowSamples(img, rect, rect.width) + ColumnSamples(img, rect, rect.height)
  }

  lemma {:induction false} RowSamplesAt(img: Image, rect: Rect, k: int, j: int)
    requires RegionInImage(img, rect) && rect.height > 0
    requires 0 <= j < k <= rect.width
    ensures RowSamples(img, rect, k)[2 * j] == Pixel(img, rect, j, 0)
    ensures RowSamples(img, rect, k)[2 * j + 1] == Pixel(img, rect, j, rect.height - 1)
  {
    if j < k - 1 {
      RowSamplesAt(img, rect, k - 1, j);
    }
  }

  lemma {:induction false} ColumnSamplesAt(img: Image, rect: Rect, k: int, j: int)
    requires RegionInImage(img, rect) && rect.width > 0
    requires 0 <= j < k <= rect.height
    ensures ColumnSamples(img, rect, k)[2 * j] == Pixel(img, rect, 0, j)
    ensures ColumnSamples(img, rect, k)[2 * j + 1] == Pixel(img, rect, rect.width - 1, j)
  {
    if j < k - 1 {
      ColumnSamplesAt(img, rect, k - 1, j);
    }
  }

  /** The border samples are exactly the top and bottom pixel of every column
      followed by the left and right pixel of every row. */
  lemma BorderSamplesAt(img: Image, rect: Rect)
    requires RegionInImage(img, rect) && rect.width > 0 && rect.height > 0
    ensures |BorderSamples(img, rect)| == 2 * rect.width + 2 * rect.height
    ensures forall j :: 0 <= j < rect.width ==>
              BorderSamples(img, rect)[2 * j] == Pixel(img, rect, j, 0) &&
              BorderSamples(img, rect)[2 * j + 1] == Pixel(img, rect, j, rect.height - 1)
    ensures forall j :: 0 <= j < rect.height ==>
              BorderSamples(img, rect)[2 * rect.width + 2 * j] == Pixel(img, rect, 0, j) &&
              BorderSamples(img, rect)[2 * rect.width + 2 * j + 1] == Pixel(img, rect, rect.width - 1, j)
  {
    var rows := RowSamples(img, rect, rect.width);
    forall j | 0 <= j < rect.width
      ensures BorderSamples(img, rect)[2 * j] == Pixel(img, rect, j, 0)
      ensures BorderSamples(img, rect)[2 * j + 1] == Pixel(img, rect, j, rect.height - 1)
    {
      RowSamplesAt(img, rect, rect.width, j);
    }
    forall j | 0 <= j < rect.height
      ensures BorderSamples(img, rect)[2 * rect.width + 2 * j] == Pixel(img, rect, 0, j)
      ensures BorderSamples(img, rect)[2 * rect.width + 2 * j + 1] == Pixel(img, rect, rect.width - 1, j)
    {
      ColumnSamplesAt(img, rect, rect.height, j);
    }
  }

  /** A non-empty region whose border sums cannot overflow C#'s `int`. */
  predicate BackgroundRegion(img: Image, rect: Rect) {
    RegionInImage(img, rect) && rect.width > 0 && rect.height > 0 &&
    255 * (2 * rect.width + 2 * rect.height) <= Int32Max
  }

  /** `GetBackgroundColor` on the clone of `rect`: collects the border pixels,
      sums each channel and divides by the number of samples. */
  method GetBackgroundColor(img: Image, rect: Rect) returns (color: Color)
    requires BackgroundRegion(img, rect)
    ensures color == MeanColor(BorderSamples(img, rect))
  {
    var borderPixels := CollectBorder(img, rect);
    var totalR, totalG, totalB := SumChannels(borderPixels);
    var count := |borderPixels|;
    DivBounds(totalR, count, 0, 255);
    DivBounds(totalG, count, 0, 255);
    DivBounds(totalB, count, 0, 255);
    color := FromRgb(totalR / count, totalG / count, totalB / count);
  }

  /** The two sampling loops: the top and bottom pixel of every column, then
      the left and right pixel of every row. */
  method CollectBorder(img: Image, rect: Rect) returns (borderPixels: seq<Color>)
    requires RegionInImage(img, rect) && rect.width > 0 && rect.height > 0
    ensures borderPixels == BorderSamples(img, rect)
  {
    var width := rect.width;
    var height := rect.height;
    borderPixels := [];
    var x := 0;
    while x < width
      invariant 0 <= x <= width
      invariant borderPixels == RowSamples(img, rect, x)
    {
      borderPixels := borderPixels + [Pixel(img, rect, x, 0), Pixel(img, rect, x, height - 1)];
      x := x + 1;
    }
    var y := 0;
    while y < height
      invariant 0 <= y <= height
      invariant borderPixels == RowSamples(img, rect, width) + ColumnSamples(img, rect, y)
    {
      assert ColumnSamples(img, rect, y + 1) ==
        ColumnSamples(img, rect, y) + [Pixel(img, rect, 0, y), Pixel(img, rect, width - 1, y)];
      borderPixels := borderPixels + [Pixel(img, rect, 0, y), Pixel(img, rect, width - 1, y)];
      y := y + 1;
    }
  }

  /** The summing loop: the three channel totals of the samples. */
  method SumChannels(samples: seq<Color>) returns (totalR: int, totalG: int, totalB: int)
    ensures totalR == ChannelSum(samples, R)
    ensures totalG == ChannelSum(samples, G)
    ensures totalB == ChannelSum(samples, B)
  {
    totalR, totalG, totalB := 0, 0, 0;
    var i := 0;
    while i < |samples|
      invariant 0 <= i <= |samples|
      invariant totalR == ChannelSum(samples[..i], R)
      invariant totalG == ChannelSum(samples[..i], G)
      invariant totalB == ChannelSum(samples[..i], B)
    {
      assert samples[..i + 1][..i] == samples[..i];
      totalR := totalR + samples[i].r;
      totalG := totalG + samples[i].g;
      totalB := totalB + samples[i].b;
      i := i + 1;
    }
    assert samples[..i] == samples;
  }

  lemma {:induction false} ChannelSumBounds(s: seq<Color>, ch: Channel3, lo: int, hi: int)
    requires forall i :: 0 <= i < |s| ==> lo <= ChannelOf(s[i], ch) <= hi
    ensures lo * |s| <= ChannelSum(s, ch) <= hi * |s|
  {
    if |s| > 0 {
      var n := |s| - 1;
      var init := s[..n];
      assert forall i :: 0 <= i < n ==> init[i] == s[i];
      ChannelSumBounds(init, ch, lo, hi);
      assert ChannelSum(s, ch) == ChannelSum(init, ch) + ChannelOf(s[n], ch);
      MulSucc(lo, n);
      MulSucc(hi, n);
    }
  }

  lemma MulSucc(a: int, n: nat)
    ensures a * (n + 1) == a * n + a
  {
  }

  /** Each channel of the mean lies between the least and the greatest value
      that channel takes among the samples. */
  lemma MeanWithinBounds(s: seq<Color>, ch: Channel3, lo: int, hi: int)
    requires |s| > 0
    requires forall i :: 0 <= i < |s| ==> lo <= ChannelOf(s[i], ch) <= hi
    ensures lo <= ChannelOf(MeanColor(s), ch) <= hi
  {
    ChannelSumBounds(s, ch, lo, hi);
    var n := |s|;
    var total := ChannelSum(s, ch);
    assert ChannelOf(MeanColor(s), ch) == total / n;
    DivBounds(total, n, lo, hi);
  }

  lemma DivBounds(total: int, n: int, lo: int, hi: int)
    requires n > 0 && lo * n <= total <= hi * n
    ensures lo <= total / n <= hi
  {
    var q := total / n;
    assert total == q * n + total % n && 0 <= total % n < n;
    assert (q + 1 - lo) * n > 0;
    PositiveFactor(q + 1 - lo, n);
    assert (hi - q) * n + n > 0;
    assert (hi - q + 1) * n > 0;
    PositiveFactor(hi - q + 1, n);
  }

  lemma PositiveFactor(a: int, n: int)
    requires n > 0 && a * n > 0
    ensures a > 0
  {
  }

  /** A border whose pixels all share one RGB value yields that value, opaque. */
  lemma UniformBorderGivesItsColor(img: Image, rect: Rect, c: Color)
    requires RegionInImage(img, rect) && rect.width > 0 && rect.height > 0
    requires forall x, y ::
               (0 <= x < rect.width && 0 <= y < rect.height &&
                (x == 0 || x == rect.width - 1 || y == 0 || y == rect.height - 1)) ==>
               var p := Pixel(img, rect, x, y); p.r == c.r && p.g == c.g && p.b == c.b
    ensures MeanColor(BorderSamples(img, rect)) == FromRgb(c.r, c.g, c.b)
  {
    var s := BorderSamples(img, rect);
    BorderSamplesAt(img, rect);
    forall i | 0 <= i < |s|
      ensures s[i].r == c.r && s[i].g == c.g && s[i].b == c.b
    {
      if i < 2 * rect.width {
        var j := i / 2;
        assert i == 2 * j || i == 2 * j + 1;
        assert s[2 * j] == Pixel(img, rect, j, 0);
        assert s[2 * j + 1] == Pixel(img, rect, j, rect.height - 1);
      } else {
        var j := (i - 2 * rect.width) / 2;
        assert i == 2 * rect.width + 2 * j || i == 2 * rect.width + 2 * j + 1;
        assert s[2 * rect.width + 2 * j] == Pixel(img, rect, 0, j);
        assert s[2 * rect.width + 2 * j + 1] == Pixel(img, rect, rect.width - 1, j);
      }
    }
    MeanWithinBounds(s, R, c.r, c.r);
    MeanWithinBounds(s, G, c.g, c.g);
    MeanWithinBounds(s, B, c.b, c.b);
  }

  // ---------------------------------------------------------------------
  // Lightening

  /** `LightenColor`: adds `amount` to each RGB channel with C#'s unchecked
      32-bit addition, caps at 255 and keeps alpha. `Color.FromArgb` throws on
      a negative channel, which is `None` here. */
  function LightenColor(color: Color, amount: int): Option<Color>
    requires IsInt32(amount)
  {
    var r := Min(255, WrapInt32(color.r + amount));
    var g := Min(255, WrapInt32(color.g + amount));
    var b := Min(255, WrapInt32(color.b + amount));
    if r < 0 || g < 0 || b < 0 then None else Some(Color(color.a, r, g, b))
  }

  /** For amounts that cannot overflow, lightening never fails, keeps alpha,
      never darkens a channel and yields min(255, channel + amount). */
  lemma LightenIsClamped(color: Color, amount: int)
    requires 0 <= amount <= Int32Max - 255
    ensures LightenColor(color, amount).Some?
    ensures var l := LightenColor(color, amount).value;
      && l.a == color.a
      && color.r <= l.r && color.g <= l.g && color.b <= l.b
      && l.r == Min(255, color.r + amount)
      && l.g == Min(255, color.g + amount)
      && l.b == Min(255, color.b + amount)
  {
  }

  /** A larger amount never gives a darker channel. */
  lemma LightenIsMonotonic(color: Color, a1: int, a2: int)
    requires 0 <= a1 <= a2 <= Int32Max - 255
    ensures LightenColor(color, a1).Some? && LightenColor(color, a2).Some?
    ensures LightenColor(color, a1).value.r <= LightenColor(color, a2).value.r
    ensures LightenColor(color, a1).value.g <= LightenColor(color, a2).value.g
    ensures LightenColor(color, a1).value.b <= LightenColor(color, a2).value.b
  {
  }

  /** At `int.MaxValue` the 32-bit sum wraps for any positive channel, so the
      source's `Color.FromArgb` throws. */
  lemma LightenOverflowFails(color: Color)
    requires color.r > 0
    ensures LightenColor(color, Int32Max) == None
  {
    assert WrapInt32(color.r + Int32Max) == color.r + Int32Max - 0x1_0000_0000;
  }
}
