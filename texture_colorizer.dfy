/**
 * TextureColorizer: RGBA pixels, the brightest/darkest scan of an image, and
 * the recolouring of grayscale pixels along the line between two colours.
 */
module TextureColorizer {
  import opened Images
  import opened ByteConversions
  import opened JavaNumbers
  import opened Wrappers

  /** A pixel as the source holds it: four Java ints, not necessarily in 0..255. */
  datatype Pixel = Pixel(r: int, g: int, b: int, a: int) {

    predicate IsGrayscale()
    {
      r == g && g == b
    }

    predicate InRange()
    {
      0 <= r < 256 && 0 <= g < 256 && 0 <= b < 256 && 0 <= a < 256
    }

    /** `(r + g + b) / 3` with Java's truncating division. */
    function Brightness(): (v: int)
      ensures r + g + b >= 0 ==> 3 * v <= r + g + b < 3 * v + 3
      ensures InRange() ==> 0 <= v <= 255
      ensures IsGrayscale() ==> v == r
    {
      JavaDiv(r + g + b, 3)
    }
  }

  const White := Pixel(255, 255, 255, 255)
  const Black := Pixel(0, 0, 0, 255)

  /** `toARGB()`: the four channels shifted into place and or-ed together, as Java ints. */
  function ToARGB(p: Pixel): (w: Word)
    ensures p.InRange() ==> w == Join(p.a as bv8, p.r as bv8, p.g as bv8, p.b as bv8)
  {
    if p.InRange() then
      PackIntsOfBytes(p.a, p.r, p.g, p.b);
      PackInts(p.a, p.r, p.g, p.b)
    else
      PackInts(p.a, p.r, p.g, p.b)
  }

  /** `getPixel`: the four bytes of a packed word. */
  function GetPixel(w: Word): (p: Pixel)
    ensures p.InRange()
  {
    Pixel(Byte(w, 16) as int, Byte(w, 8) as int, Byte(w, 0) as int, Byte(w, 24) as int)
  }

  /** Unpacking inverts packing for every pixel whose channels lie in 0..255. */
  lemma GetPixelOfARGB(p: Pixel)
    requires p.InRange()
    ensures GetPixel(ToARGB(p)) == p
  {
    PackIntsOfBytes(p.a, p.r, p.g, p.b);
    ByteOfJoin(p.a as bv8, p.r as bv8, p.g as bv8, p.b as bv8);
    ByteRoundTrip(p.r);
    ByteRoundTrip(p.g);
    ByteRoundTrip(p.b);
    ByteRoundTrip(p.a);
  }

  /** Packing inverts unpacking for every 32-bit word. */
  lemma ARGBOfGetPixel(w: Word)
    ensures ToARGB(GetPixel(w)) == w
  {
    var p := GetPixel(w);
    PackIntsOfBytes(p.a, p.r, p.g, p.b);
    IntRoundTrip(Byte(w, 24));
    IntRoundTrip(Byte(w, 16));
    IntRoundTrip(Byte(w, 8));
    IntRoundTrip(Byte(w, 0));
    JoinOfBytes(w);
  }

  /** The result of a scan (the source's GrayscaleAnalysis). */
  datatype GrayscaleAnalysis = GrayscaleAnalysis(
    brightest: int,
    darkest: int,
    brightestPixel: Pixel,
    darkestPixel: Pixel,
    maxBrightness: int,
    minBrightness: int)

  function At(img: array2<Word>, y: int, x: int): Pixel
    requires Inside(img, y, x)
    reads img
  {
    GetPixel(img[y, x])
  }

  /** A pixel the scan considers: not fully transparent and, for the grayscale scan, gray. */
  predicate Eligible(p: Pixel, grayscaleOnly: bool)
  {
    p.a > 0 && (!grayscaleOnly || p.IsGrayscale())
  }

  ghost predicate AnyEligible(img: array2<Word>, grayscaleOnly: bool)
    reads img
  {
    exists y, x :: Inside(img, y, x) && Eligible(At(img, y, x), grayscaleOnly)
  }

  /** (y, x) holds the greatest brightness among eligible pixels, and no eligible pixel before it reaches it. */
  ghost predicate FirstBrightest(img: array2<Word>, grayscaleOnly: bool, y: int, x: int)
    reads img
  {
    && Inside(img, y, x)
    && Eligible(At(img, y, x), grayscaleOnly)
    && (forall y', x' :: Inside(img, y', x') && Eligible(At(img, y', x'), grayscaleOnly) ==>
          At(img, y', x').Brightness() <= At(img, y, x).Brightness())
    && (forall y', x' :: Inside(img, y', x') && Before(y', x', y, x) && Eligible(At(img, y', x'), grayscaleOnly) ==>
          At(img, y', x').Brightness() < At(img, y, x).Brightness())
  }

  /** (y, x) holds the least brightness among eligible pixels, and no eligible pixel before it gets that low. */
  ghost predicate FirstDarkest(img: array2<Word>, grayscaleOnly: bool, y: int, x: int)
    reads img
  {
    && Inside(img, y, x)
    && Eligible(At(img, y, x), grayscaleOnly)
    && (forall y', x' :: Inside(img, y', x') && Eligible(At(img, y', x'), grayscaleOnly) ==>
          At(img, y', x').Brightness() >= At(img, y, x).Brightness())
    && (forall y', x' :: Inside(img, y', x') && Before(y', x', y, x) && Eligible(At(img, y', x'), grayscaleOnly) ==>
          At(img, y', x').Brightness() > At(img, y, x).Brightness())
  }

  /**
   * What a scan promises: the constant fields 255 and 0; opaque white, opaque black,
   * -1 and 256 when no pixel is eligible; otherwise the first brightest and the first
   * darkest eligible pixel in row-major order, with their brightnesses.
   */
  ghost predicate IsAnalysis(img: array2<Word>, grayscaleOnly: bool, r: GrayscaleAnalysis)
    reads img
  {
    && r.brightest == 255 && r.darkest == 0
    && (!AnyEligible(img, grayscaleOnly) ==>
          r.brightestPixel == White && r.darkestPixel == Black && r.maxBrightness == -1 && r.minBrightness == 256)
    && (AnyEligible(img, grayscaleOnly) ==>
          && (exists y, x :: FirstBrightest(img, grayscaleOnly, y, x) &&
                r.brightestPixel == At(img, y, x) && r.maxBrightness == At(img, y, x).Brightness())
          && (exists y, x :: FirstDarkest(img, grayscaleOnly, y, x) &&
                r.darkestPixel == At(img, y, x) && r.minBrightness == At(img, y, x).Brightness()))
  }

  /** Loop state of the scan for the maximum, after visiting every position before (y, x). */
  ghost predicate MaxSoFar(img: array2<Word>, grayscaleOnly: bool, y: int, x: int,
                           maxB: int, best: Option<Pixel>, py: int, px: int)
    reads img
  {
    && (best.None? ==> (maxB == -1 &&
          forall y', x' :: Inside(img, y', x') && Before(y', x', y, x) ==> !Eligible(At(img, y', x'), grayscaleOnly)))
    && (best.Some? ==>
          && Inside(img, py, px) && Before(py, px, y, x)
          && best.value == At(img, py, px) && Eligible(best.value, grayscaleOnly)
          && maxB == best.value.Brightness()
          && (forall y', x' :: Inside(img, y', x') && Before(y', x', y, x) && Eligible(At(img, y', x'), grayscaleOnly) ==>
                At(img, y', x').Brightness() <= maxB)
          && (forall y', x' :: Inside(img, y', x') && Before(y', x', py, px) && Eligible(At(img, y', x'), grayscaleOnly) ==>
                At(img, y', x').Brightness() < maxB))
  }

  /** Loop state of the scan for the minimum, after visiting every position before (y, x). */
  ghost predicate MinSoFar(img: array2<Word>, grayscaleOnly: bool, y: int, x: int,
                           minB: int, best: Option<Pixel>, py: int, px: int)
    reads img
  {
    && (best.None? ==> (minB == 256 &&
          forall y', x' :: Inside(img, y', x') && Before(y', x', y, x) ==> !Eligible(At(img, y', x'), grayscaleOnly)))
    && (best.Some? ==>
          && Inside(img, py, px) && Before(py, px, y, x)
          && best.value == At(img, py, px) && Eligible(best.value, grayscaleOnly)
          && minB == best.value.Brightness()
          && (forall y', x' :: Inside(img, y', x') && Before(y', x', y, x) && Eligible(At(img, y', x'), grayscaleOnly) ==>
                At(img, y', x').Brightness() >= minB)
          && (forall y', x' :: Inside(img, y', x') && Before(y', x', py, px) && Eligible(At(img, y', x'), grayscaleOnly) ==>
                At(img, y', x').Brightness() > minB))
  }

  /** Visiting (y, x) keeps MaxSoFar: a strictly brighter eligible pixel becomes the new best. */
  lemma MaxStep(img: array2<Word>, grayscaleOnly: bool, y: int, x: int,
                maxB: int, best: Option<Pixel>, py: int, px: int,
                maxB': int, best': Option<Pixel>, py': int, px': int)
    requires Inside(img, y, x) && MaxSoFar(img, grayscaleOnly, y, x, maxB, best, py, px)
    requires var p := At(img, y, x);
             if Eligible(p, grayscaleOnly) && p.Brightness() > maxB
             then maxB' == p.Brightness() && best' == Some(p) && py' == y && px' == x
             else maxB' == maxB && best' == best && py' == py && px' == px
    ensures MaxSoFar(img, grayscaleOnly, y, x + 1, maxB', best', py', px')
  {
  }

  /** Visiting (y, x) keeps MinSoFar: a strictly darker eligible pixel becomes the new best. */
  lemma MinStep(img: array2<Word>, grayscaleOnly: bool, y: int, x: int,
                minB: int, best: Option<Pixel>, py: int, px: int,
                minB': int, best': Option<Pixel>, py': int, px': int)
    requires Inside(img, y, x) && MinSoFar(img, grayscaleOnly, y, x, minB, best, py, px)
    requires var p := At(img, y, x);
             if Eligible(p, grayscaleOnly) && p.Brightness() < minB
             then minB' == p.Brightness() && best' == Some(p) && py' == y && px' == x
             else minB' == minB && best' == best && py' == py && px' == px
    ensures MinSoFar(img, grayscaleOnly, y, x + 1, minB', best', py', px')
  {
  }

  /** The end of a row is the start of the next one. */
  lemma NextRow(img: array2<Word>, grayscaleOnly: bool, y: int,
                maxB: int, best: Option<Pixel>, py: int, px: int,
                minB: int, dark: Option<Pixel>, qy: int, qx: int)
    requires MaxSoFar(img, grayscaleOnly, y, img.Length1, maxB, best, py, px)
    requires MinSoFar(img, grayscaleOnly, y, img.Length1, minB, dark, qy, qx)
    ensures MaxSoFar(img, grayscaleOnly, y + 1, 0, maxB, best, py, px)
    ensures MinSoFar(img, grayscaleOnly, y + 1, 0, minB, dark, qy, qx)
  {
  }

  /** After the last row the running state is the scan's result. */
  lemma ScanComplete(img: array2<Word>, grayscaleOnly: bool,
                     maxB: int, best: Option<Pixel>, py: int, px: int,
                     minB: int, dark: Option<Pixel>, qy: int, qx: int)
    requires MaxSoFar(img, grayscaleOnly, img.Length0, 0, maxB, best, py, px)
    requires MinSoFar(img, grayscaleOnly, img.Length0, 0, minB, dark, qy, qx)
    ensures IsAnalysis(img, grayscaleOnly,
              GrayscaleAnalysis(255, 0, if best.None? then White else best.value,
                                if dark.None? then Black else dark.value, maxB, minB))
  {
    if AnyEligible(img, grayscaleOnly) {
      var y, x :| Inside(img, y, x) && Eligible(At(img, y, x), grayscaleOnly);
      assert Before(y, x, img.Length0, 0);
      assert FirstBrightest(img, grayscaleOnly, py, px);
      assert FirstDarkest(img, grayscaleOnly, qy, qx);
    }
  }

  /** One step of the scan: the pixel at (y, x) is compared with the running maximum and minimum. */
  method Visit(img: array2<Word>, grayscaleOnly: bool, y: int, x: int,
               maxB0: int, brightest0: Option<Pixel>, ghost bestY0: int, ghost bestX0: int,
               minB0: int, darkest0: Option<Pixel>, ghost darkY0: int, ghost darkX0: int)
    returns (maxB: int, brightestPixel: Option<Pixel>, ghost bestY: int, ghost bestX: int,
             minB: int, darkestPixel: Option<Pixel>, ghost darkY: int, ghost darkX: int)
    requires Inside(img, y, x)
    requires MaxSoFar(img, grayscaleOnly, y, x, maxB0, brightest0, bestY0, bestX0)
    requires MinSoFar(img, grayscaleOnly, y, x, minB0, darkest0, darkY0, darkX0)
    ensures MaxSoFar(img, grayscaleOnly, y, x + 1, maxB, brightestPixel, bestY, bestX)
    ensures MinSoFar(img, grayscaleOnly, y, x + 1, minB, darkestPixel, darkY, darkX)
  {
    maxB, brightestPixel, bestY, bestX := maxB0, brightest0, bestY0, bestX0;
    minB, darkestPixel, darkY, darkX := minB0, darkest0, darkY0, darkX0;
    var pixel := GetPixel(img[y, x]);
    if pixel.a > 0 && (!grayscaleOnly || pixel.IsGrayscale()) {
      var brightness := pixel.Brightness();
      if brightness > maxB {
        maxB := brightness;
        brightestPixel := Some(pixel);
        bestY, bestX := y, x;
      }
      if brightness < minB {
        minB := brightness;
        darkestPixel := Some(pixel);
        darkY, darkX := y, x;
      }
    }
    MaxStep(img, grayscaleOnly, y, x, maxB0, brightest0, bestY0, bestX0, maxB, brightestPixel, bestY, bestX);
    MinStep(img, grayscaleOnly, y, x, minB0, darkest0, darkY0, darkX0, minB, darkestPixel, darkY, darkX);
  }

  /** One row of the scan, columns left to right. */
  method ScanRow(img: array2<Word>, grayscaleOnly: bool, y: int,
                 maxB0: int, brightest0: Option<Pixel>, ghost bestY0: int, ghost bestX0: int,
                 minB0: int, darkest0: Option<Pixel>, ghost darkY0: int, ghost darkX0: int)
    returns (maxB: int, brightestPixel: Option<Pixel>, ghost bestY: int, ghost bestX: int,
             minB: int, darkestPixel: Option<Pixel>, ghost darkY: int, ghost darkX: int)
    requires 0 <= y < img.Length0
    requires MaxSoFar(img, grayscaleOnly, y, 0, maxB0, brightest0, bestY0, bestX0)
    requires MinSoFar(img, grayscaleOnly, y, 0, minB0, darkest0, darkY0, darkX0)
    ensures MaxSoFar(img, grayscaleOnly, y + 1, 0, maxB, brightestPixel, bestY, bestX)
    ensures MinSoFar(img, grayscaleOnly, y + 1, 0, minB, darkestPixel, darkY, darkX)
  {
    maxB, brightestPixel, bestY, bestX := maxB0, brightest0, bestY0, bestX0;
    minB, darkestPixel, darkY, darkX := minB0, darkest0, darkY0, darkX0;
    var x := 0;
    while x < img.Length1
      invariant 0 <= x <= img.Length1
      invariant MaxSoFar(img, grayscaleOnly, y, x, maxB, brightestPixel, bestY, bestX)
      invariant MinSoFar(img, grayscaleOnly, y, x, minB, darkestPixel, darkY, darkX)
    {
      maxB, brightestPixel, bestY, bestX, minB, darkestPixel, darkY, darkX :=
        Visit(img, grayscaleOnly, y, x, maxB, brightestPixel, bestY, bestX, minB, darkestPixel, darkY, darkX);
      x := x + 1;
    }
    assert x == img.Length1;
    NextRow(img, grayscaleOnly, y, maxB, brightestPixel, bestY, bestX, minB, darkestPixel, darkY, darkX);
  }

  /**
   * The scan shared by `analyzeGrayscale` (grayscaleOnly) and `analyzeColors`: rows top to
   * bottom, starting from maximum -1, minimum 256 and no pixels; white and black stand in
   * for pixels never found.
   */
  method Analyze(img: array2<Word>, grayscaleOnly: bool) returns (r: GrayscaleAnalysis)
    ensures IsAnalysis(img, grayscaleOnly, r)
  {
    var maxB, minB := -1, 256;
    var brightestPixel: Option<Pixel> := None;
    var darkestPixel: Option<Pixel> := None;
    ghost var bestY, bestX, darkY, darkX := 0, 0, 0, 0;
    var y := 0;
    while y < img.Length0
      invariant 0 <= y <= img.Length0
      invariant MaxSoFar(img, grayscaleOnly, y, 0, maxB, brightestPixel, bestY, bestX)
      invariant MinSoFar(img, grayscaleOnly, y, 0, minB, darkestPixel, darkY, darkX)
    {
      maxB, brightestPixel, bestY, bestX, minB, darkestPixel, darkY, darkX :=
        ScanRow(img, grayscaleOnly, y, maxB, brightestPixel, bestY, bestX, minB, darkestPixel, darkY, darkX);
      y := y + 1;
    }
    var bright := if brightestPixel.None? then White else brightestPixel.value;
    var dark := if darkestPixel.None? then Black else darkestPixel.value;
    r := GrayscaleAnalysis(255, 0, bright, dark, maxB, minB);
    ScanComplete(img, grayscaleOnly, maxB, brightestPixel, bestY, bestX, minB, darkestPixel, darkY, darkX);
  }

  /** `analyzeGrayscale`: the scan restricted to opaque-enough gray pixels. */
  method AnalyzeGrayscale(img: array2<Word>) returns (r: GrayscaleAnalysis)
    ensures IsAnalysis(img, true, r)
  {
    r := Analyze(img, true);
  }

  /** `analyzeColors`: the scan over every pixel that is not fully transparent. */
  method AnalyzeColors(img: array2<Word>) returns (r: GrayscaleAnalysis)
    ensures IsAnalysis(img, false, r)
  {
    r := Analyze(img, false);
  }

  /** A scan's result is determined by the image: two results meeting IsAnalysis are equal. */
  lemma AnalysisUnique(img: array2<Word>, grayscaleOnly: bool, r1: GrayscaleAnalysis, r2: GrayscaleAnalysis)
    requires IsAnalysis(img, grayscaleOnly, r1) && IsAnalysis(img, grayscaleOnly, r2)
    ensures r1 == r2
  {
    if AnyEligible(img, grayscaleOnly) {
      var y1, x1 :| FirstBrightest(img, grayscaleOnly, y1, x1) &&
        r1.brightestPixel == At(img, y1, x1) && r1.maxBrightness == At(img, y1, x1).Brightness();
      var y2, x2 :| FirstBrightest(img, grayscaleOnly, y2, x2) &&
        r2.brightestPixel == At(img, y2, x2) && r2.maxBrightness == At(img, y2, x2).Brightness();
      assert !Before(y1, x1, y2, x2) && !Before(y2, x2, y1, x1);
      var u1, v1 :| FirstDarkest(img, grayscaleOnly, u1, v1) &&
        r1.darkestPixel == At(img, u1, v1) && r1.minBrightness == At(img, u1, v1).Brightness();
      var u2, v2 :| FirstDarkest(img, grayscaleOnly, u2, v2) &&
        r2.darkestPixel == At(img, u2, v2) && r2.minBrightness == At(img, u2, v2).Brightness();
      assert !Before(u1, v1, u2, v2) && !Before(u2, v2, u1, v1);
    }
  }

  /** When some pixel is eligible, 0 <= minBrightness <= maxBrightness <= 255. */
  lemma AnalysisBounds(img: array2<Word>, grayscaleOnly: bool, r: GrayscaleAnalysis)
    requires IsAnalysis(img, grayscaleOnly, r) && AnyEligible(img, grayscaleOnly)
    ensures 0 <= r.minBrightness <= r.maxBrightness <= 255
  {
    var y1, x1 :| FirstBrightest(img, grayscaleOnly, y1, x1) &&
      r.brightestPixel == At(img, y1, x1) && r.maxBrightness == At(img, y1, x1).Brightness();
    var y2, x2 :| FirstDarkest(img, grayscaleOnly, y2, x2) &&
      r.darkestPixel == At(img, y2, x2) && r.minBrightness == At(img, y2, x2).Brightness();
    assert At(img, y2, x2).Brightness() <= At(img, y1, x1).Brightness();
  }

  /**
   * `(int) (from + t * (to - from))` with `t = v / 255`: the point at weight v/255 on the
   * way from `from` to `to`, truncated toward zero.
   */
  function Interpolate(from: int, to: int, v: int): int
  {
    Trunc(from as real + (v as real / 255.0) * (to - from) as real)
  }

  /** For v in 0..255 the interpolated value lies between the endpoints; v = 0 gives `from`, v = 255 gives `to`. */
  lemma InterpolateBetween(from: int, to: int, v: int)
    requires 0 <= v <= 255
    ensures from <= to ==> from <= Interpolate(from, to, v) <= to
    ensures to <= from ==> to <= Interpolate(from, to, v) <= from
    ensures v == 0 ==> Interpolate(from, to, v) == from
    ensures v == 255 ==> Interpolate(from, to, v) == to
  {
    InterpolateOrdered(from, to, v);
    InterpolateEnds(from, to, v);
  }

  /** The interpolated value lies between the lower and the higher endpoint. */
  lemma InterpolateOrdered(from: int, to: int, v: int)
    requires 0 <= v <= 255
    ensures MinInt(from, to) <= Interpolate(from, to, v) <= MaxInt(from, to)
  {
    var t := v as real / 255.0;
    assert 0.0 <= t <= 1.0;
    InterpolateIsWeighted(from, to, v);
    WeightedBetween(from as real, to as real, t);
    TruncBetween(MinInt(from, to), MaxInt(from, to), Weighted(from as real, to as real, t));
  }

  /** The interpolation is the weighted point at v/255, truncated. */
  lemma InterpolateIsWeighted(from: int, to: int, v: int)
    ensures Interpolate(from, to, v) == Trunc(Weighted(from as real, to as real, v as real / 255.0))
  {
    var t := v as real / 255.0;
    var d, d' := (to - from) as real, to as real - from as real;
    assert d == d';
    assert t * d == t * d';
    assert from as real + t * d == Weighted(from as real, to as real, t);
  }

  lemma InterpolateEnds(from: int, to: int, v: int)
    ensures v == 0 ==> Interpolate(from, to, v) == from
    ensures v == 255 ==> Interpolate(from, to, v) == to
  {
    if v == 0 {
      assert from as real + (v as real / 255.0) * (to - from) as real == from as real;
      TruncOfInt(from);
    }
    if v == 255 {
      assert from as real + (v as real / 255.0) * (to - from) as real == to as real;
      TruncOfInt(to);
    }
  }

  /** Interpolated channels stay inside 0..255 when both endpoints do. */
  lemma InterpolateInRange(from: int, to: int, v: int)
    requires 0 <= v <= 255 && 0 <= from < 256 && 0 <= to < 256
    ensures 0 <= Interpolate(from, to, v) < 256
  {
    InterpolateBetween(from, to, v);
  }

  /**
   * One pixel of `recolorImage`: a gray pixel (transparent or not) becomes the point at
   * weight r/255 from `endColor` to `startColor`, keeping its alpha; any other pixel is
   * written back as read.
   */
  function RecolorWord(w: Word, startColor: Pixel, endColor: Pixel): Word
  {
    var p := GetPixel(w);
    if p.IsGrayscale() then
      ToARGB(Pixel(Interpolate(endColor.r, startColor.r, p.r),
                   Interpolate(endColor.g, startColor.g, p.r),
                   Interpolate(endColor.b, startColor.b, p.r),
                   p.a))
    else
      ToARGB(p)
  }

  /** A pixel that is not gray is copied bit for bit. */
  lemma RecolorCopiesColored(w: Word, startColor: Pixel, endColor: Pixel)
    requires !GetPixel(w).IsGrayscale()
    ensures RecolorWord(w, startColor, endColor) == w
  {
    ARGBOfGetPixel(w);
  }

  /**
   * A gray pixel of value v becomes, channel by channel, the interpolation from the end colour
   * (v = 0) to the start colour (v = 255), lying between the two, with its own alpha.
   */
  lemma RecolorGray(w: Word, startColor: Pixel, endColor: Pixel)
    requires GetPixel(w).IsGrayscale() && startColor.InRange() && endColor.InRange()
    ensures var p := GetPixel(w);
            var q := GetPixel(RecolorWord(w, startColor, endColor));
            && q == Pixel(Interpolate(endColor.r, startColor.r, p.r),
                          Interpolate(endColor.g, startColor.g, p.r),
                          Interpolate(endColor.b, startColor.b, p.r),
                          p.a)
            && (p.r == 255 ==> q == Pixel(startColor.r, startColor.g, startColor.b, p.a))
            && (p.r == 0 ==> q == Pixel(endColor.r, endColor.g, endColor.b, p.a))
  {
    var p := GetPixel(w);
    InterpolateBetween(endColor.r, startColor.r, p.r);
    InterpolateBetween(endColor.g, startColor.g, p.r);
    InterpolateBetween(endColor.b, startColor.b, p.r);
    GetPixelOfARGB(Pixel(Interpolate(endColor.r, startColor.r, p.r),
                         Interpolate(endColor.g, startColor.g, p.r),
                         Interpolate(endColor.b, startColor.b, p.r),
                         p.a));
  }

  /** With in-range endpoint colours every pixel keeps its alpha, transparent ones included. */
  lemma RecolorKeepsAlpha(w: Word, startColor: Pixel, endColor: Pixel)
    requires startColor.InRange() && endColor.InRange()
    ensures GetPixel(RecolorWord(w, startColor, endColor)).a == GetPixel(w).a
  {
    if GetPixel(w).IsGrayscale() {
      RecolorGray(w, startColor, endColor);
    } else {
      RecolorCopiesColored(w, startColor, endColor);
    }
  }

  /** Between opaque white (start) and opaque black (end) the ramp is the identity on every gray pixel. */
  lemma RecolorWhiteBlackIsIdentity(w: Word)
    requires GetPixel(w).IsGrayscale()
    ensures RecolorWord(w, White, Pixel(0, 0, 0, 255)) == w
  {
    var p := GetPixel(w);
    assert Interpolate(0, 255, p.r) == p.r by {
      assert (p.r as real / 255.0) * 255.0 == p.r as real;
    }
    assert Pixel(p.r, p.r, p.r, p.a) == p;
    ARGBOfGetPixel(w);
  }

  /**
   * `recolorImage(source, startColor, endColor)`: a fresh image of the same size whose every
   * word is RecolorWord of the source's; with in-range endpoints every alpha is kept, and
   * every pixel that is not gray is copied exactly.
   */
  method RecolorImage(src: array2<Word>, startColor: Pixel, endColor: Pixel) returns (dst: array2<Word>)
    ensures fresh(dst) && dst.Length0 == src.Length0 && dst.Length1 == src.Length1
    ensures forall y, x :: Inside(dst, y, x) ==> dst[y, x] == RecolorWord(src[y, x], startColor, endColor)
    ensures forall y, x :: Inside(dst, y, x) && !At(src, y, x).IsGrayscale() ==> dst[y, x] == src[y, x]
    ensures startColor.InRange() && endColor.InRange() ==>
              forall y, x :: Inside(dst, y, x) ==> At(dst, y, x).a == At(src, y, x).a
  {
    dst := MapPixels(src, w => RecolorWord(w, startColor, endColor));
    forall y, x | Inside(dst, y, x) && !At(src, y, x).IsGrayscale()
      ensures dst[y, x] == src[y, x]
    {
      RecolorCopiesColored(src[y, x], startColor, endColor);
    }
    if startColor.InRange() && endColor.InRange() {
      forall y, x | Inside(dst, y, x)
        ensures At(dst, y, x).a == At(src, y, x).a
      {
        RecolorKeepsAlpha(src[y, x], startColor, endColor);
      }
    }
  }

  /**
   * `convertToVariant(grayscaleImage, referenceColorImage)`: recolours the grayscale image
   * between the brightest and the darkest pixel of the reference's colour scan. The
   * grayscale scan it also runs does not influence the result.
   */
  method ConvertToVariant(gray: array2<Word>, reference: array2<Word>) returns (dst: array2<Word>)
    ensures fresh(dst) && dst.Length0 == gray.Length0 && dst.Length1 == gray.Length1
    ensures exists ca :: IsAnalysis(reference, false, ca) &&
              forall y, x :: Inside(dst, y, x) ==>
                dst[y, x] == RecolorWord(gray[y, x], ca.brightestPixel, ca.darkestPixel)
  {
    var grayscaleAnalysis := AnalyzeGrayscale(gray);
    var colorAnalysis := AnalyzeColors(reference);
    dst := RecolorImage(gray, colorAnalysis.brightestPixel, colorAnalysis.darkestPixel);
  }
}
