/**
 * AdvancedTextureProcessor: per-pixel colour transformations of an ARGB image,
 * through HSL space, through gamma and brightness, and between two colours.
 * Fully transparent pixels are always copied unchanged.
 */
module AdvancedTextureProcessor {
  import opened Images
  import opened JavaNumbers
  import opened TextureColorizer

  /** Hue in degrees, saturation and lightness. */
  datatype Hsl = Hsl(h: real, s: real, l: real)

  /** Three integer channels. */
  datatype Rgb = Rgb(r: int, g: int, b: int)

  /** `rgbToHSL(r, g, b)` for channels that are bytes, as every caller passes. */
  function RgbToHsl(r: int, g: int, b: int): (hsl: Hsl)
    requires 0 <= r < 256 && 0 <= g < 256 && 0 <= b < 256
  {
    var rf := r as real / 255.0;
    var gf := g as real / 255.0;
    var bf := b as real / 255.0;
    var mx := MaxReal(rf, MaxReal(gf, bf));
    var mn := MinReal(rf, MinReal(gf, bf));
    var l := (mx + mn) / 2.0;
    if mx == mn then
      Hsl(0.0, 0.0, l)
    else
      var d := mx - mn;
      var s := if l > 0.5 then d / (2.0 - mx - mn) else d / (mx + mn);
      var h :=
        if mx == rf then (gf - bf) / d + (if gf < bf then 6.0 else 0.0)
        else if mx == gf then (bf - rf) / d + 2.0
        else (rf - gf) / d + 4.0;
      Hsl(h / 6.0 * 360.0, s, l)
  }

  /**
   * For byte channels: lightness in [0, 1], saturation in [0, 1], hue in [0, 360); a gray
   * input has hue and saturation 0 and lightness v / 255, any other input a positive saturation.
   */
  lemma RgbToHslRanges(r: int, g: int, b: int)
    requires 0 <= r < 256 && 0 <= g < 256 && 0 <= b < 256
    ensures var hsl := RgbToHsl(r, g, b);
            && 0.0 <= hsl.l <= 1.0 && 0.0 <= hsl.s <= 1.0 && 0.0 <= hsl.h < 360.0
            && (r == g == b <==> hsl.s == 0.0)
            && (r == g == b ==> hsl.h == 0.0 && hsl.l == r as real / 255.0)
  {
    var rf := r as real / 255.0;
    var gf := g as real / 255.0;
    var bf := b as real / 255.0;
    var mx := MaxReal(rf, MaxReal(gf, bf));
    var mn := MinReal(rf, MinReal(gf, bf));
    var l := (mx + mn) / 2.0;
    if mx != mn {
      var d := mx - mn;
      SaturationBounds(mx, mn);
      HueSectorBounds(rf, gf, bf, mx, mn);
      assert !(r == g == b);
    }
  }

  /** The saturation formula gives a value in (0, 1] whenever 0 <= mn < mx <= 1. */
  lemma SaturationBounds(mx: real, mn: real)
    requires 0.0 <= mn < mx <= 1.0
    ensures var d := mx - mn;
            var s := if (mx + mn) / 2.0 > 0.5 then d / (2.0 - mx - mn) else d / (mx + mn);
            0.0 < s <= 1.0
  {
    var d := mx - mn;
    if (mx + mn) / 2.0 > 0.5 {
      QuotientBounds(d, 2.0 - mx - mn);
    } else {
      QuotientBounds(d, mx + mn);
    }
  }

  /** The sector formula gives a hue in [0, 360) whenever the channels lie between mn < mx. */
  lemma HueSectorBounds(rf: real, gf: real, bf: real, mx: real, mn: real)
    requires mn < mx
    requires mn <= rf <= mx && mn <= gf <= mx && mn <= bf <= mx
    requires mx == rf || mx == gf || mx == bf
    requires mn == rf || mn == gf || mn == bf
    ensures var d := mx - mn;
            var h :=
              if mx == rf then (gf - bf) / d + (if gf < bf then 6.0 else 0.0)
              else if mx == gf then (bf - rf) / d + 2.0
              else (rf - gf) / d + 4.0;
            0.0 <= h / 6.0 * 360.0 < 360.0
  {
    var d := mx - mn;
    if mx == rf {
      QuotientBounds(gf - bf, d);
      if gf >= bf && (gf - bf) / d == 1.0 {
        assert gf - bf == d;
      }
    } else if mx == gf {
      QuotientBounds(bf - rf, d);
    } else {
      QuotientBounds(rf - gf, d);
    }
  }

  /** `hueToRGB(p, q, t)`: one channel of the HSL to RGB conversion. */
  function HueToRgb(p: real, q: real, t: real): real
  {
    var t1 := if t < 0.0 then t + 1.0 else t;
    var t2 := if t1 > 1.0 then t1 - 1.0 else t1;
    if t2 < 1.0 / 6.0 then p + (q - p) * 6.0 * t2
    else if t2 < 1.0 / 2.0 then q
    else if t2 < 2.0 / 3.0 then p + (q - p) * (2.0 / 3.0 - t2) * 6.0
    else p
  }

  /** For t in [-1, 2] the channel lies between p and q. */
  lemma HueToRgbBetween(p: real, q: real, t: real)
    requires -1.0 <= t <= 2.0
    ensures p <= q ==> p <= HueToRgb(p, q, t) <= q
    ensures q <= p ==> q <= HueToRgb(p, q, t) <= p
  {
    var t1 := if t < 0.0 then t + 1.0 else t;
    var t2 := if t1 > 1.0 then t1 - 1.0 else t1;
    assert 0.0 <= t2 <= 1.0;
    if t2 < 1.0 / 6.0 {
      assert p + (q - p) * 6.0 * t2 == Weighted(p, q, 6.0 * t2);
      WeightedBetween(p, q, 6.0 * t2);
    } else if t2 < 1.0 / 2.0 {
    } else if t2 < 2.0 / 3.0 {
      assert p + (q - p) * (2.0 / 3.0 - t2) * 6.0 == Weighted(p, q, (2.0 / 3.0 - t2) * 6.0);
      WeightedBetween(p, q, (2.0 / 3.0 - t2) * 6.0);
    }
  }

  /** `Math.max(0, Math.min(255, (int) Math.round(x * 255)))`. */
  function ToChannel(x: real): (c: int)
    ensures 0 <= c <= 255
  {
    Clamp(0, 255, Round(x * 255.0))
  }

  /** `hslToRGB(h, s, l)`, each channel clamped to 0..255; zero saturation gives a gray whatever the lightness. */
  function HslToRgb(h: real, s: real, l: real): (rgb: Rgb)
    ensures 0 <= rgb.r <= 255 && 0 <= rgb.g <= 255 && 0 <= rgb.b <= 255
    ensures s == 0.0 ==> rgb.r == rgb.g == rgb.b
  {
    var hh := h / 360.0;
    if s == 0.0 then
      Rgb(ToChannel(l), ToChannel(l), ToChannel(l))
    else
      var q := if l < 0.5 then l * (1.0 + s) else l + s - l * s;
      var p := 2.0 * l - q;
      Rgb(ToChannel(HueToRgb(p, q, hh + 1.0 / 3.0)),
          ToChannel(HueToRgb(p, q, hh)),
          ToChannel(HueToRgb(p, q, hh - 1.0 / 3.0)))
  }

  /** Zero saturation gives a gray; lightness v / 255 gives back the gray level v. */
  lemma HslToRgbGray(h: real, v: int)
    requires 0 <= v <= 255
    ensures HslToRgb(h, 0.0, v as real / 255.0) == Rgb(v, v, v)
  {
    assert (v as real / 255.0) * 255.0 == v as real;
    RoundOfInt(v);
  }

  /** For a hue in [0, 360) every channel argument of hueToRGB lies in [-1, 2], so each channel lies between p and q. */
  lemma HslToRgbChannelsBetween(h: real, s: real, l: real)
    requires 0.0 <= h < 360.0 && s != 0.0
    ensures var q := if l < 0.5 then l * (1.0 + s) else l + s - l * s;
            var p := 2.0 * l - q;
            var hh := h / 360.0;
            && MinReal(p, q) <= HueToRgb(p, q, hh + 1.0 / 3.0) <= MaxReal(p, q)
            && MinReal(p, q) <= HueToRgb(p, q, hh) <= MaxReal(p, q)
            && MinReal(p, q) <= HueToRgb(p, q, hh - 1.0 / 3.0) <= MaxReal(p, q)
  {
    var q := if l < 0.5 then l * (1.0 + s) else l + s - l * s;
    var p := 2.0 * l - q;
    var hh := h / 360.0;
    HueToRgbBetween(p, q, hh + 1.0 / 3.0);
    HueToRgbBetween(p, q, hh);
    HueToRgbBetween(p, q, hh - 1.0 / 3.0);
  }

  /** `(h + hueShift) % 360`, moved into [0, 360) when negative. */
  function ShiftHue(h: real, hueShift: real): (r: real)
    ensures 0.0 <= r < 360.0
  {
    var m := FRem(h + hueShift, 360.0);
    if m < 0.0 then m + 360.0 else m
  }

  /** A hue already in [0, 360) is not moved by a zero shift. */
  lemma ShiftHueZero(h: real)
    requires 0.0 <= h < 360.0
    ensures ShiftHue(h, 0.0) == h
  {
    TruncQuotient(h, 360.0);
    var k := Trunc(h / 360.0);
    assert k == 0 by {
      if k >= 1 {
        MulMonotone(1.0, k as real, 360.0);
      }
    }
  }

  /**
   * The channels `transformHSL` gives a visible pixel: hue shifted, saturation scaled and
   * lightness raised, each of the last two capped at 1, then converted back.
   */
  function TransformChannels(p: Pixel, hueShift: real, saturation: real, lightness: real): Rgb
    requires p.InRange()
  {
    var hsl := RgbToHsl(p.r, p.g, p.b);
    HslToRgb(ShiftHue(hsl.h, hueShift), MinReal(1.0, hsl.s * saturation), MinReal(1.0, hsl.l + lightness))
  }

  /** One pixel of `transformHSL`. */
  function HslWord(w: Word, hueShift: real, saturation: real, lightness: real): Word
  {
    var p := GetPixel(w);
    if p.a == 0 then w
    else
      var rgb := TransformChannels(p, hueShift, saturation, lightness);
      PackInts(p.a, rgb.r, rgb.g, rgb.b)
  }

  /** A transparent pixel is copied; any other keeps its alpha and takes the transformed channels. */
  lemma HslWordSpec(w: Word, hueShift: real, saturation: real, lightness: real)
    ensures GetPixel(w).a == 0 ==> HslWord(w, hueShift, saturation, lightness) == w
    ensures GetPixel(w).a != 0 ==>
              var rgb := TransformChannels(GetPixel(w), hueShift, saturation, lightness);
              GetPixel(HslWord(w, hueShift, saturation, lightness)) == Pixel(rgb.r, rgb.g, rgb.b, GetPixel(w).a)
  {
    var p := GetPixel(w);
    if p.a != 0 {
      var rgb := TransformChannels(p, hueShift, saturation, lightness);
      GetPixelOfARGB(Pixel(rgb.r, rgb.g, rgb.b, p.a));
    }
  }

  /** With no hue shift, saturation factor 1 and no added lightness, every gray pixel is unchanged. */
  lemma HslWordIdentityOnGray(w: Word)
    requires GetPixel(w).IsGrayscale()
    ensures HslWord(w, 0.0, 1.0, 0.0) == w
  {
    var p := GetPixel(w);
    if p.a != 0 {
      RgbToHslRanges(p.r, p.g, p.b);
      var hsl := RgbToHsl(p.r, p.g, p.b);
      ShiftHueZero(hsl.h);
      assert MinReal(1.0, hsl.s * 1.0) == 0.0;
      assert MinReal(1.0, hsl.l + 0.0) == p.r as real / 255.0;
      HslToRgbGray(0.0, p.r);
      ARGBOfGetPixel(w);
    }
  }

  /** Whatever the settings, `transformHSL` keeps a gray pixel gray: its saturation is 0 and scaling keeps it 0. */
  lemma HslWordKeepsGray(w: Word, hueShift: real, saturation: real, lightness: real)
    requires GetPixel(w).IsGrayscale()
    ensures GetPixel(HslWord(w, hueShift, saturation, lightness)).IsGrayscale()
    ensures GetPixel(HslWord(w, hueShift, saturation, lightness)).a == GetPixel(w).a
  {
    var p := GetPixel(w);
    HslWordSpec(w, hueShift, saturation, lightness);
    if p.a != 0 {
      RgbToHslRanges(p.r, p.g, p.b);
      var hsl := RgbToHsl(p.r, p.g, p.b);
      assert MinReal(1.0, hsl.s * saturation) == 0.0;
    }
  }

  /** The exponent `1 / Math.max(0.1, gamma)`: positive and at most 10. */
  function GammaExponent(gamma: real): (e: real)
    ensures 0.0 < e <= 10.0
    ensures gamma == 1.0 ==> e == 1.0
  {
    1.0 / MaxReal(0.1, gamma)
  }

  /**
   * `applyGammaAndBrightness(value, gamma, brightness)`, with `Math.pow` given as `pow`:
   * the normalised value raised to the gamma exponent, scaled, rounded and clamped to 0..255.
   */
  function ApplyGammaAndBrightness(value: int, gamma: real, brightness: real, pow: (real, real) -> real): (c: int)
    ensures 0 <= c <= 255
  {
    var normalized := value as real / 255.0;
    var gammaApplied := pow(normalized, GammaExponent(gamma));
    ToChannel(gammaApplied * brightness)
  }

  /** With gamma 1, multiplier 1 and a `pow` that returns its base for exponent 1, every byte maps to itself. */
  lemma GammaAndBrightnessIdentity(value: int, pow: (real, real) -> real)
    requires 0 <= value <= 255
    requires forall x :: pow(x, 1.0) == x
    ensures ApplyGammaAndBrightness(value, 1.0, 1.0, pow) == value
  {
    var normalized := value as real / 255.0;
    assert pow(normalized, 1.0) == normalized;
    assert normalized * 1.0 * 255.0 == value as real;
    RoundOfInt(value);
  }

  /** One pixel of `adjustBrightness`. */
  function GammaWord(w: Word, brightness: real, gamma: real, pow: (real, real) -> real): Word
  {
    var p := GetPixel(w);
    if p.a == 0 then w
    else
      PackInts(p.a,
               ApplyGammaAndBrightness(p.r, gamma, brightness, pow),
               ApplyGammaAndBrightness(p.g, gamma, brightness, pow),
               ApplyGammaAndBrightness(p.b, gamma, brightness, pow))
  }

  /** A transparent pixel is copied; any other keeps its alpha and has each channel adjusted on its own. */
  lemma GammaWordSpec(w: Word, brightness: real, gamma: real, pow: (real, real) -> real)
    ensures var p := GetPixel(w);
            && (p.a == 0 ==> GammaWord(w, brightness, gamma, pow) == w)
            && (p.a != 0 ==>
                  GetPixel(GammaWord(w, brightness, gamma, pow)) ==
                    Pixel(ApplyGammaAndBrightness(p.r, gamma, brightness, pow),
                          ApplyGammaAndBrightness(p.g, gamma, brightness, pow),
                          ApplyGammaAndBrightness(p.b, gamma, brightness, pow), p.a))
  {
    var p := GetPixel(w);
    if p.a != 0 {
      GetPixelOfARGB(Pixel(ApplyGammaAndBrightness(p.r, gamma, brightness, pow),
                           ApplyGammaAndBrightness(p.g, gamma, brightness, pow),
                           ApplyGammaAndBrightness(p.b, gamma, brightness, pow), p.a));
    }
  }

  /** With gamma 1, multiplier 1 and an exact `pow`, the adjustment leaves every pixel as it was. */
  lemma GammaWordIdentity(w: Word, pow: (real, real) -> real)
    requires forall x :: pow(x, 1.0) == x
    ensures GammaWord(w, 1.0, 1.0, pow) == w
  {
    var p := GetPixel(w);
    if p.a != 0 {
      GammaAndBrightnessIdentity(p.r, pow);
      GammaAndBrightnessIdentity(p.g, pow);
      GammaAndBrightnessIdentity(p.b, pow);
      ARGBOfGetPixel(w);
    }
  }

  /** One pixel of `generateMissingColors`: a visible gray pixel is placed on the line from minColor to maxColor. */
  function MissingColorsWord(w: Word, minColor: Pixel, maxColor: Pixel): Word
  {
    var p := GetPixel(w);
    if p.a == 0 then w
    else if p.IsGrayscale() then
      PackInts(p.a,
               Interpolate(minColor.r, maxColor.r, p.r),
               Interpolate(minColor.g, maxColor.g, p.r),
               Interpolate(minColor.b, maxColor.b, p.r))
    else w
  }

  /**
   * On visible pixels, `generateMissingColors(min, max)` is `recolorImage` with the colours
   * swapped (max as start, min as end); transparent pixels are copied, where the recolouring
   * would also recolour a transparent gray pixel.
   */
  lemma MissingColorsIsSwappedRecolor(w: Word, minColor: Pixel, maxColor: Pixel)
    ensures GetPixel(w).a != 0 ==> MissingColorsWord(w, minColor, maxColor) == RecolorWord(w, maxColor, minColor)
    ensures GetPixel(w).a == 0 ==> MissingColorsWord(w, minColor, maxColor) == w
  {
    if !GetPixel(w).IsGrayscale() {
      RecolorCopiesColored(w, maxColor, minColor);
    }
  }

  /** A visible gray pixel of level 0 takes minColor and one of level 255 takes maxColor, keeping its alpha. */
  lemma MissingColorsEnds(w: Word, minColor: Pixel, maxColor: Pixel)
    requires GetPixel(w).IsGrayscale() && GetPixel(w).a != 0
    requires minColor.InRange() && maxColor.InRange()
    ensures var p := GetPixel(w);
            var q := GetPixel(MissingColorsWord(w, minColor, maxColor));
            && (p.r == 0 ==> q == Pixel(minColor.r, minColor.g, minColor.b, p.a))
            && (p.r == 255 ==> q == Pixel(maxColor.r, maxColor.g, maxColor.b, p.a))
  {
    MissingColorsIsSwappedRecolor(w, minColor, maxColor);
    RecolorGray(w, maxColor, minColor);
  }

  /** `transformHSL(source, hueShift, saturation, lightness)`. */
  method TransformHsl(src: array2<Word>, hueShift: real, saturation: real, lightness: real) returns (dst: array2<Word>)
    ensures fresh(dst) && dst.Length0 == src.Length0 && dst.Length1 == src.Length1
    ensures forall y, x :: Inside(dst, y, x) ==> dst[y, x] == HslWord(src[y, x], hueShift, saturation, lightness)
    ensures forall y, x :: Inside(dst, y, x) && At(src, y, x).a == 0 ==> dst[y, x] == src[y, x]
    ensures forall y, x :: Inside(dst, y, x) ==> At(dst, y, x).a == At(src, y, x).a
  {
    dst := MapPixels(src, w => HslWord(w, hueShift, saturation, lightness));
    forall y, x | Inside(dst, y, x)
      ensures At(dst, y, x).a == At(src, y, x).a
    {
      HslWordSpec(src[y, x], hueShift, saturation, lightness);
    }
  }

  /** `adjustBrightness(source, brightnessMultiplier, gamma)`, with `Math.pow` given as `pow`. */
  method AdjustBrightness(src: array2<Word>, brightness: real, gamma: real, pow: (real, real) -> real)
    returns (dst: array2<Word>)
    ensures fresh(dst) && dst.Length0 == src.Length0 && dst.Length1 == src.Length1
    ensures forall y, x :: Inside(dst, y, x) ==> dst[y, x] == GammaWord(src[y, x], brightness, gamma, pow)
    ensures forall y, x :: Inside(dst, y, x) && At(src, y, x).a == 0 ==> dst[y, x] == src[y, x]
    ensures forall y, x :: Inside(dst, y, x) ==> At(dst, y, x).a == At(src, y, x).a
  {
    dst := MapPixels(src, w => GammaWord(w, brightness, gamma, pow));
    forall y, x | Inside(dst, y, x)
      ensures At(dst, y, x).a == At(src, y, x).a
    {
      GammaWordSpec(src[y, x], brightness, gamma, pow);
    }
  }

  /** `generateMissingColors(source, minColor, maxColor)`. */
  method GenerateMissingColors(src: array2<Word>, minColor: Pixel, maxColor: Pixel) returns (dst: array2<Word>)
    ensures fresh(dst) && dst.Length0 == src.Length0 && dst.Length1 == src.Length1
    ensures forall y, x :: Inside(dst, y, x) ==> dst[y, x] == MissingColorsWord(src[y, x], minColor, maxColor)
    ensures forall y, x :: Inside(dst, y, x) && (At(src, y, x).a == 0 || !At(src, y, x).IsGrayscale()) ==>
              dst[y, x] == src[y, x]
    ensures forall y, x :: Inside(dst, y, x) && At(src, y, x).a != 0 ==>
              dst[y, x] == RecolorWord(src[y, x], maxColor, minColor)
  {
    dst := MapPixels(src, w => MissingColorsWord(w, minColor, maxColor));
    forall y, x | Inside(dst, y, x) && At(src, y, x).a != 0
      ensures dst[y, x] == RecolorWord(src[y, x], maxColor, minColor)
    {
      MissingColorsIsSwappedRecolor(src[y, x], minColor, maxColor);
    }
  }
}
