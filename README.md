# Variant generator: a verified model of its core

The variant generator is a Minecraft mod that looks for iron items and derives
netherite and enderite variants of them. To make a variant it does the following:

- It recolours the iron texture between a tier's bright and dark reference
  colours: gray pixels are interpolated, coloured pixels are copied.
- It scales the item's statistics by the tier's multiplier.
- It records the variant in a registry. The registry is indexed by key, by mod
  and by tier.
- It writes the recipe JSON and the item-model JSON for the variant.

Besides the pipeline, the mod keeps static caches and profiles:

- the enderite and netherite colours and tool/armour materials;
- ores, armour pieces, weapons, enchantments and loot tables;
- counters and timings of a performance monitor.

This project models that core in Dafny and proves what each operation promises.
The modules follow the source files one to one. Each source `.java` file has a
`.dfy` file of the same name in snake case. Shared modules:

- `images` models the 32-bit ARGB words and the image arrays.
- `java_numbers` models Java's casts, `Math` functions, integer division and
  float remainder.
- `java_strings` models `toLowerCase`, `contains`, `replace`, `lastIndexOf`,
  `indexOf` and `split`.
- `json_values` models the Gson objects.
- `list_maps` models the `computeIfAbsent(...).add(...)` idiom on maps of lists.
- `wrappers` provides `Option` and `Result`.

The model takes each part of the source in its own form:

- The image loops are methods with loop invariants, working on `array2` images.
- Objects whose fields are updated are classes. The Java static maps become
  classes whose constructor is the static initializer.
- Computations on values are functions, with lemmas about them.
- A Java exception is a `Result` error: a `NullPointer` from unboxing a missing
  counter or from a recipe with no output, and an `IndexOutOfBounds` from `split`
  or `substring`.
- A Java `null` return is an `Option`.

## Model

| member | source | states |
|---|---|---|
| `TextureColorizer.Pixel.Brightness` | src/main/java/net/variantgenerator/mod/texture/TextureColorizer.java:38-40 | Integer division of r+g+b by 3: 3v <= r+g+b < 3v+3. It lies in 0..255 for byte channels, and for a gray pixel it is the red channel. |
| `TextureColorizer.Pixel.IsGrayscale` | src/main/java/net/variantgenerator/mod/texture/TextureColorizer.java:34-36 | A pixel is gray when its three colour channels are equal. Alpha plays no part, so a transparent gray pixel is gray too. `RecolorGray` and `RecolorCopiesColored` state what recolouring does on each side of this test. |
| `TextureColorizer.ToARGB` | src/main/java/net/variantgenerator/mod/texture/TextureColorizer.java:42-44 | For byte channels the packed word is the byte-wise join of alpha, red, green and blue, from the high byte down. `GetPixelOfARGB` and `ARGBOfGetPixel` show that it and `getPixel` are inverses. |
| `TextureColorizer.GetPixel` | src/main/java/net/variantgenerator/mod/texture/TextureColorizer.java:218-226 | The four channels unpacked from an ARGB word are each in 0..255. |
| `TextureColorizer.GetPixelOfARGB` | src/main/java/net/variantgenerator/mod/texture/TextureColorizer.java:42-44 | Unpacking a packed in-range pixel gives the same pixel back, so `toARGB` and `getPixel` are inverse on byte channels. |
| `TextureColorizer.ARGBOfGetPixel` | src/main/java/net/variantgenerator/mod/texture/TextureColorizer.java:218-226 | Repacking the unpacked channels of any 32-bit word gives back that word. |
| `TextureColorizer.MaxStep` | src/main/java/net/variantgenerator/mod/texture/TextureColorizer.java:91-97 | Visiting one pixel keeps the loop state of the maximum search. The state records the first eligible pixel (opaque and, for the grayscale scan, gray) with the greatest brightness so far. A strictly brighter pixel replaces it. |
| `TextureColorizer.MinStep` | src/main/java/net/variantgenerator/mod/texture/TextureColorizer.java:91-101 | The same for the minimum search: a strictly darker eligible pixel replaces the record. |
| `TextureColorizer.NextRow` | src/main/java/net/variantgenerator/mod/texture/TextureColorizer.java:86-87 | Finishing a row moves both loop states to the start of the next row, unchanged. |
| `TextureColorizer.ScanComplete` | src/main/java/net/variantgenerator/mod/texture/TextureColorizer.java:106-116 | After the last row the null records default to opaque white and opaque black. With the fixed fields 255 and 0, the result meets the analysis specification. |
| `TextureColorizer.Visit` | src/main/java/net/variantgenerator/mod/texture/TextureColorizer.java:88-102 | One pixel of the scan updates both records and keeps both loop states. |
| `TextureColorizer.ScanRow` | src/main/java/net/variantgenerator/mod/texture/TextureColorizer.java:87-103 | The inner loop over one row keeps both loop states from the row's start to the next row. |
| `TextureColorizer.Analyze` | src/main/java/net/variantgenerator/mod/texture/TextureColorizer.java:77-117 | The scan returns an analysis. Brightest and darkest are the first eligible pixels in row-major order that reach the greatest and the least brightness, with those brightnesses. With no eligible pixel they are opaque white and black, with -1 and 256. `brightest` is always 255 and `darkest` always 0. |
| `TextureColorizer.AnalyzeGrayscale` | src/main/java/net/variantgenerator/mod/texture/TextureColorizer.java:77-117 | `analyzeGrayscale` meets the analysis specification over opaque gray pixels. |
| `TextureColorizer.AnalyzeColors` | src/main/java/net/variantgenerator/mod/texture/TextureColorizer.java:122-162 | `analyzeColors` meets the analysis specification over all opaque pixels. |
| `TextureColorizer.AnalysisUnique` | src/main/java/net/variantgenerator/mod/texture/TextureColorizer.java:77-162 | The analysis specification fixes the result: two results that meet it are equal, so ties go to the first pixel. |
| `TextureColorizer.AnalysisBounds` | src/main/java/net/variantgenerator/mod/texture/TextureColorizer.java:91-101 | When some pixel is eligible, 0 <= minBrightness <= maxBrightness <= 255. |
| `TextureColorizer.Interpolate` | src/main/java/net/variantgenerator/mod/texture/TextureColorizer.java:181-184 | The channel at weight gray/255 on the way from the end colour to the start colour, cast to int. The five `Interpolate*` lemmas below state its range and its end points. |
| `TextureColorizer.InterpolateBetween` | src/main/java/net/variantgenerator/mod/texture/TextureColorizer.java:181-184 | The truncated interpolation lies between its two end colours' channel values. It is the first at gray 0 and the second at gray 255. |
| `TextureColorizer.InterpolateOrdered` | src/main/java/net/variantgenerator/mod/texture/TextureColorizer.java:181-184 | The interpolated channel lies between the minimum and the maximum of its ends, whichever way round they are. |
| `TextureColorizer.InterpolateIsWeighted` | src/main/java/net/variantgenerator/mod/texture/TextureColorizer.java:181-184 | The integer form used by the model is exactly the truncation of `end + t * (start - end)` with t = gray/255. |
| `TextureColorizer.InterpolateEnds` | src/main/java/net/variantgenerator/mod/texture/TextureColorizer.java:181-184 | Gray 0 yields the end colour's channel and gray 255 the start colour's, for any ends. |
| `TextureColorizer.InterpolateInRange` | src/main/java/net/variantgenerator/mod/texture/TextureColorizer.java:181-184 | With byte ends and a byte gray level the result is a byte. |
| `TextureColorizer.RecolorWord` | src/main/java/net/variantgenerator/mod/texture/TextureColorizer.java:176-190 | One pixel of `recolorImage`: a gray pixel is interpolated channel by channel and keeps its alpha, and any other pixel is written back. `RecolorGray`, `RecolorCopiesColored` and `RecolorKeepsAlpha` state these cases. |
| `TextureColorizer.RecolorCopiesColored` | src/main/java/net/variantgenerator/mod/texture/TextureColorizer.java:189-191 | A pixel that is not gray is copied unchanged. |
| `TextureColorizer.RecolorGray` | src/main/java/net/variantgenerator/mod/texture/TextureColorizer.java:179-188 | A gray pixel becomes the per-channel interpolation from the end colour to the start colour, keeping its alpha. White (255) becomes the start colour and black (0) the end colour. |
| `TextureColorizer.RecolorKeepsAlpha` | src/main/java/net/variantgenerator/mod/texture/TextureColorizer.java:185-190 | Recolouring never changes a pixel's alpha. |
| `TextureColorizer.RecolorWhiteBlackIsIdentity` | src/main/java/net/variantgenerator/mod/texture/TextureColorizer.java:179-188 | Recolouring between opaque white and opaque black leaves every gray pixel unchanged. |
| `TextureColorizer.RecolorImage` | src/main/java/net/variantgenerator/mod/texture/TextureColorizer.java:167-197 | The result is a fresh image of the same size. Each pixel follows the recolour rule, coloured pixels are copied, and with in-range colours every alpha is kept. |
| `TextureColorizer.ConvertToVariant` | src/main/java/net/variantgenerator/mod/texture/TextureColorizer.java:231-240 | The result is the grayscale image recoloured between the brightest and darkest pixels of an analysis of the reference image. The grayscale image's own analysis does not affect it. |
| `AdvancedTextureProcessor.RgbToHsl` | src/main/java/net/variantgenerator/mod/texture/AdvancedTextureProcessor.java:136-164 | `rgbToHSL` over exact reals. Lightness is the mid-range of the channels, and saturation and hue come from the maximum channel's sector. `RgbToHslRanges` states the ranges and the gray case. |
| `AdvancedTextureProcessor.HueToRgb` | src/main/java/net/variantgenerator/mod/texture/AdvancedTextureProcessor.java:191-198 | `hueToRGB`: t is wrapped into [0,1], then a piecewise-linear ramp between p and q is taken. `HueToRgbBetween` states that the value stays between p and q. |
| `AdvancedTextureProcessor.TransformChannels` | src/main/java/net/variantgenerator/mod/texture/AdvancedTextureProcessor.java:38-47 | The hue is shifted and normalised, the saturation scaled and the lightness raised, both capped at 1, and the result goes back to RGB. `HslToRgb` gives byte channels. |
| `AdvancedTextureProcessor.RgbToHslRanges` | src/main/java/net/variantgenerator/mod/texture/AdvancedTextureProcessor.java:136-164 | Lightness and saturation lie in [0,1] and hue in [0,360). Saturation is 0 exactly for gray pixels, which get hue 0 and lightness r/255. |
| `AdvancedTextureProcessor.SaturationBounds` | src/main/java/net/variantgenerator/mod/texture/AdvancedTextureProcessor.java:150-151 | For a coloured pixel the saturation lies in (0,1], on both sides of the lightness-0.5 branch. |
| `AdvancedTextureProcessor.HueSectorBounds` | src/main/java/net/variantgenerator/mod/texture/AdvancedTextureProcessor.java:153-160 | Whichever channel is the maximum, the hue sector formula gives a hue in [0,360). |
| `AdvancedTextureProcessor.HueToRgbBetween` | src/main/java/net/variantgenerator/mod/texture/AdvancedTextureProcessor.java:191-198 | For t in [-1,2], `hueToRGB(p, q, t)` lies between p and q. |
| `AdvancedTextureProcessor.ToChannel` | src/main/java/net/variantgenerator/mod/texture/AdvancedTextureProcessor.java:184-188 | The rounded and clamped channel is always in 0..255. |
| `AdvancedTextureProcessor.HslToRgb` | src/main/java/net/variantgenerator/mod/texture/AdvancedTextureProcessor.java:169-189 | Every channel of the converted colour is in 0..255, whatever the HSL input. Zero saturation gives equal channels for any lightness. |
| `AdvancedTextureProcessor.HslToRgbGray` | src/main/java/net/variantgenerator/mod/texture/AdvancedTextureProcessor.java:174-175 | Zero saturation with lightness v/255 gives back the gray (v,v,v): the HSL round trip of gray pixels. |
| `AdvancedTextureProcessor.HslToRgbChannelsBetween` | src/main/java/net/variantgenerator/mod/texture/AdvancedTextureProcessor.java:177-182 | For a hue in [0,360) the three `hueToRGB` calls all lie between p and q. |
| `AdvancedTextureProcessor.ShiftHue` | src/main/java/net/variantgenerator/mod/texture/AdvancedTextureProcessor.java:41-42 | The float remainder by 360, lifted by 360 when negative, always lands in [0,360). |
| `AdvancedTextureProcessor.ShiftHueZero` | src/main/java/net/variantgenerator/mod/texture/AdvancedTextureProcessor.java:41-42 | A zero shift leaves a hue in [0,360) unchanged. |
| `AdvancedTextureProcessor.HslWord` | src/main/java/net/variantgenerator/mod/texture/AdvancedTextureProcessor.java:23-51 | One pixel of `transformHSL`. `HslWordSpec`, `HslWordIdentityOnGray` and `HslWordKeepsGray` state its contract. |
| `AdvancedTextureProcessor.HslWordSpec` | src/main/java/net/variantgenerator/mod/texture/AdvancedTextureProcessor.java:23-51 | A transparent pixel is copied. Any other pixel gets the transformed channels and keeps its alpha. |
| `AdvancedTextureProcessor.HslWordIdentityOnGray` | src/main/java/net/variantgenerator/mod/texture/AdvancedTextureProcessor.java:37-51 | The neutral settings (shift 0, saturation factor 1, lightness offset 0) leave every gray pixel unchanged. |
| `AdvancedTextureProcessor.HslWordKeepsGray` | src/main/java/net/variantgenerator/mod/texture/AdvancedTextureProcessor.java:37-51 | For any hue shift, saturation factor and lightness offset, a gray pixel stays gray and keeps its alpha. Its saturation is 0, scaling keeps it 0, and `hslToRGB` then gives three equal channels. |
| `AdvancedTextureProcessor.GammaExponent` | src/main/java/net/variantgenerator/mod/texture/AdvancedTextureProcessor.java:202 | The exponent 1/max(0.1, gamma) lies in (0,10], and it is 1 for gamma 1. |
| `AdvancedTextureProcessor.ApplyGammaAndBrightness` | src/main/java/net/variantgenerator/mod/texture/AdvancedTextureProcessor.java:200-205 | The adjusted channel is in 0..255 whatever the power function returns. |
| `AdvancedTextureProcessor.GammaAndBrightnessIdentity` | src/main/java/net/variantgenerator/mod/texture/AdvancedTextureProcessor.java:200-205 | Gamma 1 and brightness 1 give back the channel, when pow(x, 1) = x. |
| `AdvancedTextureProcessor.GammaWord` | src/main/java/net/variantgenerator/mod/texture/AdvancedTextureProcessor.java:67-85 | One pixel of `adjustBrightness`. `GammaWordSpec` and `GammaWordIdentity` state its contract. |
| `AdvancedTextureProcessor.GammaWordSpec` | src/main/java/net/variantgenerator/mod/texture/AdvancedTextureProcessor.java:67-85 | A transparent pixel is copied. Any other pixel gets each colour channel through `applyGammaAndBrightness` and keeps its alpha. |
| `AdvancedTextureProcessor.GammaWordIdentity` | src/main/java/net/variantgenerator/mod/texture/AdvancedTextureProcessor.java:62-91 | Gamma 1 and brightness 1 leave every pixel unchanged. |
| `AdvancedTextureProcessor.MissingColorsWord` | src/main/java/net/variantgenerator/mod/texture/AdvancedTextureProcessor.java:101-127 | One pixel of `generateMissingColors`. `MissingColorsIsSwappedRecolor` and `MissingColorsEnds` state its contract. |
| `AdvancedTextureProcessor.MissingColorsIsSwappedRecolor` | src/main/java/net/variantgenerator/mod/texture/AdvancedTextureProcessor.java:108-125 | On opaque pixels the `generateMissingColors` rule equals the recolour rule with start = maxColor and end = minColor. Transparent pixels are copied. |
| `AdvancedTextureProcessor.MissingColorsEnds` | src/main/java/net/variantgenerator/mod/texture/AdvancedTextureProcessor.java:114-121 | Opaque gray 0 becomes minColor and gray 255 becomes maxColor, with the alpha kept. |
| `AdvancedTextureProcessor.TransformHsl` | src/main/java/net/variantgenerator/mod/texture/AdvancedTextureProcessor.java:18-57 | The result is a fresh image of the same size with each pixel transformed per pixel. Transparent pixels are unchanged and every alpha is kept. |
| `AdvancedTextureProcessor.AdjustBrightness` | src/main/java/net/variantgenerator/mod/texture/AdvancedTextureProcessor.java:62-91 | The result is a fresh image of the same size with the gamma and brightness rule applied per pixel. Transparent pixels are unchanged and every alpha is kept. |
| `AdvancedTextureProcessor.GenerateMissingColors` | src/main/java/net/variantgenerator/mod/texture/AdvancedTextureProcessor.java:96-131 | The result is a fresh image of the same size. Transparent and coloured pixels are unchanged, and opaque pixels follow the recolour rule from maxColor down to minColor. |
| `Images.ByteOfJoin` | src/main/java/net/variantgenerator/mod/texture/TextureColorizer.java:42-44 | The shifts and masks recover each byte packed into an ARGB word. |
| `Images.JoinOfBytes` | src/main/java/net/variantgenerator/mod/texture/TextureColorizer.java:218-226 | Packing the four extracted bytes of a word gives back the word. |
| `Images.PackIntsOfBytes` | src/main/java/net/variantgenerator/mod/texture/TextureColorizer.java:42-44 | Packing Java ints that are bytes is the byte-wise join. |
| `Images.PackInts` | src/main/java/net/variantgenerator/mod/texture/TextureColorizer.java:42-44 | Java's `(a << 24) \| (r << 16) \| (g << 8) \| b` on ints, each taken as its 32-bit pattern. `PackIntsOfBytes` shows that on byte channels it is the byte-wise join. |
| `Images.MapPixels` | src/main/java/net/variantgenerator/mod/texture/AdvancedTextureProcessor.java:19-53 | The nested loop over rows and columns fills a fresh image of the same size with the per-pixel rule applied to every source pixel. |
| `VariantRegistry.Tier.Multiplier` | src/main/java/net/variantgenerator/mod/core/VariantRegistry.java:75-87 | Every tier's multiplier lies in [1, 1.5]. |
| `VariantRegistry.Tier.Name` | src/main/java/net/variantgenerator/mod/core/VariantRegistry.java:97 | An enum constant's name never contains ':'. |
| `VariantRegistry.Tier.DisplayName` | src/main/java/net/variantgenerator/mod/core/VariantRegistry.java:75-87 | "Iron", "Netherite" and "Enderite". Lowercased, they are the tier names the rewrites put in place of "iron". |
| `VariantRegistry.TiersOrdered` | src/main/java/net/variantgenerator/mod/core/VariantRegistry.java:75-87 | Iron < Netherite < Enderite by multiplier, and enum names identify tiers one to one. |
| `VariantRegistry.ScaleReal` | src/main/java/net/variantgenerator/mod/core/VariantRegistry.java:144-149 | A non-positive float stat is left alone, and a multiplier >= 1 never lowers it. |
| `VariantRegistry.ScaleTrunc` | src/main/java/net/variantgenerator/mod/core/VariantRegistry.java:150-152 | A non-positive durability is left alone, and the truncated product never lowers it for multipliers >= 1. |
| `VariantRegistry.ScaleCeil` | src/main/java/net/variantgenerator/mod/core/VariantRegistry.java:155-157 | A non-positive armour value is left alone, and the ceiling of the product never lowers it for multipliers >= 1. |
| `VariantRegistry.ScaledIntGrows` | src/main/java/net/variantgenerator/mod/core/VariantRegistry.java:150-157 | For positive n and multiplier >= 1, both the truncation and the ceiling of n*m are >= n. |
| `VariantRegistry.ScaleFields` | src/main/java/net/variantgenerator/mod/core/VariantRegistry.java:144-160 | The five scaled fields keep non-positive values and never decrease for multipliers >= 1. Attack speed, knockback resistance and enchantability are copied. |
| `VariantRegistry.DampedEnchantability` | src/main/java/net/variantgenerator/mod/core/VariantRegistry.java:163-165 | `max(e, (int)(e * 1.1 * m))` is never below e, and a non-positive e is kept. |
| `VariantRegistry.ScaleStats` | src/main/java/net/variantgenerator/mod/core/VariantRegistry.java:138-168 | Scaling to any tier keeps attack speed, knockback resistance and every non-positive field, and decreases no field. |
| `VariantRegistry.ScaleStatsMonotoneInTier` | src/main/java/net/variantgenerator/mod/core/VariantRegistry.java:138-168 | A tier with a larger multiplier yields stats at least as large in every field. |
| `VariantRegistry.ScaledRealMonotone` | src/main/java/net/variantgenerator/mod/core/VariantRegistry.java:144-149 | The guarded float scaling is monotone in the multiplier. |
| `VariantRegistry.TruncScaledMonotone` | src/main/java/net/variantgenerator/mod/core/VariantRegistry.java:150-152 | The guarded truncating scaling is monotone in the multiplier. |
| `VariantRegistry.CeilScaledMonotone` | src/main/java/net/variantgenerator/mod/core/VariantRegistry.java:155-157 | The guarded ceiling scaling is monotone in the multiplier. |
| `VariantRegistry.DampedMonotone` | src/main/java/net/variantgenerator/mod/core/VariantRegistry.java:163-165 | The enchantability rule is monotone in the multiplier. |
| `VariantRegistry.IronScaling` | src/main/java/net/variantgenerator/mod/core/VariantRegistry.java:138-168 | The iron tier (multiplier 1) changes only enchantability, which grows exactly when it is at least 10. |
| `VariantRegistry.ScaleStatsUsingEnderite` | src/main/java/net/variantgenerator/mod/core/VariantRegistry.java:181-217 | Enderite-based scaling keeps enchantability, attack speed, knockback resistance and non-positive fields. When the durability ratio is >= 1 it decreases nothing. |
| `VariantRegistry.EnderiteScalingIgnoresTier` | src/main/java/net/variantgenerator/mod/core/VariantRegistry.java:181-214 | The target tier has no effect. `getToolStats` always answers a `ToolStats` value, the cached entry or the iron stats (see `StatCache.GetToolStats`), so the model has no counterpart of the null-check fallback at lines 210-214 that uses the tier. |
| `VariantRegistry.EnderiteMultiplier` | src/main/java/net/variantgenerator/mod/core/VariantRegistry.java:185-190 | The enderite tool durability over the iron tool durability, both read through `getToolStats`. `SeededEnderiteScaling` and `ClearedCacheScalingIsIdentity` give its value for the seeded and the cleared cache. |
| `VariantRegistry.ClearedCacheScalingIsIdentity` | src/main/java/net/variantgenerator/mod/core/VariantRegistry.java:185-190 | After the stat cache is cleared, both lookups fall back to the iron stats. The ratio is 1 and scaling returns the stats unchanged. |
| `VariantRegistry.SeededEnderiteScaling` | src/main/java/net/variantgenerator/mod/core/VariantRegistry.java:185-202 | With the seeded cache the ratio is 4096/250, and durability 250 scales to exactly 4096. |
| `VariantRegistry.NewVariantConfig` | src/main/java/net/variantgenerator/mod/core/VariantRegistry.java:31-37 | A config with the given mod, item and tier, no source item id and no texture location, and default statistics on both sides. Its registry key is the key of (mod, item, tier). |
| `VariantRegistry.Key` | src/main/java/net/variantgenerator/mod/core/VariantRegistry.java:97 | The key `mod:item:TIER`. `KeyInjective` and `KeyCollision` say when it identifies the triple. |
| `VariantRegistry.KeyInjective` | src/main/java/net/variantgenerator/mod/core/VariantRegistry.java:97 | When the mod id has no ':', the key `mod:item:TIER` determines mod, item and tier. |
| `VariantRegistry.KeyCollision` | src/main/java/net/variantgenerator/mod/core/VariantRegistry.java:97 | With ':' inside names, two different variants share a key ("a:b","c" and "a","b:c"). |
| `VariantRegistry.RegisterKeepsConsistent` | src/main/java/net/variantgenerator/mod/core/VariantRegistry.java:96-104 | Registering keeps the three maps consistent: the by-mod and by-tier lists hold only matching configs, and every registered config is listed. |
| `VariantRegistry.AppendKeepsModsGrouped` | src/main/java/net/variantgenerator/mod/core/VariantRegistry.java:100 | Appending a config under its own mod id keeps every by-mod list homogeneous. |
| `VariantRegistry.AppendKeepsTiersGrouped` | src/main/java/net/variantgenerator/mod/core/VariantRegistry.java:101 | Appending a config under its tier's name keeps every by-tier list homogeneous. |
| `VariantRegistry.RegisterKeepsIndexed` | src/main/java/net/variantgenerator/mod/core/VariantRegistry.java:96-104 | After registering, every config in the key map is still found in its mod's list and its tier's list. |
| `VariantRegistry.PutKeepsOtherTriples` | src/main/java/net/variantgenerator/mod/core/VariantRegistry.java:98 | Putting a config leaves the entry of every other colon-free (mod, item, tier) triple as it was. |
| `VariantRegistry.VariantAt` | src/main/java/net/variantgenerator/mod/core/VariantRegistry.java:109-112 | A lookup is absent exactly when the key is not in the map, and otherwise returns that key's config. |
| `VariantRegistry.PutLookups` | src/main/java/net/variantgenerator/mod/core/VariantRegistry.java:96-112 | After a put, the config is found under its own triple and the size grows by one only for a new key. Other colon-free triples answer as before. |
| `VariantRegistry.Registry.RegisterVariant` | src/main/java/net/variantgenerator/mod/core/VariantRegistry.java:96-104 | The config is stored under its key and appended to its mod's and its tier's lists, and the invariant is kept. The config is found afterwards, the size grows only for a new key, and other triples are untouched. |
| `VariantRegistry.Registry.GetVariant` | src/main/java/net/variantgenerator/mod/core/VariantRegistry.java:109-112 | Null exactly when the key is absent. A found config has the asked-for key. |
| `VariantRegistry.Registry.GetVariantsForMod` | src/main/java/net/variantgenerator/mod/core/VariantRegistry.java:117-119 | The empty list for an unknown mod. Every config returned belongs to the mod. |
| `VariantRegistry.Registry.GetVariantsForTier` | src/main/java/net/variantgenerator/mod/core/VariantRegistry.java:124-126 | The empty list for an unseen tier. Every config returned has that tier. |
| `VariantRegistry.Registry.GetAllVariants` | src/main/java/net/variantgenerator/mod/core/VariantRegistry.java:131-133 | Exactly the stored configs. Each one is found again by `getVariant` on its own triple. |
| `VariantRegistry.Registry.Size` | src/main/java/net/variantgenerator/mod/core/VariantRegistry.java:173-175 | The number of registered keys. `RegisterVariant` says it grows by one exactly for a new key, and `Clear` sets it to 0. |
| `VariantRegistry.Registry.Clear` | src/main/java/net/variantgenerator/mod/core/VariantRegistry.java:222-227 | All three maps are empty, size is 0, and every query answers empty or null. |
| `VariantRegistry.Registry.constructor` | src/main/java/net/variantgenerator/mod/core/VariantRegistry.java:89-91 | The registry starts with three empty maps that satisfy the invariant. |
| `EnderiteStatCache.ArmorStats.constructor` | src/main/java/net/variantgenerator/mod/core/EnderiteStatCache.java:51-58 | A material with the given fields and an empty protection table. |
| `EnderiteStatCache.ArmorStats.SetProtection` | src/main/java/net/variantgenerator/mod/core/EnderiteStatCache.java:60-62 | Writes one slot of the protection table. No other slot or field changes. |
| `EnderiteStatCache.ToolLookup` | src/main/java/net/variantgenerator/mod/core/EnderiteStatCache.java:160-162 | `getOrDefault(material.toLowerCase(), IRON_TOOL_STATS)`. The entry under the lowercased name when there is one, else the iron stats, so the answer is never null. |
| `EnderiteStatCache.ToolLookupIgnoresCapitalised` | src/main/java/net/variantgenerator/mod/core/EnderiteStatCache.java:142-162 | Lookups lowercase the name while `cacheToolMaterial` stores it as given, so an entry stored under a name with a capital letter is never found. |
| `EnderiteStatCache.StatCache.constructor` | src/main/java/net/variantgenerator/mod/core/EnderiteStatCache.java:107-137 | The seeded tables: the enderite, netherite and iron tool materials, and three armour materials with all their fields and four protections. |
| `EnderiteStatCache.StatCache.CacheToolMaterial` | src/main/java/net/variantgenerator/mod/core/EnderiteStatCache.java:142-146 | Stores the material under the name as given, replacing any entry. With a capital in the name, no lookup changes. |
| `EnderiteStatCache.StatCache.CacheArmorMaterial` | src/main/java/net/variantgenerator/mod/core/EnderiteStatCache.java:151-155 | Stores a fresh material with an empty protection table under the name as given. The tool table is untouched. |
| `EnderiteStatCache.StatCache.GetToolStats` | src/main/java/net/variantgenerator/mod/core/EnderiteStatCache.java:160-162 | Never null: a cached tool material or the iron stats, and the entry under the lowercased name whenever it is cached. |
| `EnderiteStatCache.StatCache.GetArmorStats` | src/main/java/net/variantgenerator/mod/core/EnderiteStatCache.java:167-169 | The entry under the lowercased name, else the "iron" entry. Null only when both are missing. |
| `EnderiteStatCache.StatCache.GetAllToolStats` | src/main/java/net/variantgenerator/mod/core/EnderiteStatCache.java:174-176 | Exactly the cached tool materials. |
| `EnderiteStatCache.StatCache.GetAllArmorStats` | src/main/java/net/variantgenerator/mod/core/EnderiteStatCache.java:181-183 | The cached armour materials, each one and nothing else. |
| `EnderiteStatCache.StatCache.ClearCache` | src/main/java/net/variantgenerator/mod/core/EnderiteStatCache.java:188-192 | Both tables are empty. Tool lookups then answer the iron stats, and armour lookups answer null. |
| `EnderiteStatCache.SeededToolDurabilities` | src/main/java/net/variantgenerator/mod/core/EnderiteStatCache.java:77-137 | The seeded tool durabilities are 4096, 2031 and 250, and "ENDERITE" finds the enderite entry. |
| `EnderiteColorCache.NewColorInfo` | src/main/java/net/variantgenerator/mod/core/EnderiteColorCache.java:45-57 | The brightness is the float mean of the bright colour's channels. It lies in [0,255] and equals the channel for a gray colour. |
| `EnderiteColorCache.DefaultColorInfo` | src/main/java/net/variantgenerator/mod/core/EnderiteColorCache.java:94-101 | A tier name in any case gives that tier's colours, under its lowercase name. Anything else gives the iron colours under "unknown". |
| `EnderiteColorCache.DefaultIgnoresCase` | src/main/java/net/variantgenerator/mod/core/EnderiteColorCache.java:94-101 | The default colours depend only on the lowercased tier name. |
| `EnderiteColorCache.ColorCache.constructor` | src/main/java/net/variantgenerator/mod/core/EnderiteColorCache.java:27-40 | The colour cache starts empty. |
| `EnderiteColorCache.ColorCache.CacheItemColors` | src/main/java/net/variantgenerator/mod/core/EnderiteColorCache.java:62-82 | Only the first match among "enderite_ingot", "netherite_ingot" and "iron_ingot" stores that tier's colours; an id with none changes nothing. Every cached entry is its tier's default. |
| `EnderiteColorCache.ColorCache.GetColorInfo` | src/main/java/net/variantgenerator/mod/core/EnderiteColorCache.java:87-89 | With every entry the default of its key, a lookup answers the default colours of the tier. |
| `EnderiteColorCache.ColorCache.GetBrightColor` | src/main/java/net/variantgenerator/mod/core/EnderiteColorCache.java:106-108 | The bright colour of the tier's colours. |
| `EnderiteColorCache.ColorCache.GetDarkColor` | src/main/java/net/variantgenerator/mod/core/EnderiteColorCache.java:113-115 | The dark colour of the tier's colours. |
| `EnderiteColorCache.ColorCache.GetCacheSize` | src/main/java/net/variantgenerator/mod/core/EnderiteColorCache.java:128-130 | The cache never holds more than the three tier entries. |
| `EnderiteColorCache.ColorCache.ClearCache` | src/main/java/net/variantgenerator/mod/core/EnderiteColorCache.java:120-123 | The cache is empty and its size 0. |
| `EnderiteColorCache.CacheKeysBound` | src/main/java/net/variantgenerator/mod/core/EnderiteColorCache.java:69-78 | Keys drawn from the three tier names number at most three. |
| `VariantGeneratorConfig.GetColorForTier` | src/main/java/net/variantgenerator/mod/config/VariantGeneratorConfig.java:102-109 | The netherite colours exactly for "netherite" and the enderite colours exactly for "enderite", in any case. Every other name gets the iron colours. |
| `VariantGeneratorConfig.GetColorForTierIgnoresCase` | src/main/java/net/variantgenerator/mod/config/VariantGeneratorConfig.java:102-109 | Only the lowercased name matters, and each table's own tier name finds that table. |
| `VariantGeneratorConfig.Validate` | src/main/java/net/variantgenerator/mod/config/VariantGeneratorConfig.java:114-125 | Succeeds exactly when 1 <= netherite multiplier <= enderite multiplier and the texture size is positive. Otherwise it throws the first failing check's message, in source order. |
| `VariantGeneratorConfig.DefaultConfigValidates` | src/main/java/net/variantgenerator/mod/config/VariantGeneratorConfig.java:28-46 | The default configuration validates, and any validating one has ordered multipliers of at least 1. |
| `VariantGenerator.GetReferenceColorForTier` | src/main/java/net/variantgenerator/mod/variant/VariantGenerator.java:175-196 | Each tier's reference analysis claims brightest 255, darkest 0 and range 0..255, with opaque in-range colours. |
| `VariantGenerator.ColorTablesAgree` | src/main/java/net/variantgenerator/mod/variant/VariantGenerator.java:175-196 | The generator's reference colours are the same pixels as the configuration's tier colours and the colour cache's defaults. |
| `VariantGenerator.ExtractModId` | src/main/java/net/variantgenerator/mod/variant/VariantGenerator.java:201-208 | "unknown" for a path without separators. Any other answer is a separator-free path segment. |
| `VariantGenerator.ExtractModIdOfAssetPath` | src/main/java/net/variantgenerator/mod/variant/VariantGenerator.java:201-208 | For `root/modid/rest` with a non-empty mod id the answer is that mod id, with '/' or '\\' as separators. |
| `VariantGenerator.ExtractItemName` | src/main/java/net/variantgenerator/mod/variant/VariantGenerator.java:213-218 | The file name before its last '.'. It throws out of bounds exactly when the file name has no '.'. |
| `VariantGenerator.ExtractItemNameOfTexture` | src/main/java/net/variantgenerator/mod/variant/VariantGenerator.java:213-218 | `dir/base.ext` gives `base`. |
| `VariantGenerator.OutputNameRewrites` | src/main/java/net/variantgenerator/mod/variant/VariantGenerator.java:158-159 | "iron" in the file name becomes the tier's lowercase display name, as in iron_sword.png to enderite_sword.png. A name without "iron" is kept. |
| `VariantGenerator.OutputName` | src/main/java/net/variantgenerator/mod/variant/VariantGenerator.java:158-159 | The output file name of a tier. The iron tier keeps the source name, and no tier shortens it, since every display name has at least four letters. |
| `VariantGenerator.VariantFor` | src/main/java/net/variantgenerator/mod/variant/VariantGenerator.java:166-167 | The registered config has the key of (mod, item, tier), and its texture lies under the rewritten name in the output directory. |
| `VariantGenerator.GenerateVariantTexture` | src/main/java/net/variantgenerator/mod/variant/VariantGenerator.java:145-169 | The texture is recoloured between the tier's reference colours, with every alpha kept. The variant is registered under its key and appended to its mod's and tier's lists. |
| `VariantGenerator.GenerateBothTiers` | src/main/java/net/variantgenerator/mod/variant/VariantGenerator.java:133-137 | The netherite variant, then the enderite one: the mod's list gains both in that order, and each tier's list gains its own. |
| `VariantGenerator.GenerateVariantsForItem` | src/main/java/net/variantgenerator/mod/variant/VariantGenerator.java:116-140 | A path whose file name has no '.' fails before anything is registered. Otherwise both variants of the item are registered under the mod id and item name taken from the path. |
| `ItemUtils.IsIronVariant` | src/main/java/net/variantgenerator/mod/util/ItemUtils.java:19-22 | The lowercased name contains "iron" but neither "iron_ore" nor "iron_block". The three lemmas below state its properties. |
| `ItemUtils.IronVariantIgnoresCase` | src/main/java/net/variantgenerator/mod/util/ItemUtils.java:19-22 | The iron-variant test depends only on the lowercased name. |
| `ItemUtils.IronToolIsIronVariant` | src/main/java/net/variantgenerator/mod/util/ItemUtils.java:19-22 | "Iron_Sword" is an iron variant. |
| `ItemUtils.OreAndBlocksAreNotIronVariants` | src/main/java/net/variantgenerator/mod/util/ItemUtils.java:19-22 | Iron ore and iron blocks are excluded, whatever their case, and so are names without "iron". |
| `ItemUtils.SplitAtColon` | src/main/java/net/variantgenerator/mod/util/ItemUtils.java:29-39 | `split(":")` yields a first element exactly when the name is not all colons, and it is the text before the first ':'. A second element exists when the rest is not all colons, and it is the text up to the next ':'. |
| `ItemUtils.ExtractModId` | src/main/java/net/variantgenerator/mod/util/ItemUtils.java:27-32 | "minecraft" without a ':'. Otherwise the text before the first ':', or out of bounds when the name is only colons. |
| `ItemUtils.ExtractItemPath` | src/main/java/net/variantgenerator/mod/util/ItemUtils.java:37-42 | The whole name without a ':'. Otherwise the text between the first and the next ':', or out of bounds when nothing but colons follows the first one. |
| `ItemUtils.RegistryNameRoundTrip` | src/main/java/net/variantgenerator/mod/util/ItemUtils.java:27-42 | `mod:path` splits back into mod and path. |
| `ItemUtils.ItemPathNeedsPath` | src/main/java/net/variantgenerator/mod/util/ItemUtils.java:37-42 | "mod:" has no item path (out of bounds). Its mod id is found unless it is empty. |
| `ItemUtils.ToVariantName` | src/main/java/net/variantgenerator/mod/util/ItemUtils.java:47-49 | The iron tier leaves every name unchanged. A tier name of four letters or more never shortens a name, and one of exactly four keeps its length. |
| `ItemUtils.ToVariantNameRewrites` | src/main/java/net/variantgenerator/mod/util/ItemUtils.java:47-49 | Each "iron" becomes the lowercased tier name, and names without "iron" are kept. |
| `ItemUtils.ExtractBaseItemName` | src/main/java/net/variantgenerator/mod/util/ItemUtils.java:125-133 | Never longer than the variant name. A name changes only when its lowercase form mentions "enderite" or "netherite". |
| `ItemUtils.ExtractBaseKeepsUpperCase` | src/main/java/net/variantgenerator/mod/util/ItemUtils.java:125-133 | A name with no lower-case letters comes back unchanged: the test is case-insensitive but `replace` is not. |
| `ItemUtils.UpperCaseVariantKept` | src/main/java/net/variantgenerator/mod/util/ItemUtils.java:125-133 | "ENDERITE_SWORD" passes the enderite test but keeps its name. |
| `ItemUtils.BaseOfEnderiteVariant` | src/main/java/net/variantgenerator/mod/util/ItemUtils.java:47-133 | The base name of the enderite variant of `iron...` is the original name. |
| `ItemUtils.BaseOfNetheriteVariant` | src/main/java/net/variantgenerator/mod/util/ItemUtils.java:47-133 | The same for the netherite variant, when the rest of the name has no 'd' that could form "enderite". |
| `ItemUtils.HumanizeName` | src/main/java/net/variantgenerator/mod/util/ItemUtils.java:54-70 | The loop computes the fold over the `split("_")` pieces as the source writes it, length test included. |
| `ItemUtils.HumanizeFoldStep` | src/main/java/net/variantgenerator/mod/util/ItemUtils.java:59-67 | One loop iteration is one step of the fold. |
| `ItemUtils.HumanizePrefix` | src/main/java/net/variantgenerator/mod/util/ItemUtils.java:59-67 | Without empty pieces, after i words the result is the capitalised words joined by single spaces, plus one space before the next word. |
| `ItemUtils.HumanizeJoinsWords` | src/main/java/net/variantgenerator/mod/util/ItemUtils.java:54-70 | Without empty pieces the result is the capitalised pieces joined by single spaces, as intended. |
| `ItemUtils.HumanizeNameCorrected` | src/main/java/net/variantgenerator/mod/util/ItemUtils.java:54-70 | The corrected loop computes the capitalised non-empty pieces joined by single spaces. |
| `ItemUtils.HumanizeCorrectedStep` | src/main/java/net/variantgenerator/mod/util/ItemUtils.java:59-67 | One corrected iteration adds a space only between words, and the result is never empty after a word. |
| `ItemUtils.HumanizeAgreesWithoutEmptyPieces` | src/main/java/net/variantgenerator/mod/util/ItemUtils.java:54-70 | The as-written and the corrected versions agree on every name whose pieces are non-empty. |
| `ItemUtils.HumanizeDoubledUnderscore` | src/main/java/net/variantgenerator/mod/util/ItemUtils.java:63 | "a__b" humanizes to "A B " as written and to "A B" corrected. |
| `ItemUtils.HumanizeLeadingUnderscore` | src/main/java/net/variantgenerator/mod/util/ItemUtils.java:63 | "_a" humanizes to "A " as written and to "A" corrected. |
| `ItemUtils.HumanizedWordsTrimmed` | src/main/java/net/variantgenerator/mod/util/ItemUtils.java:54-70 | For a name without spaces, the corrected result neither starts nor ends with a space. |
| `ItemUtils.CollapseSpaces` | src/main/java/net/variantgenerator/mod/util/ItemUtils.java:110 | Replacing each whitespace run by '_' leaves no whitespace and never lengthens the text. |
| `ItemUtils.CollapseKeepsSpaceless` | src/main/java/net/variantgenerator/mod/util/ItemUtils.java:110 | Text without whitespace is unchanged. |
| `ItemUtils.KeepAllowed` | src/main/java/net/variantgenerator/mod/util/ItemUtils.java:111 | Only [a-z0-9_] remains, and each allowed character keeps its number of occurrences. |
| `ItemUtils.KeepAllAllowed` | src/main/java/net/variantgenerator/mod/util/ItemUtils.java:111 | Text of allowed characters is unchanged. |
| `ItemUtils.NormalizeName` | src/main/java/net/variantgenerator/mod/util/ItemUtils.java:108-112 | The normal form holds only [a-z0-9_] and is no longer than the name. |
| `ItemUtils.NormalizeIdempotent` | src/main/java/net/variantgenerator/mod/util/ItemUtils.java:108-112 | Normalising twice is normalising once. |
| `ItemUtils.NormalizeKeepsNormalNames` | src/main/java/net/variantgenerator/mod/util/ItemUtils.java:108-112 | Names already in [a-z0-9_] are their own normal form. |
| `ItemUtils.IsValidTier` | src/main/java/net/variantgenerator/mod/util/ItemUtils.java:117-120 | The lowercased name is "iron", "netherite" or "enderite". `ValidTierNames` states it both ways. |
| `ItemUtils.ValidTierNames` | src/main/java/net/variantgenerator/mod/util/ItemUtils.java:117-120 | A tier name is valid exactly when it is a tier's name in some case. Both display names and enum names are valid. |
| `FileUtils.FileName` | src/main/java/net/variantgenerator/mod/util/FileUtils.java:120 | The file name is the path's final '/'-free suffix. |
| `FileUtils.FileNameOfPath` | src/main/java/net/variantgenerator/mod/util/FileUtils.java:120 | `dir/name` has file name `name`. |
| `FileUtils.GetFileExtension` | src/main/java/net/variantgenerator/mod/util/FileUtils.java:119-126 | The extension is free of '.' and '/', and no longer than the file name. |
| `FileUtils.GetFileNameWithoutExtension` | src/main/java/net/variantgenerator/mod/util/FileUtils.java:131-138 | The stem is a prefix of the file name. |
| `FileUtils.ExtensionSplitRoundTrip` | src/main/java/net/variantgenerator/mod/util/FileUtils.java:119-138 | With a '.' after the first character, stem + "." + extension is the file name and the stem is non-empty. Otherwise the extension is empty and the stem is the whole name. |
| `FileUtils.ExtensionOfName` | src/main/java/net/variantgenerator/mod/util/FileUtils.java:119-138 | `dir/base.ext` splits into `base` and `ext`. |
| `FileUtils.DotFileHasNoExtension` | src/main/java/net/variantgenerator/mod/util/FileUtils.java:122 | A name whose only '.' is its first character has no extension. |
| `ItemModelBuilder.CreateSimpleItemModel` | src/main/java/net/variantgenerator/mod/registry/ItemModelBuilder.java:23-32 | The model has exactly "parent" = "item/generated" and "textures" with layer0 = the texture path. |
| `ItemModelBuilder.CreateHandheldItemModel` | src/main/java/net/variantgenerator/mod/registry/ItemModelBuilder.java:37-46 | The same with parent "item/handheld". |
| `ItemModelBuilder.ModelsDifferInParentOnly` | src/main/java/net/variantgenerator/mod/registry/ItemModelBuilder.java:23-46 | The two models differ only in their parent. |
| `ItemModelBuilder.GenerateModelPath` | src/main/java/net/variantgenerator/mod/registry/ItemModelBuilder.java:70-72 | `assets/<mod>/models/item/<item>.json`. `ModelPathNamesItem` recovers the item name and the extension from it. |
| `ItemModelBuilder.ModelPathNamesItem` | src/main/java/net/variantgenerator/mod/registry/ItemModelBuilder.java:70-72 | The model path's file is `<item>.json`. |
| `ItemModelBuilder.GenerateTexturePath` | src/main/java/net/variantgenerator/mod/registry/ItemModelBuilder.java:77-79 | `<mod>:item/<item>`. `TexturePathRoundTrip` splits it back into the mod id and the path. |
| `ItemModelBuilder.TexturePathRoundTrip` | src/main/java/net/variantgenerator/mod/registry/ItemModelBuilder.java:77-79 | The texture id `mod:item/<item>` splits back into the mod id and `item/<item>`. |
| `RecipeScanner.NewScannedRecipe` | src/main/java/net/variantgenerator/mod/recipe/RecipeScanner.java:26-30 | A scanned recipe starts with no ingredients and no type, base or output. |
| `RecipeScanner.VariantIngredient` | src/main/java/net/variantgenerator/mod/recipe/RecipeScanner.java:105-114 | One ingredient of the variant. It is changed only when its lowercase form mentions "iron", the tier "iron" leaves it as it is, and a tier name of four letters or more never shortens it. |
| `RecipeScanner.VariantIngredientReplacesEveryIron` | src/main/java/net/variantgenerator/mod/recipe/RecipeScanner.java:105-114 | An ingredient whose lowercase form has "iron" gets every "iron" replaced. Any other ingredient is kept. |
| `RecipeScanner.UpperCaseIronIngredientKept` | src/main/java/net/variantgenerator/mod/recipe/RecipeScanner.java:106-108 | "IRON_X" passes the test but is kept, because `replace` is case-sensitive. |
| `RecipeScanner.IronFreeRecipeUnchanged` | src/main/java/net/variantgenerator/mod/recipe/RecipeScanner.java:100-121 | A recipe without "iron" anywhere yields a variant with the same id, output and ingredients. |
| `RecipeScanner.VariantRecipeIdOfIronRecipe` | src/main/java/net/variantgenerator/mod/recipe/RecipeScanner.java:102 | `iron...` recipe ids get the tier name in place of "iron". |
| `RecipeScanner.CreateVariantRecipe` | src/main/java/net/variantgenerator/mod/recipe/RecipeScanner.java:100-121 | A recipe with no output throws a null pointer. Otherwise the variant has the rewritten id, ingredients and output. |
| `RecipeScanner.GenerateVariantRecipes` | src/main/java/net/variantgenerator/mod/recipe/RecipeScanner.java:81-95 | The netherite and then the enderite variant of the recipe, or the null pointer when the recipe has no output. |
| `RecipeScanner.Scanner.RegisterScannedRecipe` | src/main/java/net/variantgenerator/mod/recipe/RecipeScanner.java:126-130 | The recipe is stored under `mod:recipe` and found again. The count grows only for a new key. |
| `RecipeScanner.Scanner.GetScannedRecipe` | src/main/java/net/variantgenerator/mod/recipe/RecipeScanner.java:135-137 | Null exactly when `mod:recipe` is absent. |
| `RecipeScanner.Scanner.GetScannedRecipesForMod` | src/main/java/net/variantgenerator/mod/recipe/RecipeScanner.java:142-146 | Exactly the stored recipes of that mod. |
| `RecipeScanner.Scanner.StoreVariantRecipe` | src/main/java/net/variantgenerator/mod/recipe/RecipeScanner.java:151-155 | The variant joins the end of its original's list. The total grows by one and the multiset of all variants gains it. |
| `RecipeScanner.Scanner.GetVariantRecipes` | src/main/java/net/variantgenerator/mod/recipe/RecipeScanner.java:160-162 | The original's list, or the empty list. |
| `RecipeScanner.Scanner.GetAllVariantRecipes` | src/main/java/net/variantgenerator/mod/recipe/RecipeScanner.java:167-171 | The loop flattens the lists into a sequence holding every stored variant as often as it is stored. |
| `RecipeScanner.Scanner.GetScannedRecipeCount` | src/main/java/net/variantgenerator/mod/recipe/RecipeScanner.java:176-178 | The number of scanned keys. `RegisterScannedRecipe` says it grows only for a new key, and `Clear` sets it to 0. |
| `RecipeScanner.Scanner.GetVariantRecipeCount` | src/main/java/net/variantgenerator/mod/recipe/RecipeScanner.java:183-187 | The loop's sum of list sizes is the number of stored variants. |
| `RecipeScanner.Scanner.Clear` | src/main/java/net/variantgenerator/mod/recipe/RecipeScanner.java:192-196 | Both maps are empty and every count is 0. |
| `RecipeTemplate.TemplateType.RecipeType` | src/main/java/net/variantgenerator/mod/recipe/RecipeTemplate.java:19-33 | Every recipe type id is in the "minecraft:" namespace. |
| `RecipeTemplate.RecipeTypesDistinct` | src/main/java/net/variantgenerator/mod/recipe/RecipeTemplate.java:19-33 | Distinct template types have distinct recipe type ids. |
| `RecipeTemplate.NewTemplate` | src/main/java/net/variantgenerator/mod/recipe/RecipeTemplate.java:44-48 | A template with no description and no variables. |
| `RecipeTemplate.Templates.constructor` | src/main/java/net/variantgenerator/mod/recipe/RecipeTemplate.java:58-73 | The three seeded templates (one smithing, two shaped crafting) under their ids. |
| `RecipeTemplate.Templates.GetTemplate` | src/main/java/net/variantgenerator/mod/recipe/RecipeTemplate.java:78-80 | Null exactly for an unregistered id. |
| `RecipeTemplate.Templates.RegisterTemplate` | src/main/java/net/variantgenerator/mod/recipe/RecipeTemplate.java:85-88 | The template is stored under the id and found again, other ids answer as before, and the count grows only for a new id. |
| `RecipeTemplate.Templates.GetAllTemplates` | src/main/java/net/variantgenerator/mod/recipe/RecipeTemplate.java:152-154 | Exactly the registered templates. |
| `RecipeTemplate.Templates.GetTemplateCount` | src/main/java/net/variantgenerator/mod/recipe/RecipeTemplate.java:159-161 | The number of registered ids. `RegisterTemplate` says it grows only for a new id. |
| `RecipeTemplate.CreateSmithingRecipe` | src/main/java/net/variantgenerator/mod/recipe/RecipeTemplate.java:93-112 | Exactly five properties: the smithing type, the template id, and base, addition and result item objects. |
| `RecipeTemplate.RowCount` | src/main/java/net/variantgenerator/mod/recipe/RecipeTemplate.java:123-124 | The number of rows is min(3, length/3). |
| `RecipeTemplate.PatternRows` | src/main/java/net/variantgenerator/mod/recipe/RecipeTemplate.java:122-127 | Every row has three characters. |
| `RecipeTemplate.PatternRowsArePrefix` | src/main/java/net/variantgenerator/mod/recipe/RecipeTemplate.java:122-127 | Concatenated, the first k rows are the first 3k characters of the pattern. |
| `RecipeTemplate.NineCharacterPattern` | src/main/java/net/variantgenerator/mod/recipe/RecipeTemplate.java:122-127 | A nine-character pattern splits into three rows that concatenate back to it. |
| `RecipeTemplate.CreateCraftingRecipe` | src/main/java/net/variantgenerator/mod/recipe/RecipeTemplate.java:117-147 | The shaped type, the pattern rows, a key object mapping each symbol to its item object, and the result item with its count. |
| `OreProfile.GetRequiredToolForHardness` | src/main/java/net/variantgenerator/mod/core/OreProfile.java:89-94 | "enderite" iff hardness >= 50, "netherite" iff 20 <= h < 50, "iron" iff 5 <= h < 20, and "wood" below 5. |
| `OreProfile.RequiredTierMonotone` | src/main/java/net/variantgenerator/mod/core/OreProfile.java:89-94 | A harder ore never needs a lower tier. |
| `OreProfile.PickaxeOf` | src/main/java/net/variantgenerator/mod/core/OreProfile.java:36-41 | Every required tool is a `_pickaxe`. |
| `OreProfile.PickaxeNames` | src/main/java/net/variantgenerator/mod/core/OreProfile.java:36-41 | The four pickaxes, with "wooden_pickaxe" for wood. |
| `OreProfile.DetermineRequiredTool` | src/main/java/net/variantgenerator/mod/core/OreProfile.java:36-41 | The pickaxe of the hardness's tier, one of four names. |
| `OreProfile.NewOreStats` | src/main/java/net/variantgenerator/mod/core/OreProfile.java:28-34 | Mining speed 1.0, and the required tool follows from the hardness. |
| `OreProfile.OreLookup` | src/main/java/net/variantgenerator/mod/core/OreProfile.java:82-84 | The stored stats, or the enderite ore's. |
| `OreProfile.SeededTableAnswersEnderite` | src/main/java/net/variantgenerator/mod/core/OreProfile.java:55-60 | The seeded table answers the enderite ore for every name, and that ore needs an enderite pickaxe. |
| `OreProfile.OreCache.constructor` | src/main/java/net/variantgenerator/mod/core/OreProfile.java:57-60 | Only the enderite ore is seeded. |
| `OreProfile.OreCache.TrackOre` | src/main/java/net/variantgenerator/mod/core/OreProfile.java:65-77 | The ore is stored with the tool its hardness needs. Other ores answer as before. |
| `OreProfile.OreCache.GetOreStats` | src/main/java/net/variantgenerator/mod/core/OreProfile.java:82-84 | Never null: a tracked ore or the enderite ore. |
| `OreProfile.OreCache.GetAllOres` | src/main/java/net/variantgenerator/mod/core/OreProfile.java:99-101 | Exactly the stored ores. |
| `OreProfile.OreCache.ClearProfile` | src/main/java/net/variantgenerator/mod/core/OreProfile.java:106-109 | Empty, and every lookup answers the enderite ore. |
| `ArmorProfile.NewArmorStats` | src/main/java/net/variantgenerator/mod/core/ArmorProfile.java:30-37 | A piece with no durability, toughness or knockback resistance. |
| `ArmorProfile.EnderitePiece` | src/main/java/net/variantgenerator/mod/core/ArmorProfile.java:56-72 | A seeded piece: toughness 4.0 and knockback resistance 0.1. |
| `ArmorProfile.ArmorLookup` | src/main/java/net/variantgenerator/mod/core/ArmorProfile.java:94-96 | The stored piece, or the enderite helmet. |
| `ArmorProfile.NamesInSlot` | src/main/java/net/variantgenerator/mod/core/ArmorProfile.java:101-107 | Exactly the names whose piece sits in the slot. |
| `ArmorProfile.SeededPieces` | src/main/java/net/variantgenerator/mod/core/ArmorProfile.java:51-72 | Protections 4, 9, 7 and 4, one piece per armour slot and none for the body slot. |
| `ArmorProfile.CollectStep` | src/main/java/net/variantgenerator/mod/core/ArmorProfile.java:103-105 | One loop iteration keeps the invariant: the collected pieces are those of the visited names in the slot. |
| `ArmorProfile.ArmorCache.constructor` | src/main/java/net/variantgenerator/mod/core/ArmorProfile.java:56-72 | The four seeded enderite pieces. |
| `ArmorProfile.ArmorCache.TrackArmor` | src/main/java/net/variantgenerator/mod/core/ArmorProfile.java:77-89 | The piece is stored with protection 0 in its slot. Other pieces answer as before. |
| `ArmorProfile.ArmorCache.GetArmorStats` | src/main/java/net/variantgenerator/mod/core/ArmorProfile.java:94-96 | Never null: a tracked piece or the enderite helmet. |
| `ArmorProfile.ArmorCache.GetArmorBySlot` | src/main/java/net/variantgenerator/mod/core/ArmorProfile.java:101-107 | One result per stored piece in the slot. Every piece in the slot appears and nothing else does. |
| `ArmorProfile.ArmorCache.GetAllArmor` | src/main/java/net/variantgenerator/mod/core/ArmorProfile.java:112-114 | Exactly the stored pieces. |
| `ArmorProfile.ArmorCache.ClearProfile` | src/main/java/net/variantgenerator/mod/core/ArmorProfile.java:119-122 | Empty, and every lookup answers the enderite helmet. |
| `WeaponProfile.NewWeaponStats` | src/main/java/net/variantgenerator/mod/core/WeaponProfile.java:29-36 | Attack speed -2.4, no knockback and material "unknown". |
| `WeaponProfile.WeaponLookup` | src/main/java/net/variantgenerator/mod/core/WeaponProfile.java:81-83 | The stored weapon, or the iron sword. |
| `WeaponProfile.SeededDamages` | src/main/java/net/variantgenerator/mod/core/WeaponProfile.java:50-59 | Damages 6, 8 and 6: the enderite sword hits less hard than the netherite one. Unknown names get the iron sword. |
| `WeaponProfile.WeaponCache.constructor` | src/main/java/net/variantgenerator/mod/core/WeaponProfile.java:54-59 | The three seeded swords. |
| `WeaponProfile.WeaponCache.TrackWeapon` | src/main/java/net/variantgenerator/mod/core/WeaponProfile.java:64-76 | The weapon is stored with its damage. Other weapons answer as before. |
| `WeaponProfile.WeaponCache.GetWeaponStats` | src/main/java/net/variantgenerator/mod/core/WeaponProfile.java:81-83 | Never null: a tracked weapon or the iron sword. |
| `WeaponProfile.WeaponCache.GetAllWeapons` | src/main/java/net/variantgenerator/mod/core/WeaponProfile.java:88-90 | Exactly the stored weapons. |
| `WeaponProfile.WeaponCache.ClearProfile` | src/main/java/net/variantgenerator/mod/core/WeaponProfile.java:95-98 | Empty, and every lookup answers the iron sword. |
| `EnchantmentProfile.NewEnchantmentData` | src/main/java/net/variantgenerator/mod/core/EnchantmentProfile.java:39-45 | Metadata with no compatible items. |
| `EnchantmentProfile.AddEnchantment` | src/main/java/net/variantgenerator/mod/core/EnchantmentProfile.java:60-61 | The enchantment joins the item's set, which is created when missing. No other item changes. |
| `EnchantmentProfile.AddEnchantmentIdempotent` | src/main/java/net/variantgenerator/mod/core/EnchantmentProfile.java:60-61 | Tracking the same pair twice is tracking it once. |
| `EnchantmentProfile.AddEnchantmentCommutes` | src/main/java/net/variantgenerator/mod/core/EnchantmentProfile.java:60-61 | The order two pairs are tracked in does not matter. |
| `EnchantmentProfile.Profile.TrackEnchantment` | src/main/java/net/variantgenerator/mod/core/EnchantmentProfile.java:51-68 | The enchantment becomes compatible with the item. The profile size grows only for a new item, and the metadata is untouched. |
| `EnchantmentProfile.Profile.CacheEnchantment` | src/main/java/net/variantgenerator/mod/core/EnchantmentProfile.java:80-83 | Fresh metadata is stored under the id and found again. The tracked ids gain the id and the item sets are untouched. |
| `EnchantmentProfile.Profile.GetCompatibleEnchantments` | src/main/java/net/variantgenerator/mod/core/EnchantmentProfile.java:73-75 | The item's set of enchantments, or the empty set for an item never tracked. |
| `EnchantmentProfile.Profile.GetEnchantmentData` | src/main/java/net/variantgenerator/mod/core/EnchantmentProfile.java:88-90 | Null exactly for an unknown id. |
| `EnchantmentProfile.Profile.GetAllTrackedEnchantments` | src/main/java/net/variantgenerator/mod/core/EnchantmentProfile.java:95-97 | The ids with metadata, not the ids seen on items. |
| `EnchantmentProfile.Profile.GetProfileSize` | src/main/java/net/variantgenerator/mod/core/EnchantmentProfile.java:111-113 | The number of items with a tracked enchantment. `TrackEnchantment` says it grows only for a new item. |
| `EnchantmentProfile.Profile.ClearProfile` | src/main/java/net/variantgenerator/mod/core/EnchantmentProfile.java:102-106 | Both tables are empty and every query answers empty, null or 0. |
| `LootProfile.NewLootEntry` | src/main/java/net/variantgenerator/mod/core/LootProfile.java:26-32 | Minimum and maximum count 1. |
| `LootProfile.NewLootTableInfo` | src/main/java/net/variantgenerator/mod/core/LootProfile.java:49-53 | No entries and source type "unknown". |
| `LootProfile.Register` | src/main/java/net/variantgenerator/mod/core/LootProfile.java:74-77 | The entry goes at the end of its table, which is created when missing, and no other table changes. Well-formedness is kept. |
| `LootProfile.RegisterAllAppends` | src/main/java/net/variantgenerator/mod/core/LootProfile.java:74-77 | A run of registrations appends their entries in order. |
| `LootProfile.DuplicateEntriesKept` | src/main/java/net/variantgenerator/mod/core/LootProfile.java:74-77 | The same entry registered twice is listed twice. |
| `LootProfile.Int32Succ` | src/main/java/net/variantgenerator/mod/core/LootProfile.java:62-69 | The Java int increment wraps from 2^31-1 to -2^31. |
| `LootProfile.Profile.TrackLootTable` | src/main/java/net/variantgenerator/mod/core/LootProfile.java:62-69 | One more table is counted, as a Java int, and the entries are untouched. |
| `LootProfile.Profile.RegisterLootEntry` | src/main/java/net/variantgenerator/mod/core/LootProfile.java:74-77 | The entry joins its table, and the count is untouched. |
| `LootProfile.Profile.GetLootTableInfo` | src/main/java/net/variantgenerator/mod/core/LootProfile.java:82-84 | Null exactly for an unregistered table. |
| `LootProfile.Profile.GetAllLootTables` | src/main/java/net/variantgenerator/mod/core/LootProfile.java:89-91 | Exactly the registered tables. |
| `LootProfile.Profile.GetTrackedLootTableCount` | src/main/java/net/variantgenerator/mod/core/LootProfile.java:96-98 | The `int` table count. `TrackLootTable` advances it with wrap-around, and `ClearProfile` sets it to 0. |
| `LootProfile.Profile.ClearProfile` | src/main/java/net/variantgenerator/mod/core/LootProfile.java:103-107 | No tables and a count of 0. |
| `PerformanceMonitor.Metric.constructor` | src/main/java/net/variantgenerator/mod/util/PerformanceMonitor.java:25-29 | A metric started now and not completed. |
| `PerformanceMonitor.Metric.Complete` | src/main/java/net/variantgenerator/mod/util/PerformanceMonitor.java:31-35 | The duration is the time elapsed since the start. |
| `PerformanceMonitor.AverageDuration` | src/main/java/net/variantgenerator/mod/util/PerformanceMonitor.java:89-99 | 0 for no metrics. Otherwise the truncated quotient of the completed durations' total by the number of metrics. |
| `PerformanceMonitor.CompletedTotalBounds` | src/main/java/net/variantgenerator/mod/util/PerformanceMonitor.java:92-97 | Durations in [0,d] give a total in [0, n*d]. |
| `PerformanceMonitor.AverageBounds` | src/main/java/net/variantgenerator/mod/util/PerformanceMonitor.java:89-99 | Durations in [0,d] give an average in [0,d]. |
| `PerformanceMonitor.AverageOfUniform` | src/main/java/net/variantgenerator/mod/util/PerformanceMonitor.java:89-99 | Metrics that all took d average d. |
| `PerformanceMonitor.UnfinishedMetricDilutes` | src/main/java/net/variantgenerator/mod/util/PerformanceMonitor.java:92-98 | An unfinished metric adds nothing to the total but counts in the divisor, so it can only lower the average. |
| `PerformanceMonitor.CacheHitKey` | src/main/java/net/variantgenerator/mod/util/PerformanceMonitor.java:68 | The counter key is the cache type followed by "_cache_hits". |
| `PerformanceMonitor.CacheHitKeys` | src/main/java/net/variantgenerator/mod/util/PerformanceMonitor.java:47-52 | The seeded counters are the keys of the "color" and "stat" caches. |
| `PerformanceMonitor.Monitor.constructor` | src/main/java/net/variantgenerator/mod/util/PerformanceMonitor.java:47-52 | No metrics, and the four counters at 0. |
| `PerformanceMonitor.Monitor.StartMetric` | src/main/java/net/variantgenerator/mod/util/PerformanceMonitor.java:57-62 | A new unfinished metric goes at the end of its name's list. The metric count grows only for a new name. |
| `PerformanceMonitor.Monitor.RecordCacheHit` | src/main/java/net/variantgenerator/mod/util/PerformanceMonitor.java:67-70 | The type's counter grows by one, starting from 0. |
| `PerformanceMonitor.Monitor.RecordVariantGenerated` | src/main/java/net/variantgenerator/mod/util/PerformanceMonitor.java:75-77 | The counter grows by one. After `clear` it throws a null pointer and nothing changes. |
| `PerformanceMonitor.Monitor.RecordTextureProcessed` | src/main/java/net/variantgenerator/mod/util/PerformanceMonitor.java:82-84 | The same for the texture counter. |
| `PerformanceMonitor.Monitor.GetAverageDuration` | src/main/java/net/variantgenerator/mod/util/PerformanceMonitor.java:89-99 | `AverageDuration` of the name's metrics, or 0 for an unknown name. `AverageBounds`, `AverageOfUniform` and `UnfinishedMetricDilutes` state its properties. |
| `PerformanceMonitor.Monitor.GetCacheHitCount` | src/main/java/net/variantgenerator/mod/util/PerformanceMonitor.java:104-106 | The type's counter, or 0. `RecordCacheHit` says it grows by one per hit. |
| `PerformanceMonitor.Monitor.GetTotalVariantsGenerated` | src/main/java/net/variantgenerator/mod/util/PerformanceMonitor.java:111-113 | The counter, or 0. `RecordVariantGenerated` says how it grows. |
| `PerformanceMonitor.Monitor.GetTotalTexturesProcessed` | src/main/java/net/variantgenerator/mod/util/PerformanceMonitor.java:118-120 | The counter, or 0. `RecordTextureProcessed` says how it grows. |
| `PerformanceMonitor.Monitor.GetMetricsCount` | src/main/java/net/variantgenerator/mod/util/PerformanceMonitor.java:153-155 | The number of distinct metric names. `StartMetric` says it grows only for a new name. |
| `PerformanceMonitor.Monitor.Clear` | src/main/java/net/variantgenerator/mod/util/PerformanceMonitor.java:144-148 | No metrics and no counters, so every getter answers 0. |
| `ListMaps.Append` | src/main/java/net/variantgenerator/mod/core/VariantRegistry.java:100-101 | `computeIfAbsent(k, new list).add(v)`: v goes at the end of k's list, which is created when missing, and no other key changes. |
| `ListMaps.AppendCounts` | src/main/java/net/variantgenerator/mod/recipe/RecipeScanner.java:151-155 | An append adds one to the total size and the value to the multiset of all values. |
| `JsonValues.ItemObject` | src/main/java/net/variantgenerator/mod/recipe/RecipeTemplate.java:98-100 | An object whose "item" property is the item id. |
| `JavaNumbers.Trunc` | src/main/java/net/variantgenerator/mod/core/VariantRegistry.java:151 | The `(int)` cast of a float rounds toward zero. |
| `JavaNumbers.Ceil` | src/main/java/net/variantgenerator/mod/core/VariantRegistry.java:156 | `Math.ceil`: the least integer not below x. |
| `JavaNumbers.Round` | src/main/java/net/variantgenerator/mod/texture/AdvancedTextureProcessor.java:185 | `Math.round`: the nearest integer, with halves rounded up. |
| `JavaNumbers.Clamp` | src/main/java/net/variantgenerator/mod/texture/AdvancedTextureProcessor.java:185-187 | `max(lo, min(hi, v))` lies in [lo,hi] and keeps values already there. |
| `JavaNumbers.JavaDiv` | src/main/java/net/variantgenerator/mod/util/PerformanceMonitor.java:98 | Java's integer division truncates: the remainder takes the dividend's sign and is smaller than the divisor in magnitude. |
| `JavaNumbers.FRem` | src/main/java/net/variantgenerator/mod/texture/AdvancedTextureProcessor.java:41 | Java's float `%` takes the dividend's sign and is smaller than the divisor in magnitude. |
| `JavaNumbers.TruncQuotient` | src/main/java/net/variantgenerator/mod/texture/AdvancedTextureProcessor.java:41 | The truncated quotient brackets x between consecutive multiples of m. |
| `JavaStrings.Lower` | src/main/java/net/variantgenerator/mod/util/ItemUtils.java:20 | `toLowerCase` (ASCII): same length, and every capital is lowered so none remain. |
| `JavaStrings.LowerNoCapitals` | src/main/java/net/variantgenerator/mod/util/ItemUtils.java:118 | Text without capitals is its own lowercase. |
| `JavaStrings.Contains` | src/main/java/net/variantgenerator/mod/util/ItemUtils.java:20 | `String.contains`: the text occurs at some index. `MissingCharNotContained` and `ContainsTail` state its properties. |
| `JavaStrings.ReplaceAll` | src/main/java/net/variantgenerator/mod/util/ItemUtils.java:48 | `String.replace`. A replacement as long as the target keeps the length, a shorter one never lengthens the text, a longer one never shortens it, and replacing a target by itself changes nothing. |
| `JavaStrings.ReplaceAllAbsent` | src/main/java/net/variantgenerator/mod/util/ItemUtils.java:48 | `replace` leaves text without the target unchanged. |
| `JavaStrings.ReplaceAllAtFront` | src/main/java/net/variantgenerator/mod/util/ItemUtils.java:48 | A target at the front is replaced and the rest is processed on. |
| `JavaStrings.LastIndexOf` | src/main/java/net/variantgenerator/mod/util/FileUtils.java:121 | -1 or the position of the last occurrence: no occurrence lies after it. |
| `JavaStrings.LastIndexOfBefore` | src/main/java/net/variantgenerator/mod/util/FileUtils.java:121 | In `s + c + t` with no c in t, the last c is at position \|s\|. |
| `JavaStrings.IndexOf` | src/main/java/net/variantgenerator/mod/util/ItemUtils.java:29 | -1 exactly when the character is absent, otherwise the first occurrence. |
| `JavaStrings.SegmentsAtSeparator` | src/main/java/net/variantgenerator/mod/util/ItemUtils.java:57 | Splitting `a + sep + rest` gives a, then the pieces of rest. |
| `JavaStrings.SegmentsAllEmpty` | src/main/java/net/variantgenerator/mod/util/ItemUtils.java:29 | Every piece is empty exactly when the text is all separators. |
| `JavaStrings.JavaSplit` | src/main/java/net/variantgenerator/mod/util/ItemUtils.java:57 | `String.split` on a one-character class. No piece contains a separator, and there are never more pieces than `Segments` has. |
| `JavaStrings.DropTrailingEmpty` | src/main/java/net/variantgenerator/mod/util/ItemUtils.java:57 | `split` drops the trailing empty pieces and only those. |
| `JavaStrings.JavaSplitLength` | src/main/java/net/variantgenerator/mod/util/ItemUtils.java:29-39 | After a split there are more than k pieces exactly when a non-empty piece lies at index k or beyond. |
| `JavaStrings.JoinAppend` | src/main/java/net/variantgenerator/mod/util/ItemUtils.java:61-64 | Joining one more word adds the separator and the word. |
| `JavaStrings.SplitAtFirstSeparator` | src/main/java/net/variantgenerator/mod/util/ItemUtils.java:29-39 | The first piece is the text before the first separator, and the others are the pieces after it. |

## Left out

- Image and file input and output are not modelled:
  - `loadImage`, `saveImage`, `saveModel`, `scanForIronVariants`, `scanAndGenerateVariants`, `scanForIronRecipes` (a stub in the source);
  - the directory walking and the other file operations of `FileUtils` besides the extension helpers.
  - Images are given as arrays, and saved files are represented by the output directory.
- Calls into the game's registries and item classes are left out: `getItem`, `getRegistryName`, `isTool`, and the registry lookups behind the tracking methods. The tracking methods take the resolved id strings instead.
- Logging is left out, with `printReport`, `printProfile`, `printCacheContents` and `toString`.
- Concurrency is not modelled. The source's maps are not synchronized, and every operation is atomic in the model.
- Floats are modelled as exact reals, and `Math.pow` is a parameter of the gamma operations. Results can differ from the float ones where a float rounding crosses an integer before truncation.
- `AdvancedTextureProcessor.HslToRgbGray`: the HSL round trip is proved for gray pixels only, not for coloured ones.
- Java's ARGB words are bit vectors, and channel values are Java ints. 64-bit overflow of the `long` durations and counters, and 32-bit overflow of `scannedRecipes.size()`, the registry size and `getMetricsCount`, are not modelled. `LootProfile.Int32Succ` models the wrap-around of the `int` loot table count only.
- `VariantRegistry.ScaleTrunc`, `VariantRegistry.ScaleCeil`, `VariantRegistry.DampedEnchantability` and `RecipeScanner.Scanner.GetVariantRecipeCount` compute on unbounded integers. Java's float-to-int casts `(int)` and `(int) Math.ceil` saturate at 2147483647, and the `(int)` cast of the `long` stream sum wraps. Neither is modelled, so durability 2000000000 scaled by 1.5 gives 3000000000 here, not 2147483647.
- The clock (`System.currentTimeMillis`) is a parameter of `StartMetric` and `Complete`.
- HashMap and HashSet iteration order is not modelled:
  - the `getAll*` results are sets;
  - `ArmorProfile.ArmorCache.GetArmorBySlot` and `RecipeScanner.Scanner.GetAllVariantRecipes` fix no order among their elements.
- Aliasing is left out. The shared static stats objects, and the live collections that the getters return and callers could mutate, are modelled as values.
- Unused parameters are dropped: the variant tier of `generateVariantRecipes` and the `itemName` argument of `trackArmor`.
- The Gson objects are maps, so the property order of the JSON written out is not modelled.
- Case mapping covers ASCII letters only.
- `java.io.File` path handling is narrowed: `getName` is the text after the last '/', and `getParent` with `getAbsolutePath` is the output directory parameter.
- `VariantGenerator.GenerateVariantsForItem` takes the already-loaded texture. It leaves out the early return for a file that does not exist, at `variant/VariantGenerator.java:126-129`.
- `VariantRegistry.ScaleStatsUsingEnderite` requires a non-zero iron durability: a zero makes the float ratio infinite or NaN, which reals cannot express.
- `EnderiteColorCache.ColorCache.GetColorInfo`, `GetBrightColor` and `GetDarkColor` state their answer only while every cached entry is the default for its key. `CacheItemColors` keeps that invariant, and the cache has no other writer.

## Findings

| source | as written | input that shows it | evidently intended | confidence | as-written member | corrected member |
|---|---|---|---|---|---|---|
| src/main/java/net/variantgenerator/mod/util/ItemUtils.java:54-70 | The space test at line 63 compares with the underscore-free length plus the number of pieces minus one. That count includes empty pieces, which add no word, so the result keeps a trailing space. | "a__b" gives "A B " and "_a" gives "A " | Words joined by single spaces: "A B" and "A" | not executed | `ItemUtils.HumanizeDoubledUnderscore` | `ItemUtils.HumanizedWordsTrimmed` |
