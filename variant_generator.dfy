/**
 * VariantGenerator: the reference palettes of the tiers, the mod id and item name
 * taken from a texture path, the output file name of a variant, and the recolour-
 * and-register step run for the netherite and then the enderite tier of an item.
 */
module VariantGenerator {
  import opened Images
  import opened JavaStrings
  import opened Wrappers
  import opened TextureColorizer
  import opened VariantRegistry
  import opened EnderiteColorCache
  import opened VariantGeneratorConfig
  import opened FileUtils
  import ItemUtils

  /**
   * `getReferenceColorForTier`: a fixed analysis per tier. Every one claims brightest 255,
   * darkest 0 and brightness range 0..255, and both its colours are opaque and in range.
   */
  function GetReferenceColorForTier(tier: Tier): (r: GrayscaleAnalysis)
    ensures r.brightest == 255 && r.darkest == 0 && r.maxBrightness == 255 && r.minBrightness == 0
    ensures r.brightestPixel.InRange() && r.darkestPixel.InRange()
    ensures r.brightestPixel.a == 255 && r.darkestPixel.a == 255
  {
    match tier
    case Netherite => GrayscaleAnalysis(255, 0, Pixel(100, 100, 120, 255), Pixel(40, 40, 50, 255), 255, 0)
    case Enderite => GrayscaleAnalysis(255, 0, Pixel(29, 94, 83, 255), Pixel(4, 14, 12, 255), 255, 0)
    case Iron => GrayscaleAnalysis(255, 0, Pixel(255, 255, 255, 255), Pixel(53, 53, 53, 255), 255, 0)
  }

  /**
   * The three colour tables agree: for every tier, the reference palette, the configured
   * tier colours and the colour cache's defaults name the same bright and dark colours.
   */
  lemma ColorTablesAgree(tier: Tier)
    ensures GetReferenceColorForTier(tier).brightestPixel == GetColorForTier(tier.DisplayName()).brightColor
    ensures GetReferenceColorForTier(tier).darkestPixel == GetColorForTier(tier.DisplayName()).darkColor
    ensures GetReferenceColorForTier(tier).brightestPixel == DefaultColorInfo(tier.DisplayName()).brightColor
    ensures GetReferenceColorForTier(tier).darkestPixel == DefaultColorInfo(tier.DisplayName()).darkColor
  {
    assert Lower("Iron") == "iron";
    assert Lower("Netherite") == "netherite";
    assert Lower("Enderite") == "enderite";
  }

  /** The two path separators of `split("[/\\\\]")`. */
  const PathSeparators: set<char> := {'/', '\\'}

  /** `extractModId`: the second piece of the path split at '/' and '\', or "unknown" when there is none. */
  function ExtractModId(filePath: string): (r: string)
    ensures NoSeparator(filePath, PathSeparators) ==> r == "unknown"
    ensures r != "unknown" ==> NoSeparator(r, PathSeparators)
  {
    var parts := JavaSplit(filePath, PathSeparators);
    SegmentsHaveNoSeparator(filePath, PathSeparators);
    if |parts| >= 2 then parts[1] else "unknown"
  }

  /** For `root/mod/rest` with a non-empty mod directory the mod id is that directory's name. */
  lemma ExtractModIdOfAssetPath(root: string, s1: char, modId: string, s2: char, rest: string)
    requires NoSeparator(root, PathSeparators) && NoSeparator(modId, PathSeparators) && modId != []
    requires s1 in PathSeparators && s2 in PathSeparators
    ensures ExtractModId(root + [s1] + modId + [s2] + rest) == modId
  {
    var path := root + [s1] + modId + [s2] + rest;
    assert path == root + [s1] + (modId + [s2] + rest);
    SegmentsAtSeparator(root, s1, modId + [s2] + rest, PathSeparators);
    SegmentsAtSeparator(modId, s2, rest, PathSeparators);
    var segs := Segments(path, PathSeparators);
    assert segs[1] == modId;
    assert path[|root|] == s1;
    JavaSplitLength(path, PathSeparators, 1);
  }

  /**
   * `extractItemName`: the file name up to its last '.'; a name without '.' makes
   * `substring(0, -1)` throw.
   */
  function ExtractItemName(filePath: string): (r: Result<string>)
    ensures r.Err? <==> '.' !in FileName(filePath)
    ensures r.Err? ==> r.error == IndexOutOfBounds
    ensures r.Ok? ==> var name := FileName(filePath);
              |r.value| < |name| && name == r.value + "." + name[|r.value| + 1..]
              && '.' !in name[|r.value| + 1..] && '/' !in r.value
  {
    var name := FileName(filePath);
    var dot := LastIndexOf(name, '.');
    if dot < 0 then Err(IndexOutOfBounds) else Ok(name[..dot])
  }

  /** A texture path `dir/base.ext` names the item `base`. */
  lemma ExtractItemNameOfTexture(dir: string, base: string, ext: string)
    requires '/' !in base && '/' !in ext && '.' !in ext
    ensures ExtractItemName(dir + "/" + base + "." + ext) == Ok(base)
  {
    var path := dir + "/" + base + "." + ext;
    assert path == dir + "/" + (base + "." + ext);
    FileNameOfPath(dir, base + "." + ext);
    var name := FileName(path);
    assert name == base + ['.'] + ext;
    LastIndexOfBefore(base, '.', ext);
    assert name[..|base|] == base;
  }

  /** The output file name: every "iron" of the source file name replaced by the tier's lowercase display name. */
  function OutputName(sourceName: string, tier: Tier): (r: string)
    ensures tier == Iron ==> r == sourceName
    ensures |r| >= |sourceName|
  {
    assert Lower("Iron") == "iron";
    ItemUtils.ToVariantName(sourceName, tier.DisplayName())
  }

  /** A name without "iron" is kept; a leading "iron" becomes the tier's name, as in iron_sword.png -> enderite_sword.png. */
  lemma OutputNameRewrites(rest: string, tier: Tier)
    requires !Contains(rest, "iron")
    ensures OutputName(rest, tier) == rest
    ensures OutputName("iron" + rest, tier) == Lower(tier.DisplayName()) + rest
    ensures Lower(tier.DisplayName()) == (match tier case Iron => "iron" case Netherite => "netherite" case Enderite => "enderite")
  {
    ItemUtils.ToVariantNameRewrites(rest, tier.DisplayName());
    assert Lower("Iron") == "iron";
    assert Lower("Netherite") == "netherite";
    assert Lower("Enderite") == "enderite";
  }

  /** The config registered for one variant: fresh statistics and the saved texture's location. */
  function VariantFor(modId: string, itemName: string, tier: Tier, outputDir: string, sourceName: string): (c: VariantConfig)
    ensures KeyOf(c) == Key(modId, itemName, tier)
    ensures c.textureLocation == Some(outputDir + "/" + OutputName(sourceName, tier))
  {
    NewVariantConfig(modId, itemName, tier).(textureLocation := Some(outputDir + "/" + OutputName(sourceName, tier)))
  }

  /**
   * `generateVariantTexture`: recolours the source between the tier's reference colours
   * and registers the variant, whose texture lies under the output file name in
   * `outputDir` (the absolute form of the source's directory).
   */
  method GenerateVariantTexture(registry: Registry, modId: string, itemName: string, source: array2<Word>,
                                tier: Tier, sourceName: string, outputDir: string)
    returns (recolored: array2<Word>)
    requires registry.Valid()
    modifies registry
    ensures fresh(recolored) && recolored.Length0 == source.Length0 && recolored.Length1 == source.Length1
    ensures forall y, x :: Inside(recolored, y, x) ==>
              recolored[y, x] == RecolorWord(source[y, x], GetReferenceColorForTier(tier).brightestPixel,
                                             GetReferenceColorForTier(tier).darkestPixel)
    ensures forall y, x :: Inside(recolored, y, x) ==> At(recolored, y, x).a == At(source, y, x).a
    ensures registry.Valid()
    ensures var c := VariantFor(modId, itemName, tier, outputDir, sourceName);
            && registry.registered == old(registry.registered)[KeyOf(c) := c]
            && registry.byMod == old(registry.byMod)[modId := old(registry.GetVariantsForMod(modId)) + [c]]
            && registry.byTier == old(registry.byTier)[tier.Name() := old(registry.GetVariantsForTier(tier)) + [c]]
  {
    var palette := GetReferenceColorForTier(tier);
    recolored := RecolorImage(source, palette.brightestPixel, palette.darkestPixel);
    registry.RegisterVariant(VariantFor(modId, itemName, tier, outputDir, sourceName));
  }

  /** The netherite variant of an item, then its enderite variant. */
  method GenerateBothTiers(registry: Registry, modId: string, itemName: string, ironTexture: array2<Word>,
                           sourceName: string, outputDir: string)
    returns (netherite: array2<Word>, enderite: array2<Word>)
    requires registry.Valid()
    modifies registry
    ensures registry.Valid()
    ensures var nc := VariantFor(modId, itemName, Netherite, outputDir, sourceName);
            var ec := VariantFor(modId, itemName, Enderite, outputDir, sourceName);
            && registry.GetVariantsForMod(modId) == old(registry.GetVariantsForMod(modId)) + [nc, ec]
            && registry.GetVariantsForTier(Netherite) == old(registry.GetVariantsForTier(Netherite)) + [nc]
            && registry.GetVariantsForTier(Enderite) == old(registry.GetVariantsForTier(Enderite)) + [ec]
            && registry.registered == old(registry.registered)[KeyOf(nc) := nc][KeyOf(ec) := ec]
  {
    ghost var nc := VariantFor(modId, itemName, Netherite, outputDir, sourceName);
    ghost var ec := VariantFor(modId, itemName, Enderite, outputDir, sourceName);
    ghost var modList := registry.GetVariantsForMod(modId);
    ghost var enderiteList := registry.GetVariantsForTier(Enderite);
    TiersOrdered(Netherite, Enderite);
    netherite := GenerateVariantTexture(registry, modId, itemName, ironTexture, Netherite, sourceName, outputDir);
    assert registry.GetVariantsForMod(modId) == modList + [nc];
    assert registry.GetVariantsForTier(Enderite) == enderiteList;
    enderite := GenerateVariantTexture(registry, modId, itemName, ironTexture, Enderite, sourceName, outputDir);
    assert registry.GetVariantsForMod(modId) == modList + [nc] + [ec];
  }

  /**
   * `generateVariantsForItem`, on an already loaded texture: the netherite variant is
   * produced and registered, then the enderite one. A path whose file name has no '.'
   * fails before anything is written or registered.
   */
  method GenerateVariantsForItem(registry: Registry, itemPath: string, ironTexture: array2<Word>, outputDir: string)
    returns (r: Result<(array2<Word>, array2<Word>)>)
    requires registry.Valid()
    modifies registry
    ensures registry.Valid()
    ensures ExtractItemName(itemPath).Err? ==>
              r == Err(IndexOutOfBounds) && registry.registered == old(registry.registered)
              && registry.byMod == old(registry.byMod) && registry.byTier == old(registry.byTier)
    ensures ExtractItemName(itemPath).Ok? ==>
              var modId, itemName := ExtractModId(itemPath), ExtractItemName(itemPath).value;
              var netherite := VariantFor(modId, itemName, Netherite, outputDir, FileName(itemPath));
              var enderite := VariantFor(modId, itemName, Enderite, outputDir, FileName(itemPath));
              && r.Ok?
              && registry.GetVariantsForMod(modId) == old(registry.GetVariantsForMod(modId)) + [netherite, enderite]
              && registry.GetVariantsForTier(Netherite) == old(registry.GetVariantsForTier(Netherite)) + [netherite]
              && registry.GetVariantsForTier(Enderite) == old(registry.GetVariantsForTier(Enderite)) + [enderite]
              && registry.registered == old(registry.registered)[KeyOf(netherite) := netherite][KeyOf(enderite) := enderite]
  {
    var modId := ExtractModId(itemPath);
    var itemName := ExtractItemName(itemPath);
    if itemName.Err? {
      return Err(itemName.error);
    }
    var netherite, enderite := GenerateBothTiers(registry, modId, itemName.value, ironTexture, FileName(itemPath), outputDir);
    r := Ok((netherite, enderite));
  }
}
