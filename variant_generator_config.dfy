/**
 * VariantGeneratorConfig: the mod's configuration records with their defaults,
 * the tier colour table, and the validation of the scaling and texture settings.
 */
module VariantGeneratorConfig {
  import opened JavaStrings
  import opened Wrappers
  import opened TextureColorizer

  /** `TierColors`. */
  datatype TierColors = TierColors(tierName: string, brightColor: Pixel, darkColor: Pixel)

  const IronColors := TierColors("Iron", Pixel(255, 255, 255, 255), Pixel(53, 53, 53, 255))
  const NetheriteColors := TierColors("Netherite", Pixel(100, 100, 120, 255), Pixel(40, 40, 50, 255))
  const EnderiteColors := TierColors("Enderite", Pixel(29, 94, 83, 255), Pixel(4, 14, 12, 255))

  /** `getColorForTier`: the switch on the lowercased name, iron for anything else. */
  function GetColorForTier(tierName: string): (c: TierColors)
    ensures c == IronColors || c == NetheriteColors || c == EnderiteColors
    ensures c == NetheriteColors <==> Lower(tierName) == "netherite"
    ensures c == EnderiteColors <==> Lower(tierName) == "enderite"
  {
    match Lower(tierName)
    case "iron" => IronColors
    case "netherite" => NetheriteColors
    case "enderite" => EnderiteColors
    case _ => IronColors
  }

  /** The lookup does not depend on the case of the name, and each table entry is found by its own name. */
  lemma GetColorForTierIgnoresCase(tierName: string)
    ensures GetColorForTier(tierName) == GetColorForTier(Lower(tierName))
    ensures GetColorForTier(IronColors.tierName) == IronColors
    ensures GetColorForTier(NetheriteColors.tierName) == NetheriteColors
    ensures GetColorForTier(EnderiteColors.tierName) == EnderiteColors
  {
    LowerNoCapitals(Lower(tierName));
    assert Lower("Iron") == "iron";
    assert Lower("Netherite") == "netherite";
    assert Lower("Enderite") == "enderite";
  }

  /** `StatScaling`, with its field defaults. */
  datatype StatScaling = StatScaling(
    netheriteMultiplier: real, enderiteMultiplier: real, minDurabilityIncrease: real,
    enableArmorToughness: bool, enableKnockbackResistance: bool)

  const DefaultStatScaling := StatScaling(1.25, 1.5, 0.1, true, false)

  /** `TextureConfig`, with its field defaults. */
  datatype TextureConfig = TextureConfig(
    textureSize: int, generateMipmaps: bool, outputFormat: string,
    referenceTextureIron: string, referenceTextureNetherite: string, referenceTextureEnderite: string)

  const DefaultTextureConfig := TextureConfig(16, true, "PNG", "textures/items/iron_ingot",
                                              "textures/items/netherite_ingot", "textures/items/enderite_ingot")

  /** `RecipeConfig`, with its field defaults. */
  datatype RecipeConfig = RecipeConfig(
    generateSmithingRecipes: bool, generateCraftingRecipes: bool, smithingTemplateId: string,
    requireTemplateForUpgrades: bool)

  const DefaultRecipeConfig := RecipeConfig(true, true, "variantgenerator:variant_upgrade_smithing_template", true)

  /** `ScanningConfig`, with its field defaults. */
  datatype ScanningConfig = ScanningConfig(
    enableMissingTextureGeneration: bool, scanPatterns: seq<string>, excludedMods: seq<string>,
    scanSubdirectories: bool)

  const DefaultScanningConfig := ScanningConfig(true, ["iron_", "iron"], ["minecraft", "variantgenerator"], true)

  /** The whole configuration. */
  datatype Config = Config(
    statScaling: StatScaling, textureConfig: TextureConfig, recipeConfig: RecipeConfig,
    scanningConfig: ScanningConfig)

  const DefaultConfig := Config(DefaultStatScaling, DefaultTextureConfig, DefaultRecipeConfig, DefaultScanningConfig)

  const NetheriteMessage := "Netherite multiplier must be >= 1.0"
  const EnderiteMessage := "Enderite multiplier must be >= Netherite multiplier"
  const TextureSizeMessage := "Texture size must be positive"

  /**
   * `validate`: true, or the IllegalArgumentException of the first failing check,
   * taken in the order netherite multiplier, enderite multiplier, texture size.
   */
  function Validate(c: Config): (r: Result<bool>)
    ensures r.Ok? <==> 1.0 <= c.statScaling.netheriteMultiplier <= c.statScaling.enderiteMultiplier
                       && c.textureConfig.textureSize > 0
    ensures r.Ok? ==> r.value
    ensures c.statScaling.netheriteMultiplier < 1.0 ==> r == Err(IllegalArgument(NetheriteMessage))
    ensures 1.0 <= c.statScaling.netheriteMultiplier && c.statScaling.enderiteMultiplier < c.statScaling.netheriteMultiplier ==>
              r == Err(IllegalArgument(EnderiteMessage))
    ensures 1.0 <= c.statScaling.netheriteMultiplier <= c.statScaling.enderiteMultiplier && c.textureConfig.textureSize <= 0 ==>
              r == Err(IllegalArgument(TextureSizeMessage))
  {
    if c.statScaling.netheriteMultiplier < 1.0 then Err(IllegalArgument(NetheriteMessage))
    else if c.statScaling.enderiteMultiplier < c.statScaling.netheriteMultiplier then Err(IllegalArgument(EnderiteMessage))
    else if c.textureConfig.textureSize <= 0 then Err(IllegalArgument(TextureSizeMessage))
    else Ok(true)
  }

  /** The default configuration validates, and any valid one orders its multipliers as 1 <= netherite <= enderite. */
  lemma DefaultConfigValidates(c: Config)
    ensures Validate(DefaultConfig) == Ok(true)
    ensures Validate(c).Ok? ==> 1.0 <= c.statScaling.netheriteMultiplier <= c.statScaling.enderiteMultiplier
  {
  }
}
