/**
 * OreProfile: the mining tier a block's hardness calls for, the ore statistics
 * built from it, and the ore table seeded with enderite ore and filled by tracking.
 */
module OreProfile {

  /** The rank of a tier name in the order wood < iron < netherite < enderite; other names rank 0. */
  function TierRank(tier: string): nat
  {
    if tier == "enderite" then 3
    else if tier == "netherite" then 2
    else if tier == "iron" then 1
    else 0
  }

  /**
   * `getRequiredToolForHardness`: "enderite" from 50 up, "netherite" from 20, "iron"
   * from 5, and "wood" below 5.
   */
  function GetRequiredToolForHardness(hardness: real): (r: string)
    ensures r == "enderite" <==> hardness >= 50.0
    ensures r == "netherite" <==> 20.0 <= hardness < 50.0
    ensures r == "iron" <==> 5.0 <= hardness < 20.0
    ensures r == "wood" <==> hardness < 5.0
  {
    if hardness >= 50.0 then "enderite"
    else if hardness >= 20.0 then "netherite"
    else if hardness >= 5.0 then "iron"
    else "wood"
  }

  /** A harder block never calls for a lower tier. */
  lemma RequiredTierMonotone(h1: real, h2: real)
    requires h1 <= h2
    ensures TierRank(GetRequiredToolForHardness(h1)) <= TierRank(GetRequiredToolForHardness(h2))
  {
  }

  /** The pickaxe of a tier; the wood tier's is the "wooden" pickaxe. */
  function PickaxeOf(tier: string): (r: string)
    ensures |r| >= 8 && r[|r| - 8..] == "_pickaxe"
  {
    (if tier == "wood" then "wooden" else tier) + "_pickaxe"
  }

  /** The pickaxe of each tier, spelled out. */
  lemma PickaxeNames()
    ensures PickaxeOf("enderite") == "enderite_pickaxe" && PickaxeOf("netherite") == "netherite_pickaxe"
    ensures PickaxeOf("iron") == "iron_pickaxe" && PickaxeOf("wood") == "wooden_pickaxe"
  {
    assert "enderite" + "_pickaxe" == "enderite_pickaxe";
    assert "netherite" + "_pickaxe" == "netherite_pickaxe";
    assert "iron" + "_pickaxe" == "iron_pickaxe";
    assert "wooden" + "_pickaxe" == "wooden_pickaxe";
  }

  /** `OreStats.determineRequiredTool`: the same thresholds, naming the pickaxe of the tier. */
  function DetermineRequiredTool(hardness: real): (r: string)
    ensures r == PickaxeOf(GetRequiredToolForHardness(hardness))
    ensures r in {"enderite_pickaxe", "netherite_pickaxe", "iron_pickaxe", "wooden_pickaxe"}
  {
    PickaxeNames();
    if hardness >= 50.0 then "enderite_pickaxe"
    else if hardness >= 20.0 then "netherite_pickaxe"
    else if hardness >= 5.0 then "iron_pickaxe"
    else "wooden_pickaxe"
  }

  /** Ore block statistics. */
  datatype OreStats = OreStats(blockName: string, hardness: real, blastResistance: real, miningSpeed: real,
                               requiredTool: string)

  /** `new OreStats(name, hardness, resistance)`: mining speed 1 and the tool the hardness calls for. */
  function NewOreStats(blockName: string, hardness: real, blastResistance: real): (s: OreStats)
    ensures s.blockName == blockName && s.hardness == hardness && s.blastResistance == blastResistance
    ensures s.miningSpeed == 1.0
    ensures s.requiredTool == PickaxeOf(GetRequiredToolForHardness(hardness))
  {
    OreStats(blockName, hardness, blastResistance, 1.0, DetermineRequiredTool(hardness))
  }

  const EnderiteOre := NewOreStats("enderite_ore", 50.0, 1200.0)

  /** `ORE_CACHE.getOrDefault(name, ENDERITE_ORE)` over a given table. */
  function OreLookup(ores: map<string, OreStats>, oreName: string): (r: OreStats)
    ensures oreName in ores ==> r == ores[oreName]
    ensures oreName !in ores ==> r == EnderiteOre
  {
    if oreName in ores then ores[oreName] else EnderiteOre
  }

  /** A table holding only the enderite ore answers every lookup with it. */
  lemma SeededTableAnswersEnderite(oreName: string)
    ensures OreLookup(map["enderite_ore" := EnderiteOre], oreName) == EnderiteOre
    ensures EnderiteOre.requiredTool == "enderite_pickaxe" && EnderiteOre.hardness == 50.0
  {
  }

  /** The ore table. The constructor is the static initializer. */
  class OreCache {
    var ores: map<string, OreStats>

    /** Seeded with enderite ore only, which needs the enderite pickaxe. */
    constructor ()
      ensures ores == map["enderite_ore" := EnderiteOre]
      ensures GetOreStats("enderite_ore").requiredTool == "enderite_pickaxe"
      ensures forall oreName :: GetOreStats(oreName) == EnderiteOre
    {
      ores := map["enderite_ore" := EnderiteOre];
    }

    /** `trackOre`, given the block's path: fresh statistics under that path, replacing any entry there. */
    method TrackOre(blockPath: string, hardness: real, blastResistance: real)
      modifies this
      ensures ores == old(ores)[blockPath := NewOreStats(blockPath, hardness, blastResistance)]
      ensures GetOreStats(blockPath).requiredTool == PickaxeOf(GetRequiredToolForHardness(hardness))
      ensures forall oreName :: oreName != blockPath ==> GetOreStats(oreName) == old(GetOreStats(oreName))
    {
      ores := ores[blockPath := NewOreStats(blockPath, hardness, blastResistance)];
    }

    /** `getOreStats`: the tracked entry, or the enderite ore. */
    function GetOreStats(oreName: string): (r: OreStats)
      reads this
      ensures r in ores.Values || r == EnderiteOre
    {
      OreLookup(ores, oreName)
    }

    /** `getAllOres`: the tracked statistics. */
    function GetAllOres(): (r: set<OreStats>)
      reads this
      ensures forall s :: s in r <==> exists oreName :: oreName in ores && ores[oreName] == s
    {
      ores.Values
    }

    /** `clearProfile`: empties the table, after which every lookup gives the enderite ore. */
    method ClearProfile()
      modifies this
      ensures ores == map[]
      ensures forall oreName :: GetOreStats(oreName) == EnderiteOre
    {
      ores := map[];
    }
  }
}
