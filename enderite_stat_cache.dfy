/**
 * EnderiteStatCache: the tool and armour material tables, seeded with the enderite,
 * netherite and iron materials and looked up by lowercased name.
 */
module EnderiteStatCache {
  import opened JavaStrings
  import opened Wrappers

  /** Tool material statistics (never mutated once built). */
  datatype ToolStats = ToolStats(name: string, durability: int, miningSpeed: real, attackDamage: real, enchantability: int)

  const EnderiteToolStats := ToolStats("enderite", 4096, 15.0, 2.0, 17)
  const NetheriteToolStats := ToolStats("netherite", 2031, 12.0, 4.0, 15)
  const IronToolStats := ToolStats("iron", 250, 6.0, 6.0, 14)

  /** Armour material statistics; the protection table is filled in place, slot by slot. */
  class ArmorStats {
    var name: string
    var durability: int
    var protectionValues: map<string, int>
    var enchantability: int
    var toughness: real
    var knockbackResistance: real

    /** A material with an empty protection table. */
    constructor (name: string, durability: int, enchantability: int, toughness: real, knockbackResistance: real)
      ensures this.name == name && this.durability == durability && protectionValues == map[]
      ensures this.enchantability == enchantability && this.toughness == toughness
      ensures this.knockbackResistance == knockbackResistance
    {
      this.name := name;
      this.durability := durability;
      this.protectionValues := map[];
      this.enchantability := enchantability;
      this.toughness := toughness;
      this.knockbackResistance := knockbackResistance;
    }

    /** `setProtection(type, value)`: writes one slot of the table; no other slot or field changes. */
    method SetProtection(slot: string, value: int)
      modifies this
      ensures protectionValues == old(protectionValues)[slot := value]
      ensures forall other :: other in old(protectionValues) && other != slot ==>
                other in protectionValues && protectionValues[other] == old(protectionValues)[other]
      ensures name == old(name) && durability == old(durability) && enchantability == old(enchantability)
      ensures toughness == old(toughness) && knockbackResistance == old(knockbackResistance)
    {
      protectionValues := protectionValues[slot := value];
    }
  }

  /** `TOOL_CACHE.getOrDefault(material.toLowerCase(), IRON_TOOL_STATS)` over a given table. */
  function ToolLookup(tools: map<string, ToolStats>, material: string): (r: ToolStats)
    ensures Lower(material) in tools ==> r == tools[Lower(material)]
    ensures Lower(material) !in tools ==> r == IronToolStats
    ensures r in tools.Values || r == IronToolStats
  {
    var key := Lower(material);
    if key in tools then tools[key] else IronToolStats
  }

  /** A lookup only ever sees keys without capitals: an entry stored under a capitalised name changes no lookup. */
  lemma ToolLookupIgnoresCapitalised(tools: map<string, ToolStats>, name: string, stats: ToolStats, material: string)
    requires exists i :: 0 <= i < |name| && 'A' <= name[i] <= 'Z'
    ensures ToolLookup(tools[name := stats], material) == ToolLookup(tools, material)
  {
    assert Lower(material) != name;
  }

  /** The two static tables. The constructor is the static initializer. */
  class StatCache {
    var tools: map<string, ToolStats>
    var armor: map<string, ArmorStats>

    /** The seeded tables: three tool materials and three armour materials with their four protections. */
    constructor ()
      ensures tools == map["enderite" := EnderiteToolStats, "netherite" := NetheriteToolStats, "iron" := IronToolStats]
      ensures armor.Keys == {"enderite", "netherite", "iron"}
      ensures armor["enderite"].name == "enderite" && armor["enderite"].durability == 592
      ensures armor["enderite"].enchantability == 17 && armor["enderite"].toughness == 4.0
      ensures armor["enderite"].knockbackResistance == 0.1
      ensures armor["enderite"].protectionValues == map["helmet" := 4, "chestplate" := 9, "leggings" := 7, "boots" := 4]
      ensures armor["netherite"].name == "netherite" && armor["netherite"].durability == 592
      ensures armor["netherite"].enchantability == 15 && armor["netherite"].toughness == 3.0
      ensures armor["netherite"].knockbackResistance == 0.1
      ensures armor["netherite"].protectionValues == map["helmet" := 3, "chestplate" := 8, "leggings" := 6, "boots" := 3]
      ensures armor["iron"].name == "iron" && armor["iron"].durability == 240
      ensures armor["iron"].enchantability == 9 && armor["iron"].toughness == 0.0
      ensures armor["iron"].knockbackResistance == 0.0
      ensures armor["iron"].protectionValues == map["helmet" := 2, "chestplate" := 6, "leggings" := 5, "boots" := 2]
    {
      tools := map["enderite" := EnderiteToolStats, "netherite" := NetheriteToolStats, "iron" := IronToolStats];
      var enderiteArmor := new ArmorStats("enderite", 592, 17, 4.0, 0.1);
      enderiteArmor.SetProtection("helmet", 4);
      enderiteArmor.SetProtection("chestplate", 9);
      enderiteArmor.SetProtection("leggings", 7);
      enderiteArmor.SetProtection("boots", 4);
      var netheriteArmor := new ArmorStats("netherite", 592, 15, 3.0, 0.1);
      netheriteArmor.SetProtection("helmet", 3);
      netheriteArmor.SetProtection("chestplate", 8);
      netheriteArmor.SetProtection("leggings", 6);
      netheriteArmor.SetProtection("boots", 3);
      var ironArmor := new ArmorStats("iron", 240, 9, 0.0, 0.0);
      ironArmor.SetProtection("helmet", 2);
      ironArmor.SetProtection("chestplate", 6);
      ironArmor.SetProtection("leggings", 5);
      ironArmor.SetProtection("boots", 2);
      armor := map["enderite" := enderiteArmor, "netherite" := netheriteArmor, "iron" := ironArmor];
    }

    /** `cacheToolMaterial`: stores under the name exactly as given, replacing any earlier entry. */
    method CacheToolMaterial(name: string, durability: int, miningSpeed: real, attackDamage: real, enchantability: int)
      modifies this
      ensures tools == old(tools)[name := ToolStats(name, durability, miningSpeed, attackDamage, enchantability)]
      ensures armor == old(armor)
      ensures (exists i :: 0 <= i < |name| && 'A' <= name[i] <= 'Z') ==>
                forall material :: GetToolStats(material) == old(GetToolStats(material))
    {
      tools := tools[name := ToolStats(name, durability, miningSpeed, attackDamage, enchantability)];
      if exists i :: 0 <= i < |name| && 'A' <= name[i] <= 'Z' {
        forall material
          ensures GetToolStats(material) == old(GetToolStats(material))
        {
          ToolLookupIgnoresCapitalised(old(tools), name, ToolStats(name, durability, miningSpeed, attackDamage, enchantability), material);
        }
      }
    }

    /** `cacheArmorMaterial`: a fresh material with an empty protection table, stored under the name as given. */
    method CacheArmorMaterial(name: string, durability: int, enchantability: int, toughness: real, knockbackResistance: real)
      modifies this
      ensures tools == old(tools)
      ensures name in armor && fresh(armor[name])
      ensures armor == old(armor)[name := armor[name]]
      ensures armor[name].name == name && armor[name].durability == durability
      ensures armor[name].enchantability == enchantability && armor[name].toughness == toughness
      ensures armor[name].knockbackResistance == knockbackResistance && armor[name].protectionValues == map[]
    {
      var stats := new ArmorStats(name, durability, enchantability, toughness, knockbackResistance);
      armor := armor[name := stats];
    }

    /** `getToolStats(material)`: the entry under the lowercased name, or the iron stats; never null. */
    function GetToolStats(material: string): (r: ToolStats)
      reads this
      ensures Lower(material) in tools ==> r == tools[Lower(material)]
      ensures r in tools.Values || r == IronToolStats
    {
      ToolLookup(tools, material)
    }

    /** `getArmorStats(material)`: the entry under the lowercased name, else the "iron" entry, else null. */
    function GetArmorStats(material: string): (r: Option<ArmorStats>)
      reads this
      ensures r.None? <==> Lower(material) !in armor && "iron" !in armor
      ensures Lower(material) in armor ==> r == Some(armor[Lower(material)])
      ensures Lower(material) !in armor && "iron" in armor ==> r == Some(armor["iron"])
    {
      var key := Lower(material);
      if key in armor then Some(armor[key])
      else if "iron" in armor then Some(armor["iron"])
      else None
    }

    /** `getAllToolStats`: the cached tool materials. */
    function GetAllToolStats(): (r: set<ToolStats>)
      reads this
      ensures forall s :: s in r <==> exists name :: name in tools && tools[name] == s
    {
      tools.Values
    }

    /** `getAllArmorStats`: the cached armour materials. */
    function GetAllArmorStats(): (r: set<ArmorStats>)
      reads this
      ensures forall s :: s in r ==> exists name :: name in armor && armor[name] == s
      ensures forall name :: name in armor ==> armor[name] in r
    {
      armor.Values
    }

    /** `clearCache`: empties both tables. */
    method ClearCache()
      modifies this
      ensures tools == map[] && armor == map[]
      ensures forall material :: GetToolStats(material) == IronToolStats
      ensures forall material :: GetArmorStats(material).None?
    {
      tools := map[];
      armor := map[];
    }
  }

  /** Freshly seeded, the tool durabilities are 4096, 2031 and 250, whatever the case of the name asked for. */
  lemma SeededToolDurabilities(tools: map<string, ToolStats>)
    requires tools == map["enderite" := EnderiteToolStats, "netherite" := NetheriteToolStats, "iron" := IronToolStats]
    ensures ToolLookup(tools, "enderite").durability == 4096 && ToolLookup(tools, "ENDERITE").durability == 4096
    ensures ToolLookup(tools, "netherite").durability == 2031
    ensures ToolLookup(tools, "iron").durability == 250
  {
    assert Lower("enderite") == "enderite";
    assert Lower("ENDERITE") == "enderite";
    assert Lower("netherite") == "netherite";
    assert Lower("iron") == "iron";
  }
}
