/**
 * VariantRegistry: the tier enum, the item statistics record and its two scaling
 * rules, and the registry of generated variants, keyed "mod:item:TIER" and
 * indexed by mod and by tier.
 */
module VariantRegistry {
  import opened JavaNumbers
  import opened JavaStrings
  import opened Wrappers
  import opened EnderiteStatCache
  import opened ListMaps

  /** `ItemVariantTier`: a multiplier and a display name per tier. */
  datatype Tier = Iron | Netherite | Enderite
  {
    function Multiplier(): (m: real)
      ensures 1.0 <= m <= 1.5
    {
      match this
      case Iron => 1.0
      case Netherite => 1.25
      case Enderite => 1.5
    }

    function DisplayName(): string
    {
      match this
      case Iron => "Iron"
      case Netherite => "Netherite"
      case Enderite => "Enderite"
    }

    /** The enum constant's `name()`. */
    function Name(): (r: string)
      ensures ':' !in r
    {
      match this
      case Iron => "IRON"
      case Netherite => "NETHERITE"
      case Enderite => "ENDERITE"
    }
  }

  /** The multipliers grow with the tier, and distinct tiers have distinct names. */
  lemma TiersOrdered(t1: Tier, t2: Tier)
    ensures Iron.Multiplier() < Netherite.Multiplier() < Enderite.Multiplier()
    ensures t1.Name() == t2.Name() ==> t1 == t2
  {
  }

  /**
   * `ItemStats`: a record of plain fields. It is modelled as a value, so `copy()`
   * is the value itself and the scaling functions can never alter their input.
   */
  datatype ItemStats = ItemStats(
    miningSpeed: real, attackDamage: real, attackSpeed: real, durability: int,
    armor: int, toughness: real, knockbackResistance: real, enchantability: int)

  /** A fresh `ItemStats`: everything 0 except the attack speed, -2.4. */
  const DefaultItemStats := ItemStats(0.0, 0.0, -2.4, 0, 0, 0.0, 0.0, 0)

  /** No field of `r` is below the same field of `s`. */
  predicate NoFieldDecreases(s: ItemStats, r: ItemStats)
  {
    r.miningSpeed >= s.miningSpeed && r.attackDamage >= s.attackDamage && r.attackSpeed >= s.attackSpeed
    && r.durability >= s.durability && r.armor >= s.armor && r.toughness >= s.toughness
    && r.knockbackResistance >= s.knockbackResistance && r.enchantability >= s.enchantability
  }

  /** Every field of `s` that is zero or negative is carried over to `r` untouched. */
  predicate NonPositiveKept(s: ItemStats, r: ItemStats)
  {
    (s.miningSpeed <= 0.0 ==> r.miningSpeed == s.miningSpeed)
    && (s.attackDamage <= 0.0 ==> r.attackDamage == s.attackDamage)
    && (s.durability <= 0 ==> r.durability == s.durability)
    && (s.armor <= 0 ==> r.armor == s.armor)
    && (s.toughness <= 0.0 ==> r.toughness == s.toughness)
    && (s.enchantability <= 0 ==> r.enchantability == s.enchantability)
  }

  /** A positive value scaled by a factor of at least 1 is not smaller. */
  lemma ScaleGrows(x: real, m: real)
    requires x > 0.0
    ensures m >= 1.0 ==> x * m >= x
  {
    if m >= 1.0 {
      MulMonotone(1.0, m, x);
    }
  }

  /** A real field scaled by `m` when strictly positive; a factor of at least 1 does not lower it. */
  function ScaleReal(x: real, m: real): (r: real)
    ensures x <= 0.0 ==> r == x
    ensures m >= 1.0 ==> r >= x
  {
    if x > 0.0 then ScaleGrows(x, m); x * m else x
  }

  /** A durability scaled by `m` and truncated when strictly positive. */
  function ScaleTrunc(n: int, m: real): (r: int)
    ensures n <= 0 ==> r == n
    ensures m >= 1.0 ==> r >= n
  {
    if n > 0 then ScaledIntGrows(n, m); Trunc(n as real * m) else n
  }

  /** An armour value scaled by `m` and rounded up when strictly positive. */
  function ScaleCeil(n: int, m: real): (r: int)
    ensures n <= 0 ==> r == n
    ensures m >= 1.0 ==> r >= n
  {
    if n > 0 then ScaledIntGrows(n, m); Ceil(n as real * m) else n
  }

  /** A positive integer scaled by a factor of at least 1, then truncated or rounded up, is not smaller. */
  lemma ScaledIntGrows(n: int, m: real)
    requires n > 0
    ensures m >= 1.0 ==> Trunc(n as real * m) >= n && Ceil(n as real * m) >= n
  {
    if m >= 1.0 {
      ScaleGrows(n as real, m);
      TruncMonotone(n as real, n as real * m);
      TruncOfInt(n);
      CeilMonotone(n as real, n as real * m);
      CeilOfInt(n);
    }
  }

  /**
   * The five scaled fields, shared by both scaling routes: mining speed, attack
   * damage and toughness are multiplied, durability is truncated and armour
   * rounded up, each only when strictly positive.
   */
  function ScaleFields(s: ItemStats, m: real): (r: ItemStats)
    ensures r.attackSpeed == s.attackSpeed && r.knockbackResistance == s.knockbackResistance
    ensures r.enchantability == s.enchantability
    ensures NonPositiveKept(s, r)
    ensures m >= 1.0 ==> NoFieldDecreases(s, r)
  {
    s.(miningSpeed := ScaleReal(s.miningSpeed, m),
       attackDamage := ScaleReal(s.attackDamage, m),
       durability := ScaleTrunc(s.durability, m),
       armor := ScaleCeil(s.armor, m),
       toughness := ScaleReal(s.toughness, m))
  }

  /** Enchantability "scales less dramatically": `max(e, (int)(e * 1.1 * m))` when positive. */
  function DampedEnchantability(e: int, m: real): (r: int)
    ensures r >= e
    ensures e <= 0 ==> r == e
  {
    if e > 0 then MaxInt(e, Trunc(e as real * 1.1 * m)) else e
  }

  /** `scaleStats`: a scaled copy for the target tier. */
  function ScaleStats(s: ItemStats, tier: Tier): (r: ItemStats)
    ensures r.attackSpeed == s.attackSpeed && r.knockbackResistance == s.knockbackResistance
    ensures NonPositiveKept(s, r)
    ensures NoFieldDecreases(s, r)
  {
    ScaleFields(s, tier.Multiplier()).(enchantability := DampedEnchantability(s.enchantability, tier.Multiplier()))
  }

  /** A higher tier never gives a lower value in any field. */
  lemma ScaleStatsMonotoneInTier(s: ItemStats, t1: Tier, t2: Tier)
    requires t1.Multiplier() <= t2.Multiplier()
    ensures NoFieldDecreases(ScaleStats(s, t1), ScaleStats(s, t2))
  {
    var m1, m2 := t1.Multiplier(), t2.Multiplier();
    ScaledRealMonotone(s.miningSpeed, m1, m2);
    ScaledRealMonotone(s.attackDamage, m1, m2);
    ScaledRealMonotone(s.toughness, m1, m2);
    TruncScaledMonotone(s.durability, m1, m2);
    CeilScaledMonotone(s.armor, m1, m2);
    DampedMonotone(s.enchantability, m1, m2);
  }

  /** A non-negative value scaled by the larger of two non-negative factors is not smaller. */
  lemma ScaleMonotone(x: real, m1: real, m2: real)
    requires x >= 0.0 && 0.0 <= m1 <= m2
    ensures 0.0 <= x * m1 <= x * m2
  {
    MulNonNegative(x, m1);
    MulNonNegative(x, m2 - m1);
    assert x * (m2 - m1) == x * m2 - x * m1;
  }

  /** A real field scaled by the larger factor is not smaller. */
  lemma ScaledRealMonotone(x: real, m1: real, m2: real)
    requires 0.0 < m1 <= m2
    ensures ScaleReal(x, m1) <= ScaleReal(x, m2)
  {
    if x > 0.0 {
      ScaleMonotone(x, m1, m2);
    }
  }

  /** The same for a durability, truncated after scaling. */
  lemma TruncScaledMonotone(n: int, m1: real, m2: real)
    requires 0.0 < m1 <= m2
    ensures ScaleTrunc(n, m1) <= ScaleTrunc(n, m2)
  {
    if n > 0 {
      ScaleMonotone(n as real, m1, m2);
      TruncMonotone(n as real * m1, n as real * m2);
    }
  }

  /** The same for an armour value, rounded up after scaling. */
  lemma CeilScaledMonotone(n: int, m1: real, m2: real)
    requires 0.0 < m1 <= m2
    ensures ScaleCeil(n, m1) <= ScaleCeil(n, m2)
  {
    if n > 0 {
      ScaleMonotone(n as real, m1, m2);
      CeilMonotone(n as real * m1, n as real * m2);
    }
  }

  /** The damped enchantability does not fall as the factor grows. */
  lemma DampedMonotone(e: int, m1: real, m2: real)
    requires 0.0 < m1 <= m2
    ensures DampedEnchantability(e, m1) <= DampedEnchantability(e, m2)
  {
    if e > 0 {
      var x := e as real * 1.1;
      var a, b := Trunc(x * m1), Trunc(x * m2);
      assert a <= b by {
        TruncScaledNonNegative(x, m1, m2);
      }
      assert DampedEnchantability(e, m1) == MaxInt(e, a);
      assert DampedEnchantability(e, m2) == MaxInt(e, b);
    }
  }

  /** Truncation after scaling a non-negative value keeps the order of the factors. */
  lemma TruncScaledNonNegative(x: real, m1: real, m2: real)
    requires x >= 0.0 && 0.0 < m1 <= m2
    ensures Trunc(x * m1) <= Trunc(x * m2)
  {
    ScaleMonotone(x, m1, m2);
    TruncMonotone(x * m1, x * m2);
  }

  /**
   * At the iron tier (multiplier 1) every field but enchantability is returned as it
   * was, and a positive enchantability is raised exactly when it is at least 10.
   */
  lemma IronScaling(s: ItemStats)
    ensures ScaleStats(s, Iron) == s.(enchantability := ScaleStats(s, Iron).enchantability)
    ensures s.enchantability > 0 ==> (ScaleStats(s, Iron).enchantability > s.enchantability <==> s.enchantability >= 10)
  {
    TruncOfInt(s.durability);
    CeilOfInt(s.armor);
    var e := s.enchantability;
    if e > 0 {
      assert e as real * 1.1 * 1.0 == e as real + e as real / 10.0;
      if e >= 10 {
        assert Trunc(e as real * 1.1 * 1.0) >= e + 1;
      } else {
        assert e as real / 10.0 < 1.0;
        assert Trunc(e as real * 1.1 * 1.0) <= e;
      }
    }
  }

  /** The reference multiplier: enderite tool durability over iron tool durability. */
  function EnderiteMultiplier(cache: StatCache): real
    reads cache
    requires cache.GetToolStats("iron").durability != 0
  {
    cache.GetToolStats("enderite").durability as real / cache.GetToolStats("iron").durability as real
  }

  /**
   * `scaleStatsUsingEnderite`: the five fields scaled by the durability ratio of the
   * stat cache. The cache's lookups never fail, so the tier fallback is never taken
   * and the tier argument plays no part.
   */
  function ScaleStatsUsingEnderite(s: ItemStats, tier: Tier, cache: StatCache): (r: ItemStats)
    reads cache
    requires cache.GetToolStats("iron").durability != 0
    ensures r.enchantability == s.enchantability
    ensures r.attackSpeed == s.attackSpeed && r.knockbackResistance == s.knockbackResistance
    ensures NonPositiveKept(s, r)
    ensures EnderiteMultiplier(cache) >= 1.0 ==> NoFieldDecreases(s, r)
  {
    ScaleFields(s, EnderiteMultiplier(cache))
  }

  /** The reference route ignores the tier. */
  lemma EnderiteScalingIgnoresTier(s: ItemStats, t1: Tier, t2: Tier, cache: StatCache)
    requires cache.GetToolStats("iron").durability != 0
    ensures ScaleStatsUsingEnderite(s, t1, cache) == ScaleStatsUsingEnderite(s, t2, cache)
  {
  }

  /**
   * After `clearCache` both lookups give the iron stats, the ratio is 250/250 = 1,
   * and the reference route returns its input unchanged.
   */
  lemma ClearedCacheScalingIsIdentity(s: ItemStats, tier: Tier, cache: StatCache)
    requires cache.tools == map[]
    ensures cache.GetToolStats("iron").durability == 250
    ensures EnderiteMultiplier(cache) == 1.0
    ensures ScaleStatsUsingEnderite(s, tier, cache) == s
  {
    TruncOfInt(s.durability);
    CeilOfInt(s.armor);
  }

  /** With the seeded tables the ratio is 4096/250, and a durability of 250 becomes 4096. */
  lemma SeededEnderiteScaling(s: ItemStats, tier: Tier, cache: StatCache)
    requires cache.tools == map["enderite" := EnderiteToolStats, "netherite" := NetheriteToolStats, "iron" := IronToolStats]
    ensures cache.GetToolStats("iron").durability == 250
    ensures EnderiteMultiplier(cache) == 4096.0 / 250.0
    ensures s.durability == 250 ==> ScaleStatsUsingEnderite(s, tier, cache).durability == 4096
  {
    SeededToolDurabilities(cache.tools);
    TruncOfInt(4096);
    assert 250.0 * (4096.0 / 250.0) == 4096.0;
  }

  /** `VariantConfig`; a Java null field is `None`. */
  datatype VariantConfig = VariantConfig(
    sourceModId: string, baseItemName: string, sourceItemId: Option<string>, tier: Tier,
    textureLocation: Option<string>, baseStats: ItemStats, variantStats: ItemStats)

  /** `new VariantConfig(mod, item, tier)`: both statistics fresh, the optional fields unset. */
  function NewVariantConfig(sourceModId: string, baseItemName: string, tier: Tier): (c: VariantConfig)
    ensures c.sourceModId == sourceModId && c.baseItemName == baseItemName && c.tier == tier
    ensures c.sourceItemId.None? && c.textureLocation.None?
    ensures c.baseStats == DefaultItemStats && c.variantStats == DefaultItemStats
    ensures KeyOf(c) == Key(sourceModId, baseItemName, tier)
  {
    VariantConfig(sourceModId, baseItemName, None, tier, None, DefaultItemStats, DefaultItemStats)
  }

  /** The registry key `mod + ":" + item + ":" + tier.name()`. */
  function Key(modId: string, itemName: string, tier: Tier): string
  {
    modId + ":" + itemName + ":" + tier.Name()
  }

  function KeyOf(c: VariantConfig): string
  {
    Key(c.sourceModId, c.baseItemName, c.tier)
  }

  /** For mod ids without ':' (as Minecraft namespaces are), distinct triples have distinct keys. */
  lemma KeyInjective(m1: string, i1: string, t1: Tier, m2: string, i2: string, t2: Tier)
    requires ':' !in m1 && ':' !in m2
    requires Key(m1, i1, t1) == Key(m2, i2, t2)
    ensures m1 == m2 && i1 == i2 && t1 == t2
  {
    KeyParts(m1, i1, t1);
    KeyParts(m2, i2, t2);
    SplitAtFirst(m1, i1 + [':'] + t1.Name(), m2, i2 + [':'] + t2.Name(), ':');
    SplitAtLast(i1, t1.Name(), i2, t2.Name(), ':');
    TiersOrdered(t1, t2);
  }

  /** The key split at its first ':'. */
  lemma KeyParts(m: string, i: string, t: Tier)
    ensures Key(m, i, t) == m + [':'] + (i + [':'] + t.Name())
  {
  }

  /** A ':' inside the mod id lets two different triples share a key. */
  lemma KeyCollision()
    ensures Key("a:b", "c", Iron) == Key("a", "b:c", Iron)
  {
  }

  /** Every list under a mod id holds only configs of that mod. */
  ghost predicate ModsGrouped(byMod: map<string, seq<VariantConfig>>)
  {
    forall m :: m in byMod ==> forall c :: c in byMod[m] ==> c.sourceModId == m
  }

  /** Every list under a tier name holds only configs of that tier. */
  ghost predicate TiersGrouped(byTier: map<string, seq<VariantConfig>>)
  {
    forall t :: t in byTier ==> forall c :: c in byTier[t] ==> c.tier.Name() == t
  }

  /** Every registered config appears in its mod's and its tier's list. */
  ghost predicate Indexed(registered: map<string, VariantConfig>, byMod: map<string, seq<VariantConfig>>,
                          byTier: map<string, seq<VariantConfig>>)
  {
    forall k :: k in registered ==>
      registered[k].sourceModId in byMod && registered[k] in byMod[registered[k].sourceModId]
      && registered[k].tier.Name() in byTier && registered[k] in byTier[registered[k].tier.Name()]
  }

  /**
   * Every entry sits under its own key, every list holds only configs of its mod
   * or tier, and every registered config appears in its mod's and its tier's list.
   */
  ghost predicate Consistent(registered: map<string, VariantConfig>, byMod: map<string, seq<VariantConfig>>,
                             byTier: map<string, seq<VariantConfig>>)
  {
    (forall k :: k in registered ==> k == KeyOf(registered[k]))
    && ModsGrouped(byMod) && TiersGrouped(byTier) && Indexed(registered, byMod, byTier)
  }

  /** Registering a config keeps the tables consistent. */
  lemma RegisterKeepsConsistent(registered: map<string, VariantConfig>, byMod: map<string, seq<VariantConfig>>,
                                byTier: map<string, seq<VariantConfig>>, c: VariantConfig)
    requires Consistent(registered, byMod, byTier)
    ensures Consistent(registered[KeyOf(c) := c], Append(byMod, c.sourceModId, c), Append(byTier, c.tier.Name(), c))
  {
    AppendKeepsModsGrouped(byMod, c);
    AppendKeepsTiersGrouped(byTier, c);
    RegisterKeepsIndexed(registered, byMod, byTier, c);
  }

  lemma AppendKeepsModsGrouped(byMod: map<string, seq<VariantConfig>>, c: VariantConfig)
    requires ModsGrouped(byMod)
    ensures ModsGrouped(Append(byMod, c.sourceModId, c))
  {
  }

  lemma AppendKeepsTiersGrouped(byTier: map<string, seq<VariantConfig>>, c: VariantConfig)
    requires TiersGrouped(byTier)
    ensures TiersGrouped(Append(byTier, c.tier.Name(), c))
  {
  }

  lemma RegisterKeepsIndexed(registered: map<string, VariantConfig>, byMod: map<string, seq<VariantConfig>>,
                             byTier: map<string, seq<VariantConfig>>, c: VariantConfig)
    requires Indexed(registered, byMod, byTier)
    ensures Indexed(registered[KeyOf(c) := c], Append(byMod, c.sourceModId, c), Append(byTier, c.tier.Name(), c))
  {
    var reg, mods, tiers := registered[KeyOf(c) := c], Append(byMod, c.sourceModId, c), Append(byTier, c.tier.Name(), c);
    forall k | k in reg
      ensures reg[k].sourceModId in mods && reg[k] in mods[reg[k].sourceModId]
      ensures reg[k].tier.Name() in tiers && reg[k] in tiers[reg[k].tier.Name()]
    {
      if k != KeyOf(c) {
        var d := registered[k];
        assert d in byMod[d.sourceModId];
        assert d in byTier[d.tier.Name()];
      }
    }
  }

  /**
   * Storing a config changes no lookup of another triple whose mod id, like the
   * stored one's, has no ':'.
   */
  lemma PutKeepsOtherTriples(registered: map<string, VariantConfig>, c: VariantConfig, m: string, i: string, t: Tier)
    requires ':' !in c.sourceModId && ':' !in m
    requires (m, i, t) != (c.sourceModId, c.baseItemName, c.tier)
    ensures Key(m, i, t) in registered[KeyOf(c) := c] <==> Key(m, i, t) in registered
    ensures Key(m, i, t) in registered ==> registered[KeyOf(c) := c][Key(m, i, t)] == registered[Key(m, i, t)]
  {
    if Key(m, i, t) == KeyOf(c) {
      KeyInjective(m, i, t, c.sourceModId, c.baseItemName, c.tier);
    }
  }

  /** The config stored under a triple's key, if any. */
  function VariantAt(registered: map<string, VariantConfig>, m: string, i: string, t: Tier): (r: Option<VariantConfig>)
    ensures r.None? <==> Key(m, i, t) !in registered
    ensures r.Some? ==> r.value == registered[Key(m, i, t)]
  {
    var key := Key(m, i, t);
    if key in registered then Some(registered[key]) else None
  }

  /**
   * Storing a config under its key: its own triple finds it, the map grows by one
   * unless the key was taken, and no other triple whose mod id has no ':' sees a change.
   */
  lemma PutLookups(registered: map<string, VariantConfig>, c: VariantConfig)
    ensures VariantAt(registered[KeyOf(c) := c], c.sourceModId, c.baseItemName, c.tier) == Some(c)
    ensures |registered[KeyOf(c) := c]| == if KeyOf(c) in registered then |registered| else |registered| + 1
    ensures ':' !in c.sourceModId ==>
              forall m, i, t :: ':' !in m && (m, i, t) != (c.sourceModId, c.baseItemName, c.tier) ==>
                VariantAt(registered[KeyOf(c) := c], m, i, t) == VariantAt(registered, m, i, t)
  {
    if ':' !in c.sourceModId {
      forall m, i, t | ':' !in m && (m, i, t) != (c.sourceModId, c.baseItemName, c.tier)
        ensures VariantAt(registered[KeyOf(c) := c], m, i, t) == VariantAt(registered, m, i, t)
      {
        PutKeepsOtherTriples(registered, c, m, i, t);
      }
    }
  }

  /** The three maps of the registry. */
  class Registry {
    var registered: map<string, VariantConfig>
    var byMod: map<string, seq<VariantConfig>>
    var byTier: map<string, seq<VariantConfig>>

    /** The registry's tables are consistent (see `Consistent`). */
    ghost predicate Valid()
      reads this
    {
      Consistent(registered, byMod, byTier)
    }

    constructor ()
      ensures registered == map[] && byMod == map[] && byTier == map[]
      ensures Valid()
    {
      registered := map[];
      byMod := map[];
      byTier := map[];
    }

    /**
     * `registerVariant`: the config replaces any entry under its key and is appended,
     * again, to its mod's and its tier's list.
     */
    method RegisterVariant(config: VariantConfig)
      requires Valid()
      modifies this
      ensures Valid()
      ensures registered == old(registered)[KeyOf(config) := config]
      ensures byMod == Append(old(byMod), config.sourceModId, config)
      ensures byTier == Append(old(byTier), config.tier.Name(), config)
      ensures VariantAt(registered, config.sourceModId, config.baseItemName, config.tier) == Some(config)
      ensures |registered| == if KeyOf(config) in old(registered) then old(|registered|) else old(|registered|) + 1
      ensures ':' !in config.sourceModId ==>
                forall m, i, t :: ':' !in m && (m, i, t) != (config.sourceModId, config.baseItemName, config.tier) ==>
                  VariantAt(registered, m, i, t) == VariantAt(old(registered), m, i, t)
    {
      ghost var registered0, byMod0, byTier0 := registered, byMod, byTier;
      registered := registered[KeyOf(config) := config];
      byMod := Append(byMod, config.sourceModId, config);
      byTier := Append(byTier, config.tier.Name(), config);
      assert Valid() by {
        RegisterKeepsConsistent(registered0, byMod0, byTier0, config);
      }
      PutLookups(registered0, config);
    }

    /** `getVariant`: the entry under the triple's key, if any; what comes back was stored under that key. */
    function GetVariant(modId: string, itemName: string, tier: Tier): (r: Option<VariantConfig>)
      reads this
      ensures r.None? <==> Key(modId, itemName, tier) !in registered
      ensures Valid() && r.Some? ==> KeyOf(r.value) == Key(modId, itemName, tier)
    {
      VariantAt(registered, modId, itemName, tier)
    }

    /** `getVariantsForMod`: the mod's list in registration order, empty for an unknown mod. */
    function GetVariantsForMod(modId: string): (r: seq<VariantConfig>)
      reads this
      ensures modId !in byMod ==> r == []
      ensures Valid() ==> forall c :: c in r ==> c.sourceModId == modId
    {
      if modId in byMod then byMod[modId] else []
    }

    /** `getVariantsForTier`: the tier's list in registration order, empty for an unknown tier. */
    function GetVariantsForTier(tier: Tier): (r: seq<VariantConfig>)
      reads this
      ensures tier.Name() !in byTier ==> r == []
      ensures Valid() ==> forall c :: c in r ==> c.tier == tier
    {
      if tier.Name() in byTier then byTier[tier.Name()] else []
    }

    /** `getAllVariants`: the registered configs, each retrievable under its own triple. */
    function GetAllVariants(): (r: set<VariantConfig>)
      reads this
      ensures forall c :: c in r <==> exists k :: k in registered && registered[k] == c
      ensures Valid() ==> forall c :: c in r ==> GetVariant(c.sourceModId, c.baseItemName, c.tier) == Some(c)
    {
      registered.Values
    }

    function Size(): nat
      reads this
    {
      |registered|
    }

    /** `clear`: all three maps emptied; every lookup then misses. */
    method Clear()
      modifies this
      ensures registered == map[] && byMod == map[] && byTier == map[]
      ensures Valid() && Size() == 0
      ensures forall m :: GetVariantsForMod(m) == []
      ensures forall t :: GetVariantsForTier(t) == []
      ensures forall m, i, t :: GetVariant(m, i, t) == None
    {
      registered := map[];
      byMod := map[];
      byTier := map[];
    }
  }
}
