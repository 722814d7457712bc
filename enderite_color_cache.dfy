/**
 * EnderiteColorCache: bright and dark reference colours per tier, with a cache
 * that is filled from the ids of recognised ingots and a built-in default table.
 */
module EnderiteColorCache {
  import opened JavaStrings
  import opened TextureColorizer

  const EnderiteBright := Pixel(29, 94, 83, 255)
  const EnderiteDark := Pixel(4, 14, 12, 255)
  const NetheriteBright := Pixel(100, 100, 120, 255)
  const NetheriteDark := Pixel(40, 40, 50, 255)
  const IronBright := Pixel(255, 255, 255, 255)
  const IronDark := Pixel(53, 53, 53, 255)

  /** `ColorInfo`: a name, two colours and the bright colour's mean channel. */
  datatype ColorInfo = ColorInfo(itemName: string, brightColor: Pixel, darkColor: Pixel, brightness: real)

  /** `new ColorInfo(name, bright, dark)`. */
  function NewColorInfo(itemName: string, bright: Pixel, dark: Pixel): (c: ColorInfo)
    ensures c.itemName == itemName && c.brightColor == bright && c.darkColor == dark
    ensures 3.0 * c.brightness == (bright.r + bright.g + bright.b) as real
    ensures bright.InRange() ==> 0.0 <= c.brightness <= 255.0
    ensures bright.IsGrayscale() ==> c.brightness == bright.r as real
  {
    ColorInfo(itemName, bright, dark, (bright.r + bright.g + bright.b) as real / 3.0)
  }

  const EnderiteInfo := NewColorInfo("enderite", EnderiteBright, EnderiteDark)
  const NetheriteInfo := NewColorInfo("netherite", NetheriteBright, NetheriteDark)
  const IronInfo := NewColorInfo("iron", IronBright, IronDark)

  /** The three tier names the tables know, in lower case. */
  predicate IsTierName(key: string)
  {
    key == "enderite" || key == "netherite" || key == "iron"
  }

  /** `getDefaultColorInfo`: the switch on the lowercased tier; anything else is iron's colours named "unknown". */
  function DefaultColorInfo(tier: string): (c: ColorInfo)
    ensures IsTierName(Lower(tier)) ==> c.itemName == Lower(tier)
    ensures !IsTierName(Lower(tier)) ==> c == NewColorInfo("unknown", IronBright, IronDark)
  {
    match Lower(tier)
    case "enderite" => EnderiteInfo
    case "netherite" => NetheriteInfo
    case "iron" => IronInfo
    case _ => NewColorInfo("unknown", IronBright, IronDark)
  }

  /** The default table does not depend on the case of the tier name. */
  lemma DefaultIgnoresCase(tier: string)
    ensures DefaultColorInfo(tier) == DefaultColorInfo(Lower(tier))
  {
    LowerNoCapitals(Lower(tier));
  }

  /** The cache of one game session. The constructor is the static initializer. */
  class ColorCache {
    var cache: map<string, ColorInfo>

    /** Only the three tiers are ever cached, each with its default entry. */
    ghost predicate Canonical()
      reads this
    {
      forall key :: key in cache ==> IsTierName(key) && cache[key] == DefaultColorInfo(key)
    }

    constructor ()
      ensures cache == map[] && Canonical()
    {
      cache := map[];
    }

    /**
     * `cacheItemColors`, on the item's id string: the first of enderite_ingot,
     * netherite_ingot and iron_ingot that the id contains decides the one entry
     * written; with no match nothing changes.
     */
    method CacheItemColors(itemId: string)
      requires Canonical()
      modifies this
      ensures Canonical()
      ensures Contains(itemId, "enderite_ingot") ==> cache == old(cache)["enderite" := EnderiteInfo]
      ensures !Contains(itemId, "enderite_ingot") && Contains(itemId, "netherite_ingot") ==>
                cache == old(cache)["netherite" := NetheriteInfo]
      ensures !Contains(itemId, "enderite_ingot") && !Contains(itemId, "netherite_ingot") && Contains(itemId, "iron_ingot") ==>
                cache == old(cache)["iron" := IronInfo]
      ensures !Contains(itemId, "enderite_ingot") && !Contains(itemId, "netherite_ingot") && !Contains(itemId, "iron_ingot") ==>
                cache == old(cache)
    {
      LowerNoCapitals("enderite");
      LowerNoCapitals("netherite");
      LowerNoCapitals("iron");
      if Contains(itemId, "enderite_ingot") {
        cache := cache["enderite" := EnderiteInfo];
      } else if Contains(itemId, "netherite_ingot") {
        cache := cache["netherite" := NetheriteInfo];
      } else if Contains(itemId, "iron_ingot") {
        cache := cache["iron" := IronInfo];
      }
    }

    /** `getColorInfo`: the cached entry under the lowercased tier, else the default; the two always agree. */
    function GetColorInfo(tier: string): (c: ColorInfo)
      reads this
      ensures Canonical() ==> c == DefaultColorInfo(tier)
    {
      var key := Lower(tier);
      if key in cache then (LowerNoCapitals(key); cache[key]) else DefaultColorInfo(tier)
    }

    /** `getBrightColor`: always the default table's bright colour for the tier. */
    function GetBrightColor(tier: string): (p: Pixel)
      reads this
      ensures Canonical() ==> p == DefaultColorInfo(tier).brightColor
    {
      GetColorInfo(tier).brightColor
    }

    /** `getDarkColor`: always the default table's dark colour for the tier. */
    function GetDarkColor(tier: string): (p: Pixel)
      reads this
      ensures Canonical() ==> p == DefaultColorInfo(tier).darkColor
    {
      GetColorInfo(tier).darkColor
    }

    /** `getCacheSize`: never more than the three tiers. */
    function GetCacheSize(): (n: nat)
      reads this
      ensures Canonical() ==> n <= 3
    {
      CacheKeysBound(cache.Keys);
      |cache|
    }

    /** `clearCache`: the cache is emptied. */
    method ClearCache()
      modifies this
      ensures cache == map[] && Canonical() && GetCacheSize() == 0
    {
      cache := map[];
    }
  }

  /** A set of tier names has at most three members. */
  lemma CacheKeysBound(keys: set<string>)
    ensures (forall key :: key in keys ==> IsTierName(key)) ==> |keys| <= 3
  {
    if forall key :: key in keys ==> IsTierName(key) {
      assert keys <= {"enderite", "netherite", "iron"};
      SubsetCardinality(keys, {"enderite", "netherite", "iron"});
    }
  }

  lemma {:induction false} SubsetCardinality<T>(a: set<T>, b: set<T>)
    requires a <= b
    ensures |a| <= |b|
  {
    if a != {} {
      var x :| x in a;
      SubsetCardinality(a - {x}, b - {x});
    }
  }
}
