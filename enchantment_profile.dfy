/**
 * EnchantmentProfile: the enchantments seen on each item, as a set per item id, and
 * a separate table of enchantment metadata by enchantment id. The two tables are
 * filled and counted independently.
 */
module EnchantmentProfile {
  import opened Wrappers

  /** Enchantment metadata; the compatible-item set starts empty. */
  datatype EnchantmentData = EnchantmentData(enchantmentId: string, displayName: string, maxLevel: int,
                                             treasure: bool, compatibleItems: set<string>)

  /** `new EnchantmentData(id, name, maxLevel, treasure)`. */
  function NewEnchantmentData(id: string, displayName: string, maxLevel: int, treasure: bool): (d: EnchantmentData)
    ensures d.enchantmentId == id && d.displayName == displayName && d.maxLevel == maxLevel && d.treasure == treasure
    ensures d.compatibleItems == {}
  {
    EnchantmentData(id, displayName, maxLevel, treasure, {})
  }

  /** `ITEM_ENCHANTMENTS.getOrDefault(itemId, new HashSet<>())`. */
  function SetAt(table: map<string, set<string>>, itemId: string): (r: set<string>)
    ensures itemId in table ==> r == table[itemId]
    ensures itemId !in table ==> r == {}
  {
    if itemId in table then table[itemId] else {}
  }

  /** `computeIfAbsent(item, new HashSet<>()).add(ench)`: the id joins the item's set; no other item changes. */
  function AddEnchantment(table: map<string, set<string>>, itemId: string, enchId: string): (r: map<string, set<string>>)
    ensures r.Keys == table.Keys + {itemId}
    ensures SetAt(r, itemId) == SetAt(table, itemId) + {enchId}
    ensures forall other :: other != itemId ==> SetAt(r, other) == SetAt(table, other)
  {
    table[itemId := SetAt(table, itemId) + {enchId}]
  }

  /** Tracking the same pair again changes nothing. */
  lemma AddEnchantmentIdempotent(table: map<string, set<string>>, itemId: string, enchId: string)
    ensures AddEnchantment(AddEnchantment(table, itemId, enchId), itemId, enchId) == AddEnchantment(table, itemId, enchId)
  {
    var once := AddEnchantment(table, itemId, enchId);
    assert SetAt(once, itemId) + {enchId} == SetAt(once, itemId);
  }

  /** The order two pairs are tracked in does not matter. */
  lemma AddEnchantmentCommutes(table: map<string, set<string>>, i1: string, e1: string, i2: string, e2: string)
    ensures AddEnchantment(AddEnchantment(table, i1, e1), i2, e2) == AddEnchantment(AddEnchantment(table, i2, e2), i1, e1)
  {
    var a := AddEnchantment(AddEnchantment(table, i1, e1), i2, e2);
    var b := AddEnchantment(AddEnchantment(table, i2, e2), i1, e1);
    assert a.Keys == b.Keys;
    forall k | k in a
      ensures a[k] == b[k]
    {
      assert SetAt(a, k) == SetAt(b, k);
    }
  }

  /** The two tables. The constructor is the static initializer. */
  class Profile {
    var itemEnchantments: map<string, set<string>>
    var enchantmentCache: map<string, EnchantmentData>

    /** Both tables start empty. */
    constructor ()
      ensures itemEnchantments == map[] && enchantmentCache == map[]
    {
      itemEnchantments := map[];
      enchantmentCache := map[];
    }

    /**
     * `trackEnchantment`, given the item and enchantment ids: the enchantment joins the
     * item's set, a new item adds one to the profile size, and the metadata is untouched.
     */
    method TrackEnchantment(itemId: string, enchId: string)
      modifies this
      ensures itemEnchantments == AddEnchantment(old(itemEnchantments), itemId, enchId)
      ensures enchantmentCache == old(enchantmentCache)
      ensures enchId in GetCompatibleEnchantments(itemId)
      ensures GetProfileSize() == old(GetProfileSize()) + (if itemId in old(itemEnchantments) then 0 else 1)
    {
      itemEnchantments := AddEnchantment(itemEnchantments, itemId, enchId);
    }

    /** `getCompatibleEnchantments`: the item's set, or an empty one. */
    function GetCompatibleEnchantments(itemId: string): (r: set<string>)
      reads this
      ensures itemId in itemEnchantments ==> r == itemEnchantments[itemId]
      ensures itemId !in itemEnchantments ==> r == {}
    {
      SetAt(itemEnchantments, itemId)
    }

    /** `cacheEnchantment`: fresh metadata under the id, replacing any entry; the item sets are untouched. */
    method CacheEnchantment(id: string, displayName: string, maxLevel: int, treasure: bool)
      modifies this
      ensures enchantmentCache == old(enchantmentCache)[id := NewEnchantmentData(id, displayName, maxLevel, treasure)]
      ensures itemEnchantments == old(itemEnchantments)
      ensures GetEnchantmentData(id) == Some(NewEnchantmentData(id, displayName, maxLevel, treasure))
      ensures GetAllTrackedEnchantments() == old(GetAllTrackedEnchantments()) + {id}
    {
      enchantmentCache := enchantmentCache[id := NewEnchantmentData(id, displayName, maxLevel, treasure)];
    }

    /** `getEnchantmentData`: the metadata under the id, or null. */
    function GetEnchantmentData(id: string): (r: Option<EnchantmentData>)
      reads this
      ensures r.Some? <==> id in enchantmentCache
      ensures r.Some? ==> r.value == enchantmentCache[id]
    {
      if id in enchantmentCache then Some(enchantmentCache[id]) else None
    }

    /** `getAllTrackedEnchantments`: the ids that have metadata, not the ids seen on items. */
    function GetAllTrackedEnchantments(): (r: set<string>)
      reads this
      ensures forall id :: id in r <==> GetEnchantmentData(id).Some?
    {
      enchantmentCache.Keys
    }

    /** `getProfileSize`: the number of items with a tracked enchantment. */
    function GetProfileSize(): nat
      reads this
    {
      |itemEnchantments|
    }

    /** `clearProfile`: empties both tables. */
    method ClearProfile()
      modifies this
      ensures itemEnchantments == map[] && enchantmentCache == map[]
      ensures forall itemId :: GetCompatibleEnchantments(itemId) == {}
      ensures forall id :: GetEnchantmentData(id).None?
      ensures GetProfileSize() == 0 && GetAllTrackedEnchantments() == {}
    {
      itemEnchantments := map[];
      enchantmentCache := map[];
    }
  }
}
