/**
 * LootProfile: loot entries grouped by loot table id, each table keeping its entries
 * in the order they were registered, and a separate count of loot tables seen.
 */
module LootProfile {
  import opened Wrappers

  /** A loot entry: a weighted item of a table, dropped exactly once. */
  datatype LootEntry = LootEntry(lootTableId: string, itemId: string, weight: real, minCount: int, maxCount: int)

  /** A loot table: its id, its entries in order, and where it comes from. */
  datatype LootTableInfo = LootTableInfo(tableId: string, entries: seq<LootEntry>, sourceType: string)

  /** `new LootEntry(table, item, weight)`: minimum and maximum count 1. */
  function NewLootEntry(tableId: string, itemId: string, weight: real): (e: LootEntry)
    ensures e.lootTableId == tableId && e.itemId == itemId && e.weight == weight
    ensures e.minCount == 1 && e.maxCount == 1
  {
    LootEntry(tableId, itemId, weight, 1, 1)
  }

  /** `new LootTableInfo(tableId)`: no entries, source type "unknown". */
  function NewLootTableInfo(tableId: string): (t: LootTableInfo)
    ensures t.tableId == tableId && t.entries == [] && t.sourceType == "unknown"
  {
    LootTableInfo(tableId, [], "unknown")
  }

  /** Every table sits under its own id, with source type "unknown", and every entry names that table and counts 1. */
  predicate WellFormed(cache: map<string, LootTableInfo>)
  {
    forall id :: id in cache ==>
      cache[id].tableId == id && cache[id].sourceType == "unknown"
      && forall e :: e in cache[id].entries ==> e.lootTableId == id && e.minCount == 1 && e.maxCount == 1
  }

  /** The entries of a table, or none when it is not registered. */
  function EntriesAt(cache: map<string, LootTableInfo>, tableId: string): (r: seq<LootEntry>)
    ensures tableId in cache ==> r == cache[tableId].entries
    ensures tableId !in cache ==> r == []
  {
    if tableId in cache then cache[tableId].entries else []
  }

  /**
   * `LOOT_CACHE.computeIfAbsent(tableId, LootTableInfo::new).entries.add(...)`: the entry
   * goes at the end of its table, created when missing; no other table changes.
   */
  function Register(cache: map<string, LootTableInfo>, tableId: string, itemId: string, weight: real)
    : (r: map<string, LootTableInfo>)
    ensures r.Keys == cache.Keys + {tableId}
    ensures EntriesAt(r, tableId) == EntriesAt(cache, tableId) + [NewLootEntry(tableId, itemId, weight)]
    ensures tableId !in cache ==> r[tableId].sourceType == "unknown"
    ensures forall other :: other != tableId && other in cache ==> r[other] == cache[other]
    ensures WellFormed(cache) ==> WellFormed(r)
  {
    var info := if tableId in cache then cache[tableId] else NewLootTableInfo(tableId);
    cache[tableId := info.(entries := info.entries + [NewLootEntry(tableId, itemId, weight)])]
  }

  /** Registering a run of (item, weight) pairs into one table, first to last. */
  function RegisterAll(cache: map<string, LootTableInfo>, tableId: string, items: seq<(string, real)>)
    : map<string, LootTableInfo>
    decreases |items|
  {
    if items == [] then cache
    else
      var last := items[|items| - 1];
      Register(RegisterAll(cache, tableId, items[..|items| - 1]), tableId, last.0, last.1)
  }

  /** The entries a run of pairs makes, in the run's order. */
  function EntriesFor(tableId: string, items: seq<(string, real)>): (r: seq<LootEntry>)
    ensures |r| == |items|
    ensures forall i :: 0 <= i < |items| ==> r[i] == NewLootEntry(tableId, items[i].0, items[i].1)
  {
    seq(|items|, i requires 0 <= i < |items| => NewLootEntry(tableId, items[i].0, items[i].1))
  }

  /** A table's entries are what it held followed by each registered pair, in order, repeats included. */
  lemma {:induction false} RegisterAllAppends(cache: map<string, LootTableInfo>, tableId: string,
                                              items: seq<(string, real)>)
    ensures EntriesAt(RegisterAll(cache, tableId, items), tableId) == EntriesAt(cache, tableId) + EntriesFor(tableId, items)
    decreases |items|
  {
    if items == [] {
      assert EntriesFor(tableId, items) == [];
    } else {
      var init := items[..|items| - 1];
      var last := items[|items| - 1];
      RegisterAllAppends(cache, tableId, init);
      var before := RegisterAll(cache, tableId, init);
      assert RegisterAll(cache, tableId, items) == Register(before, tableId, last.0, last.1);
      EntriesForSnoc(tableId, items);
    }
  }

  /** The entries of a run are those of all but its last pair, then the last pair's. */
  lemma EntriesForSnoc(tableId: string, items: seq<(string, real)>)
    requires items != []
    ensures EntriesFor(tableId, items) ==
            EntriesFor(tableId, items[..|items| - 1]) + [NewLootEntry(tableId, items[|items| - 1].0, items[|items| - 1].1)]
  {
  }

  /** The same item registered twice with the same weight is listed twice. */
  lemma DuplicateEntriesKept(cache: map<string, LootTableInfo>, tableId: string, itemId: string, weight: real)
    ensures var r := Register(Register(cache, tableId, itemId, weight), tableId, itemId, weight);
            EntriesAt(r, tableId) == EntriesAt(cache, tableId) + [NewLootEntry(tableId, itemId, weight), NewLootEntry(tableId, itemId, weight)]
  {
  }

  /** The successor of a Java `int`: the largest value wraps round to the smallest. */
  function Int32Succ(n: int): (r: int)
    requires -0x8000_0000 <= n < 0x8000_0000
    ensures -0x8000_0000 <= r < 0x8000_0000
    ensures n < 0x7FFF_FFFF ==> r == n + 1
    ensures n == 0x7FFF_FFFF ==> r == -0x8000_0000
  {
    if n == 0x7FFF_FFFF then -0x8000_0000 else n + 1
  }

  /** The loot table map and the count of tables seen. Both start empty. */
  class Profile {
    var lootCache: map<string, LootTableInfo>
    var lootTableCount: int

    ghost predicate Valid()
      reads this
    {
      WellFormed(lootCache) && -0x8000_0000 <= lootTableCount < 0x8000_0000
    }

    constructor ()
      ensures Valid() && lootCache == map[] && lootTableCount == 0
    {
      lootCache := map[];
      lootTableCount := 0;
    }

    /** `trackLootTable`: one more table counted (a Java `int`); the entries are untouched. */
    method TrackLootTable()
      requires Valid()
      modifies this
      ensures Valid()
      ensures lootTableCount == Int32Succ(old(lootTableCount)) && lootCache == old(lootCache)
    {
      lootTableCount := Int32Succ(lootTableCount);
    }

    /** `registerLootEntry`: the entry joins the end of its table; the count is untouched. */
    method RegisterLootEntry(tableId: string, itemId: string, weight: real)
      requires Valid()
      modifies this
      ensures Valid()
      ensures lootCache == Register(old(lootCache), tableId, itemId, weight)
      ensures lootTableCount == old(lootTableCount)
    {
      lootCache := Register(lootCache, tableId, itemId, weight);
    }

    /** `getLootTableInfo`: the table under the id, or null. */
    function GetLootTableInfo(tableId: string): (r: Option<LootTableInfo>)
      reads this
      ensures r.Some? <==> tableId in lootCache
      ensures r.Some? ==> r.value == lootCache[tableId]
    {
      if tableId in lootCache then Some(lootCache[tableId]) else None
    }

    /** `getAllLootTables`: the registered tables. */
    function GetAllLootTables(): (r: set<LootTableInfo>)
      reads this
      ensures forall t :: t in r <==> exists id :: id in lootCache && lootCache[id] == t
    {
      lootCache.Values
    }

    /** `getTrackedLootTableCount`. */
    function GetTrackedLootTableCount(): int
      reads this
    {
      lootTableCount
    }

    /** `clearProfile`: no tables and a count of 0. */
    method ClearProfile()
      modifies this
      ensures Valid() && lootCache == map[] && lootTableCount == 0
      ensures forall id :: GetLootTableInfo(id).None?
    {
      lootCache := map[];
      lootTableCount := 0;
    }
  }
}
