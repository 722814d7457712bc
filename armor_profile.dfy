/**
 * ArmorProfile: armour piece statistics by item name, seeded with the four enderite
 * pieces, filled by tracking, and filtered by equipment slot.
 */
module ArmorProfile {

  /** The equipment slots an armour item can name. */
  datatype EquipmentType = Helmet | Chestplate | Leggings | Boots | Body

  /** Armour piece statistics. */
  datatype ArmorStats = ArmorStats(itemName: string, slotType: EquipmentType, protection: int, maxDamage: int,
                                   toughness: real, knockbackResistance: real)

  /** `new ArmorStats(name, slot, protection)`: no durability, toughness or knockback resistance yet. */
  function NewArmorStats(itemName: string, slot: EquipmentType, protection: int): (s: ArmorStats)
    ensures s.itemName == itemName && s.slotType == slot && s.protection == protection
    ensures s.maxDamage == 0 && s.toughness == 0.0 && s.knockbackResistance == 0.0
  {
    ArmorStats(itemName, slot, protection, 0, 0.0, 0.0)
  }

  /** An enderite piece: built with its protection, then given toughness 4 and knockback resistance 0.1. */
  function EnderitePiece(itemName: string, slot: EquipmentType, protection: int): (s: ArmorStats)
    ensures s.itemName == itemName && s.slotType == slot && s.protection == protection && s.maxDamage == 0
    ensures s.toughness == 4.0 && s.knockbackResistance == 0.1
  {
    NewArmorStats(itemName, slot, protection).(toughness := 4.0, knockbackResistance := 0.1)
  }

  const EnderiteHelmet := EnderitePiece("enderite_helmet", Helmet, 4)
  const EnderiteChestplate := EnderitePiece("enderite_chestplate", Chestplate, 9)
  const EnderiteLeggings := EnderitePiece("enderite_leggings", Leggings, 7)
  const EnderiteBoots := EnderitePiece("enderite_boots", Boots, 4)

  const SeededArmor := map["enderite_helmet" := EnderiteHelmet, "enderite_chestplate" := EnderiteChestplate,
                           "enderite_leggings" := EnderiteLeggings, "enderite_boots" := EnderiteBoots]

  /** `ARMOR_CACHE.getOrDefault(name, ENDERITE_HELMET)` over a given table. */
  function ArmorLookup(armor: map<string, ArmorStats>, armorName: string): (r: ArmorStats)
    ensures armorName in armor ==> r == armor[armorName]
    ensures armorName !in armor ==> r == EnderiteHelmet
  {
    if armorName in armor then armor[armorName] else EnderiteHelmet
  }

  /** The names whose entries sit in the given slot. */
  function NamesInSlot(armor: map<string, ArmorStats>, slot: EquipmentType): (names: set<string>)
    ensures forall n :: n in names <==> n in armor && armor[n].slotType == slot
  {
    set n | n in armor && armor[n].slotType == slot
  }

  /** The seeded table holds one piece per slot except the body, with protections 4, 9, 7 and 4. */
  lemma SeededPieces()
    ensures ArmorLookup(SeededArmor, "enderite_helmet").protection == 4
    ensures ArmorLookup(SeededArmor, "enderite_chestplate").protection == 9
    ensures ArmorLookup(SeededArmor, "enderite_leggings").protection == 7
    ensures ArmorLookup(SeededArmor, "enderite_boots").protection == 4
    ensures NamesInSlot(SeededArmor, Helmet) == {"enderite_helmet"}
    ensures NamesInSlot(SeededArmor, Chestplate) == {"enderite_chestplate"}
    ensures NamesInSlot(SeededArmor, Leggings) == {"enderite_leggings"}
    ensures NamesInSlot(SeededArmor, Boots) == {"enderite_boots"}
    ensures NamesInSlot(SeededArmor, Body) == {}
  {
    assert SeededArmor.Keys == {"enderite_helmet", "enderite_chestplate", "enderite_leggings", "enderite_boots"};
  }

  /**
   * The state of a walk over the table's names: `rest` is still to visit, and `result`
   * holds one entry per visited name in the slot, each of that slot and from the table.
   */
  ghost predicate Collected(table: map<string, ArmorStats>, slot: EquipmentType, rest: set<string>,
                            result: seq<ArmorStats>)
  {
    && rest <= table.Keys
    && |result| == |NamesInSlot(table, slot) - rest|
    && (forall s :: s in result ==> s.slotType == slot && s in table.Values)
    && (forall name :: name in NamesInSlot(table, slot) - rest ==> table[name] in result)
  }

  /** Visiting one more name keeps the walk's state, its entry added when it is in the slot. */
  lemma CollectStep(table: map<string, ArmorStats>, slot: EquipmentType, rest: set<string>,
                    result: seq<ArmorStats>, name: string)
    requires Collected(table, slot, rest, result) && name in rest
    ensures Collected(table, slot, rest - {name},
                      if table[name].slotType == slot then result + [table[name]] else result)
  {
    if table[name].slotType == slot {
      CollectMatch(table, slot, rest, result, name);
    } else {
      assert NamesInSlot(table, slot) - (rest - {name}) == NamesInSlot(table, slot) - rest;
    }
  }

  /** A visited name in the slot adds its entry, once, at the end. */
  lemma CollectMatch(table: map<string, ArmorStats>, slot: EquipmentType, rest: set<string>,
                     result: seq<ArmorStats>, name: string)
    requires Collected(table, slot, rest, result) && name in rest && table[name].slotType == slot
    ensures Collected(table, slot, rest - {name}, result + [table[name]])
  {
    var seen, seen' := NamesInSlot(table, slot) - rest, NamesInSlot(table, slot) - (rest - {name});
    assert name !in seen && seen' == seen + {name};
    var result' := result + [table[name]];
    assert |result'| == |seen'|;
    assert table[name] in table.Values;
    assert forall s :: s in result' ==> s in result || s == table[name];
    forall n | n in seen'
      ensures table[n] in result'
    {
      if n != name {
        assert table[n] in result;
      }
    }
  }

  /** The armour table. The constructor is the static initializer. */
  class ArmorCache {
    var armor: map<string, ArmorStats>

    /** The four enderite pieces, each with toughness 4 and knockback resistance 0.1. */
    constructor ()
      ensures armor == SeededArmor
      ensures forall name :: name in armor ==> armor[name].toughness == 4.0 && armor[name].knockbackResistance == 0.1
    {
      armor := SeededArmor;
    }

    /** `trackArmor`, given the item's path and slot: protection 0 under that path, replacing any entry there. */
    method TrackArmor(itemPath: string, slot: EquipmentType)
      modifies this
      ensures armor == old(armor)[itemPath := NewArmorStats(itemPath, slot, 0)]
      ensures GetArmorStats(itemPath).protection == 0 && GetArmorStats(itemPath).slotType == slot
      ensures forall name :: name != itemPath ==> GetArmorStats(name) == old(GetArmorStats(name))
    {
      armor := armor[itemPath := NewArmorStats(itemPath, slot, 0)];
    }

    /** `getArmorStats`: the tracked entry, or the enderite helmet. */
    function GetArmorStats(armorName: string): (r: ArmorStats)
      reads this
      ensures r in armor.Values || r == EnderiteHelmet
    {
      ArmorLookup(armor, armorName)
    }

    /**
     * `getArmorBySlot`: one element per entry whose slot is the one asked for, in the
     * order the table is walked; exactly the entries of that slot appear.
     */
    method GetArmorBySlot(slot: EquipmentType) returns (result: seq<ArmorStats>)
      ensures |result| == |NamesInSlot(armor, slot)|
      ensures forall i :: 0 <= i < |result| ==> result[i].slotType == slot && result[i] in armor.Values
      ensures forall name :: name in NamesInSlot(armor, slot) ==> armor[name] in result
    {
      result := [];
      var table := armor;
      var rest := table.Keys;
      while rest != {}
        invariant Collected(table, slot, rest, result)
        decreases rest
      {
        var name :| name in rest;
        CollectStep(table, slot, rest, result, name);
        if table[name].slotType == slot {
          result := result + [table[name]];
        }
        rest := rest - {name};
      }
      assert NamesInSlot(table, slot) - rest == NamesInSlot(table, slot);
    }

    /** `getAllArmor`: the tracked statistics. */
    function GetAllArmor(): (r: set<ArmorStats>)
      reads this
      ensures forall s :: s in r <==> exists name :: name in armor && armor[name] == s
    {
      armor.Values
    }

    /** `clearProfile`: empties the table; lookups still answer with the enderite helmet. */
    method ClearProfile()
      modifies this
      ensures armor == map[]
      ensures forall name :: GetArmorStats(name) == EnderiteHelmet
    {
      armor := map[];
    }
  }
}
