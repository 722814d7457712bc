/**
 * WeaponProfile: weapon statistics by item name, seeded with the enderite, netherite
 * and iron swords and filled by tracking; unknown names answer with the iron sword.
 */
module WeaponProfile {

  /** Weapon statistics. */
  datatype WeaponStats = WeaponStats(itemName: string, weaponType: string, attackDamage: real, attackSpeed: real,
                                     knockback: real, material: string)

  /** `new WeaponStats(name, type, damage)`: the default sword speed -2.4, no knockback, material "unknown". */
  function NewWeaponStats(itemName: string, weaponType: string, attackDamage: real): (s: WeaponStats)
    ensures s.itemName == itemName && s.weaponType == weaponType && s.attackDamage == attackDamage
    ensures s.attackSpeed == -2.4 && s.knockback == 0.0 && s.material == "unknown"
  {
    WeaponStats(itemName, weaponType, attackDamage, -2.4, 0.0, "unknown")
  }

  const EnderiteSwordStats := NewWeaponStats("enderite_sword", "sword", 6.0)
  const NetheriteSwordStats := NewWeaponStats("netherite_sword", "sword", 8.0)
  const IronSwordStats := NewWeaponStats("iron_sword", "sword", 6.0)

  const SeededWeapons := map["enderite_sword" := EnderiteSwordStats, "netherite_sword" := NetheriteSwordStats,
                             "iron_sword" := IronSwordStats]

  /** `WEAPON_CACHE.getOrDefault(name, IRON_SWORD_STATS)` over a given table. */
  function WeaponLookup(weapons: map<string, WeaponStats>, weaponName: string): (r: WeaponStats)
    ensures weaponName in weapons ==> r == weapons[weaponName]
    ensures weaponName !in weapons ==> r == IronSwordStats
  {
    if weaponName in weapons then weapons[weaponName] else IronSwordStats
  }

  /**
   * Freshly seeded, the swords deal 6, 8 and 6; the enderite sword deals less than the
   * netherite one, and an unknown name gets the iron sword.
   */
  lemma SeededDamages(weaponName: string)
    ensures WeaponLookup(SeededWeapons, "enderite_sword").attackDamage == 6.0
    ensures WeaponLookup(SeededWeapons, "netherite_sword").attackDamage == 8.0
    ensures WeaponLookup(SeededWeapons, "iron_sword").attackDamage == 6.0
    ensures WeaponLookup(SeededWeapons, "enderite_sword").attackDamage
          < WeaponLookup(SeededWeapons, "netherite_sword").attackDamage
    ensures weaponName !in SeededWeapons ==> WeaponLookup(SeededWeapons, weaponName) == IronSwordStats
  {
  }

  /** The weapon table. The constructor is the static initializer. */
  class WeaponCache {
    var weapons: map<string, WeaponStats>

    /** The three seeded swords. */
    constructor ()
      ensures weapons == SeededWeapons
      ensures |weapons| == 3
    {
      weapons := SeededWeapons;
      new;
      assert weapons.Keys == {"enderite_sword", "netherite_sword", "iron_sword"};
    }

    /** `trackWeapon`, given the item's path: fresh statistics under that path, replacing any entry there. */
    method TrackWeapon(itemPath: string, weaponType: string, attackDamage: real)
      modifies this
      ensures weapons == old(weapons)[itemPath := NewWeaponStats(itemPath, weaponType, attackDamage)]
      ensures GetWeaponStats(itemPath).attackDamage == attackDamage
      ensures forall name :: name != itemPath ==> GetWeaponStats(name) == old(GetWeaponStats(name))
    {
      weapons := weapons[itemPath := NewWeaponStats(itemPath, weaponType, attackDamage)];
    }

    /** `getWeaponStats`: the tracked entry, or the iron sword. */
    function GetWeaponStats(weaponName: string): (r: WeaponStats)
      reads this
      ensures r in weapons.Values || r == IronSwordStats
    {
      WeaponLookup(weapons, weaponName)
    }

    /** `getAllWeapons`: the tracked statistics. */
    function GetAllWeapons(): (r: set<WeaponStats>)
      reads this
      ensures forall s :: s in r <==> exists name :: name in weapons && weapons[name] == s
    {
      weapons.Values
    }

    /** `clearProfile`: empties the table, after which every lookup gives the iron sword. */
    method ClearProfile()
      modifies this
      ensures weapons == map[]
      ensures forall name :: GetWeaponStats(name) == IronSwordStats
    {
      weapons := map[];
    }
  }
}
