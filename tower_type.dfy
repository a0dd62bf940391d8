/** The tower archetypes and their authored stat and upgrade tables
    (the `TowerType` enum). Float stats are modelled as `real`. */
module TowerTypes {

  datatype TowerType = Basic | Sniper | Rapid

  /** Purchase price of a tower of this type. */
  function Cost(t: TowerType): (c: int)
    ensures c > 0
    ensures t == Basic ==> c == 30
    ensures t == Sniper ==> c == 50
    ensures t == Rapid ==> c == 65
  {
    match t
    case Basic => 30
    case Sniper => 50
    case Rapid => 65
  }

  /** Damage per shot at level 0. */
  function BaseDamage(t: TowerType): (d: int)
    ensures d > 0
  {
    match t
    case Basic => 3
    case Sniper => 4
    case Rapid => 2
  }

  /** Range at level 0. */
  function BaseRange(t: TowerType): (r: real)
    ensures r > 0.0
  {
    match t
    case Basic => 2.5
    case Sniper => 4.0
    case Rapid => 2.5
  }

  /** Shots per second at level 0. */
  function BaseFireRate(t: TowerType): (f: real)
    ensures f > 0.0
  {
    match t
    case Basic => 1.0
    case Sniper => 0.6
    case Rapid => 1.5
  }

  /** Damage per upgrade level; entry k is level k + 1. */
  function UpgradedDamageTable(t: TowerType): seq<int>
  {
    match t
    case Basic => [5, 8]
    case Sniper => [8, 15]
    case Rapid => [3, 5]
  }

  /** Fire-rate multiplier per upgrade level. */
  function FireRateMultiplierTable(t: TowerType): seq<real>
  {
    match t
    case Basic => [1.1, 1.3]
    case Sniper => [0.7, 0.8]
    case Rapid => [1.7, 2.0]
  }

  /** Price of each upgrade level. */
  function UpgradeCostTable(t: TowerType): seq<int>
  {
    match t
    case Basic => [15, 25]
    case Sniper => [35, 45]
    case Rapid => [45, 50]
  }

  /** Range per upgrade level. */
  function UpgradedRangeTable(t: TowerType): seq<real>
  {
    match t
    case Basic => [3.0, 3.5]
    case Sniper => [5.0, 6.5]
    case Rapid => [2.8, 3.0]
  }

  /** True when `level` indexes one of the entries of a table of length `n`. */
  predicate InTable(level: int, n: int)
  {
    1 <= level <= n
  }

  /** Bounds-checked damage lookup: the table entry, or the base damage outside the table. */
  function UpgradedDamage(t: TowerType, level: int): (d: int)
    ensures InTable(level, |UpgradedDamageTable(t)|) ==> d == UpgradedDamageTable(t)[level - 1]
    ensures !InTable(level, |UpgradedDamageTable(t)|) ==> d == BaseDamage(t)
    ensures d > 0
  {
    if level <= 0 || level > |UpgradedDamageTable(t)| then BaseDamage(t)
    else UpgradedDamageTable(t)[level - 1]
  }

  /** Bounds-checked fire rate: base rate times the level's multiplier, or the base rate. */
  function UpgradedFireRate(t: TowerType, level: int): (f: real)
    ensures InTable(level, |FireRateMultiplierTable(t)|) ==>
              f == BaseFireRate(t) * FireRateMultiplierTable(t)[level - 1]
    ensures !InTable(level, |FireRateMultiplierTable(t)|) ==> f == BaseFireRate(t)
    ensures f > 0.0
  {
    if level <= 0 || level > |FireRateMultiplierTable(t)| then BaseFireRate(t)
    else BaseFireRate(t) * FireRateMultiplierTable(t)[level - 1]
  }

  /** Bounds-checked upgrade price: the table entry, or 0 outside the table. */
  function UpgradeCost(t: TowerType, level: int): (c: int)
    ensures InTable(level, |UpgradeCostTable(t)|) ==> c == UpgradeCostTable(t)[level - 1] && c > 0
    ensures !InTable(level, |UpgradeCostTable(t)|) ==> c == 0
  {
    if level <= 0 || level > |UpgradeCostTable(t)| then 0
    else UpgradeCostTable(t)[level - 1]
  }

  /** Bounds-checked range lookup: the table entry, or the base range. */
  function UpgradedRange(t: TowerType, level: int): (r: real)
    ensures InTable(level, |UpgradedRangeTable(t)|) ==> r == UpgradedRangeTable(t)[level - 1]
    ensures !InTable(level, |UpgradedRangeTable(t)|) ==> r == BaseRange(t)
    ensures r > 0.0
  {
    if level <= 0 || level > |UpgradedRangeTable(t)| then BaseRange(t)
    else UpgradedRangeTable(t)[level - 1]
  }

  /** Number of upgrade levels: the length of the upgrade-cost table (2 for every type). */
  function MaxUpgradeLevel(t: TowerType): (n: int)
    ensures n == |UpgradeCostTable(t)| && n == 2
  {
    |UpgradeCostTable(t)|
  }

  /** All four upgrade tables have one entry per upgrade level. */
  lemma TablesHaveOneEntryPerLevel(t: TowerType)
    ensures |UpgradedDamageTable(t)| == MaxUpgradeLevel(t)
    ensures |FireRateMultiplierTable(t)| == MaxUpgradeLevel(t)
    ensures |UpgradedRangeTable(t)| == MaxUpgradeLevel(t)
  {
  }

  /** Damage strictly grows with each upgrade: base < level 1 < level 2, for every type. */
  lemma DamageIncreasesWithLevel(t: TowerType)
    ensures BaseDamage(t) < UpgradedDamage(t, 1) < UpgradedDamage(t, 2)
  {
  }

  /** Range strictly grows with each upgrade, for every type. */
  lemma RangeIncreasesWithLevel(t: TowerType)
    ensures BaseRange(t) < UpgradedRange(t, 1) < UpgradedRange(t, 2)
  {
  }

  /** The sniper's fire-rate multipliers are below 1: its upgrades make it fire more slowly. */
  lemma SniperUpgradesLowerFireRate()
    ensures UpgradedFireRate(Sniper, 1) < BaseFireRate(Sniper)
    ensures UpgradedFireRate(Sniper, 2) < BaseFireRate(Sniper)
  {
  }
}
