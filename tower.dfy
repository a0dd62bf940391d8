/** A placed tower (`Tower`): its upgrade level and the stats derived from it, the
    investment bookkeeping, target selection, the fire-rate cooldown and the list of
    cosmetic projectiles in flight. Distances are float geometry and are inputs here:
    the distance from the tower to each enemy, and from each projectile to its target. */
module Towers {
  import opened Wrappers
  import opened TowerTypes
  import opened Paths
  import opened Enemies

  /** `MAX_LEVEL`: upgrades stop at this level whatever the type's table allows. */
  const MaxLevel: int := 2
  /** Seconds a projectile lives after it is created. */
  const ProjectileLifetime: real := 0.8
  /** Distance below which a projectile has arrived at its target. */
  const HitDistance: real := 0.3

  // ---------------------------------------------------------------------------
  // Stats per level

  datatype Stats = Stats(damage: int, range: real, fireRate: real)

  /** The stats `updateStats` assigns: the base stats at level 0, the upgraded lookups otherwise. */
  function StatsFor(t: TowerType, level: int): (s: Stats)
    ensures s.damage > 0 && s.range > 0.0 && s.fireRate > 0.0
  {
    if level == 0 then Stats(BaseDamage(t), BaseRange(t), BaseFireRate(t))
    else Stats(UpgradedDamage(t, level), UpgradedRange(t, level), UpgradedFireRate(t, level))
  }

  /** Level 0 has the base stats and levels 1 and 2 the authored upgrade entries; damage
      strictly increases from one level to the next. */
  lemma StatsForLevels(t: TowerType, level: int)
    requires 0 <= level <= MaxLevel
    ensures level == 0 ==> StatsFor(t, level) == Stats(BaseDamage(t), BaseRange(t), BaseFireRate(t))
    ensures level > 0 ==>
              StatsFor(t, level) ==
                Stats(UpgradedDamageTable(t)[level - 1], UpgradedRangeTable(t)[level - 1],
                      BaseFireRate(t) * FireRateMultiplierTable(t)[level - 1])
    ensures level < MaxLevel ==> StatsFor(t, level).damage < StatsFor(t, level + 1).damage
  {
    TablesHaveOneEntryPerLevel(t);
    DamageIncreasesWithLevel(t);
  }

  // ---------------------------------------------------------------------------
  // Investment

  /** Sum of the upgrade prices of levels 1 to `level`. */
  function UpgradeSpend(t: TowerType, level: int): (s: int)
    decreases level
    ensures s >= 0
    ensures level <= 0 ==> s == 0
  {
    if level <= 0 then 0 else UpgradeSpend(t, level - 1) + UpgradeCost(t, level)
  }

  /** Base price plus the price of every upgrade bought so far. */
  function TotalInvestment(t: TowerType, level: int): (r: int)
    ensures r >= Cost(t)
    ensures level <= 0 ==> r == Cost(t)
  {
    Cost(t) + UpgradeSpend(t, level)
  }

  /** Buying the next level adds exactly that level's price to the investment; buying
      past the table adds nothing, so the investment never exceeds base plus all upgrades. */
  lemma {:induction false} InvestmentGrowth(t: TowerType, level: int)
    requires level >= 0
    ensures TotalInvestment(t, level + 1) == TotalInvestment(t, level) + UpgradeCost(t, level + 1)
    ensures Cost(t) <= TotalInvestment(t, level)
    ensures TotalInvestment(t, level) <= Cost(t) + UpgradeCostTable(t)[0] + UpgradeCostTable(t)[1]
  {
    if level > 0 {
      InvestmentGrowth(t, level - 1);
    }
  }

  // ---------------------------------------------------------------------------
  // Target selection

  /** What targeting needs to know of an enemy: its liveness, whether it has finished
      the path, and its distance from the tower. */
  datatype Target = Target(alive: bool, finished: bool, distance: real)

  predicate Qualifies(e: Target, range: real)
  {
    e.alive && !e.finished && e.distance <= range
  }

  /** The choice after scanning the first n enemies: a qualifying enemy replaces the
      current choice only when it is strictly closer. */
  function NearestSoFar(ts: seq<Target>, range: real, n: nat): (r: Option<nat>)
    requires n <= |ts|
    ensures r.Some? ==> r.value < n
  {
    if n == 0 then None
    else
      var prev := NearestSoFar(ts, range, n - 1);
      if Qualifies(ts[n - 1], range) && (prev.None? || ts[n - 1].distance < ts[prev.value].distance)
      then Some(n - 1)
      else prev
  }

  function Nearest(ts: seq<Target>, range: real): (r: Option<nat>)
    ensures r.Some? ==> r.value < |ts|
  {
    NearestSoFar(ts, range, |ts|)
  }

  /** The independent description of the choice among the first n enemies: none when
      none qualifies; otherwise a qualifying one at least as close as every qualifying
      one, and strictly closer than every qualifying one before it. */
  ghost predicate IsFirstNearest(ts: seq<Target>, range: real, n: nat, r: Option<nat>)
    requires n <= |ts|
  {
    if r.None? then forall j :: 0 <= j < n ==> !Qualifies(ts[j], range)
    else
      && r.value < n
      && Qualifies(ts[r.value], range)
      && (forall j :: 0 <= j < n && Qualifies(ts[j], range) ==> ts[r.value].distance <= ts[j].distance)
      && (forall j :: 0 <= j < r.value && Qualifies(ts[j], range) ==> ts[r.value].distance < ts[j].distance)
  }

  lemma {:induction false} NearestSoFarIsFirstNearest(ts: seq<Target>, range: real, n: nat)
    requires n <= |ts|
    ensures IsFirstNearest(ts, range, n, NearestSoFar(ts, range, n))
  {
    if n > 0 {
      NearestSoFarIsFirstNearest(ts, range, n - 1);
    }
  }

  /** At most one choice meets the description, so it pins the choice down. */
  lemma FirstNearestIsUnique(ts: seq<Target>, range: real, n: nat, r1: Option<nat>, r2: Option<nat>)
    requires n <= |ts|
    requires IsFirstNearest(ts, range, n, r1) && IsFirstNearest(ts, range, n, r2)
    ensures r1 == r2
  {
  }

  /** The targeting the scan performs, which is exactly the first-nearest qualifying enemy. */
  lemma NearestIsFirstNearest(ts: seq<Target>, range: real)
    ensures IsFirstNearest(ts, range, |ts|, Nearest(ts, range))
    ensures Nearest(ts, range).None? <==> forall j :: 0 <= j < |ts| ==> !Qualifies(ts[j], range)
  {
    NearestSoFarIsFirstNearest(ts, range, |ts|);
  }

  /** `findNearestEnemyInRange`: nothing for an empty list; otherwise a scan that keeps
      the closest qualifying enemy found so far, replacing it only when strictly closer. */
  method FindNearestEnemyInRange(ts: seq<Target>, range: real) returns (nearest: Option<nat>)
    ensures nearest == Nearest(ts, range)
    ensures nearest.None? <==> forall j :: 0 <= j < |ts| ==> !Qualifies(ts[j], range)
    ensures nearest.Some? ==>
              && nearest.value < |ts| && Qualifies(ts[nearest.value], range)
              && (forall j :: 0 <= j < |ts| && Qualifies(ts[j], range) ==>
                    ts[nearest.value].distance <= ts[j].distance)
              && (forall j :: 0 <= j < nearest.value && Qualifies(ts[j], range) ==>
                    ts[nearest.value].distance < ts[j].distance)
  {
    if |ts| == 0 {
      return None;
    }
    nearest := None;
    var minDistance: real := 0.0;
    for i := 0 to |ts|
      invariant nearest == NearestSoFar(ts, range, i)
      invariant nearest.Some? ==> minDistance == ts[nearest.value].distance
    {
      var e := ts[i];
      if e.alive && !e.finished {
        var distance := e.distance;
        if distance <= range && (nearest.None? || distance < minDistance) {
          nearest := Some(i);
          minDistance := distance;
        }
      }
    }
    NearestIsFirstNearest(ts, range);
  }

  // ---------------------------------------------------------------------------
  // Projectiles

  /** A cosmetic projectile: remaining lifetime and the enemy it homes in on. */
  datatype Projectile = Projectile(lifetime: real, target: Enemy)

  /** Every projectile's lifetime lowered by `tpf`. */
  function Aged(ps: seq<Projectile>, tpf: real): (r: seq<Projectile>)
    ensures |r| == |ps|
    ensures forall i :: 0 <= i < |ps| ==> r[i] == ps[i].(lifetime := ps[i].lifetime - tpf)
  {
    seq(|ps|, i requires 0 <= i < |ps| => ps[i].(lifetime := ps[i].lifetime - tpf))
  }

  /** An (aged) projectile is removed when its life is over, its target is dead, or it
      is within `HitDistance` of its target. */
  predicate Retires(p: Projectile, targetAlive: bool, distance: real)
  {
    p.lifetime <= 0.0 || !targetAlive || distance < HitDistance
  }

  /** The elements whose flag is false, in order: a batched removal. */
  function Unmarked<T>(s: seq<T>, marked: seq<bool>): (r: seq<T>)
    requires |marked| == |s|
    ensures |r| <= |s|
  {
    if |s| == 0 then []
    else
      var n := |s| - 1;
      Unmarked(s[..n], marked[..n]) + (if marked[n] then [] else [s[n]])
  }

  lemma {:induction false} UnmarkedMembership<T>(s: seq<T>, marked: seq<bool>, x: T)
    requires |marked| == |s|
    ensures |Unmarked(s, marked)| <= |s|
    ensures x in Unmarked(s, marked) <==> exists i :: 0 <= i < |s| && !marked[i] && s[i] == x
  {
    if |s| > 0 {
      var n := |s| - 1;
      UnmarkedMembership(s[..n], marked[..n], x);
      if !marked[n] && s[n] == x {
        assert x in Unmarked(s, marked);
      }
    }
  }

  /** Flags of the projectiles to remove, after ageing. */
  function RetireFlags(aged: seq<Projectile>, targetAlive: seq<bool>, distances: seq<real>): (f: seq<bool>)
    requires |targetAlive| == |aged| && |distances| == |aged|
    ensures |f| == |aged|
  {
    seq(|aged|, i requires 0 <= i < |aged| => Retires(aged[i], targetAlive[i], distances[i]))
  }

  /** One frame of projectile bookkeeping: age every projectile, then remove, in one batch,
      those that expired, lost their target or arrived. */
  function Pruned(ps: seq<Projectile>, tpf: real, targetAlive: seq<bool>, distances: seq<real>): (r: seq<Projectile>)
    requires |targetAlive| == |ps| && |distances| == |ps|
    ensures |r| <= |ps|
  {
    var aged := Aged(ps, tpf);
    Unmarked(aged, RetireFlags(aged, targetAlive, distances))
  }

  /** Pruning never adds a projectile: a projectile is kept, aged by `tpf`, exactly when
      it does not retire; every kept projectile still has life left and a living target. */
  lemma PrunedKeepsExactlySurvivors(ps: seq<Projectile>, tpf: real, targetAlive: seq<bool>,
                                    distances: seq<real>, q: Projectile)
    requires |targetAlive| == |ps| && |distances| == |ps|
    ensures |Pruned(ps, tpf, targetAlive, distances)| <= |ps|
    ensures q in Pruned(ps, tpf, targetAlive, distances) <==>
              exists i :: 0 <= i < |ps| && q == ps[i].(lifetime := ps[i].lifetime - tpf)
                          && !Retires(q, targetAlive[i], distances[i])
    ensures q in Pruned(ps, tpf, targetAlive, distances) ==> q.lifetime > 0.0
  {
    var aged := Aged(ps, tpf);
    UnmarkedMembership(aged, RetireFlags(aged, targetAlive, distances), q);
  }

  /** Liveness of every projectile's target, read from the enemies. */
  function TargetsAlive(ps: seq<Projectile>): (r: seq<bool>)
    reads set i | 0 <= i < |ps| :: ps[i].target
    ensures |r| == |ps|
  {
    seq(|ps|, i requires 0 <= i < |ps| reads set j | 0 <= j < |ps| :: ps[j].target => ps[i].target.alive)
  }

  /** What targeting sees of each enemy, given the distance from the tower to each. */
  function Targets(es: seq<Enemy>, distances: seq<real>): (r: seq<Target>)
    requires |distances| == |es|
    reads es
    ensures |r| == |es|
  {
    seq(|es|, i requires 0 <= i < |es| reads es => Target(es[i].alive, es[i].HasFinishedPath(), distances[i]))
  }

  // ---------------------------------------------------------------------------
  // The tower

  class Tower {
    const towerType: TowerType
    const cell: Cell
    var level: int
    var damage: int
    var range: real
    var fireRate: real
    var fireTimer: real
    var projectiles: seq<Projectile>

    /** The level lies within 0..MAX_LEVEL and the stats are those of the level. */
    ghost predicate Valid()
      reads this
    {
      && 0 <= level <= MaxLevel
      && Stats(damage, range, fireRate) == StatsFor(towerType, level)
    }

    /** A new level-0 tower with the base stats, a cleared cooldown and no projectiles. */
    constructor (position: Cell, t: TowerType)
      ensures Valid()
      ensures towerType == t && cell == position
      ensures level == 0 && fireTimer == 0.0 && projectiles == []
      ensures damage == BaseDamage(t) && range == BaseRange(t) && fireRate == BaseFireRate(t)
    {
      towerType := t;
      cell := position;
      level := 0;
      fireTimer := 0.0;
      projectiles := [];
      new;
      UpdateStats();
    }

    /** `updateStats`: recomputes damage, range and fire rate from the level;
        the cooldown accumulator and the projectiles are untouched. */
    method UpdateStats()
      modifies this
      ensures Stats(damage, range, fireRate) == StatsFor(towerType, level)
      ensures level == old(level) && fireTimer == old(fireTimer) && projectiles == old(projectiles)
    {
      if level == 0 {
        range := BaseRange(towerType);
        fireRate := BaseFireRate(towerType);
        damage := BaseDamage(towerType);
      } else {
        damage := UpgradedDamage(towerType, level);
        fireRate := UpgradedFireRate(towerType, level);
        range := UpgradedRange(towerType, level);
      }
    }

    /** `canUpgrade`: below MAX_LEVEL and below the type's number of upgrade levels,
        which for every type means below level 2. */
    function CanUpgrade(): (r: bool)
      reads this
      ensures r <==> level < MaxLevel && level < MaxUpgradeLevel(towerType)
      ensures r <==> level < 2
    {
      level < MaxLevel && level < MaxUpgradeLevel(towerType)
    }

    /** `getUpgradeCost`: the price of the next level, which is positive exactly when the
        tower can still be upgraded and 0 at the maximum level. */
    function GetUpgradeCost(): (c: int)
      requires Valid()
      reads this
      ensures c == UpgradeCost(towerType, level + 1)
      ensures c > 0 <==> CanUpgrade()
      ensures !CanUpgrade() ==> c == 0
    {
      UpgradeCost(towerType, level + 1)
    }

    /** `getTotalInvestment`: the base price plus the prices of levels 1..level, summed in a loop. */
    method GetTotalInvestment() returns (total: int)
      ensures total == TotalInvestment(towerType, level)
    {
      var baseCost := Cost(towerType);
      var upgradeCost := 0;
      var i := 1;
      while i <= level
        invariant 1 <= i && (level >= 1 ==> i <= level + 1) && (level < 1 ==> i == 1)
        invariant upgradeCost == UpgradeSpend(towerType, i - 1)
      {
        upgradeCost := upgradeCost + UpgradeCost(towerType, i);
        i := i + 1;
      }
      total := baseCost + upgradeCost;
    }

    /** `upgrade`: refused, changing nothing, at MAX_LEVEL or the type's last level;
        otherwise raises the level by one and recomputes the stats. The success case
        raises the total investment by the pre-upgrade `getUpgradeCost`. */
    method Upgrade() returns (ok: bool)
      requires Valid()
      modifies this
      ensures Valid()
      ensures ok == old(CanUpgrade())
      ensures !ok ==> level == old(level) && damage == old(damage) && range == old(range)
                      && fireRate == old(fireRate)
      ensures ok ==> level == old(level) + 1
      ensures ok ==> TotalInvestment(towerType, level) ==
                     old(TotalInvestment(towerType, level)) + old(GetUpgradeCost())
      ensures fireTimer == old(fireTimer) && projectiles == old(projectiles)
    {
      if level >= MaxLevel || level >= MaxUpgradeLevel(towerType) {
        return false;
      }
      level := level + 1;
      UpdateStats();
      InvestmentGrowth(towerType, level - 1);
      return true;
    }

    /** `updateProjectiles`: ages every projectile in place, marks those that expired,
        whose target died or that arrived, then removes the marked ones in one batch. */
    method UpdateProjectiles(tpf: real, distances: seq<real>)
      requires |distances| == |projectiles|
      modifies this
      ensures projectiles == Pruned(old(projectiles), tpf, old(TargetsAlive(projectiles)), distances)
      ensures level == old(level) && damage == old(damage) && range == old(range)
      ensures fireRate == old(fireRate) && fireTimer == old(fireTimer)
    {
      ghost var alive := TargetsAlive(projectiles);
      var toRemove: seq<bool> := [];
      for i := 0 to |projectiles|
        invariant |projectiles| == |old(projectiles)|
        invariant forall k :: 0 <= k < i ==> projectiles[k] == Aged(old(projectiles), tpf)[k]
        invariant forall k :: i <= k < |projectiles| ==> projectiles[k] == old(projectiles)[k]
        invariant |toRemove| == i
        invariant forall k :: 0 <= k < i ==> toRemove[k] == Retires(projectiles[k], alive[k], distances[k])
        invariant level == old(level) && damage == old(damage) && range == old(range)
        invariant fireRate == old(fireRate) && fireTimer == old(fireTimer)
      {
        var p := projectiles[i];
        p := p.(lifetime := p.lifetime - tpf);
        projectiles := projectiles[i := p];
        if p.lifetime <= 0.0 || !p.target.alive {
          toRemove := toRemove + [true];
        } else if distances[i] < HitDistance {
          toRemove := toRemove + [true];
        } else {
          toRemove := toRemove + [false];
        }
      }
      assert projectiles == Aged(old(projectiles), tpf);
      assert toRemove == RetireFlags(projectiles, alive, distances);
      projectiles := Unmarked(projectiles, toRemove);
    }

    /** `update`: adds `tpf` to the cooldown accumulator and updates the projectiles; when
        the accumulator has reached 1/fireRate and an enemy qualifies, damages the nearest
        one once, launches a projectile at it and clears the accumulator. With no target
        the accumulated time is kept. */
    method Update(tpf: real, enemies: seq<Enemy>, distances: seq<real>, projectileDistances: seq<real>)
      requires Valid()
      requires |distances| == |enemies| && |projectileDistances| == |projectiles|
      requires forall e | e in enemies :: e.Valid()
      modifies this, enemies
      ensures Valid()
      ensures level == old(level) && damage == old(damage) && range == old(range) && fireRate == old(fireRate)
      ensures forall e | e in enemies :: e.Valid()
      ensures forall e | e in enemies ::
                && e.currentWaypoint == old(e.currentWaypoint)
                && e.health <= old(e.health) && (!old(e.alive) ==> !e.alive)
      ensures var kept := Pruned(old(projectiles), tpf, old(TargetsAlive(projectiles)), projectileDistances);
              var pick := old(Nearest(Targets(enemies, distances), range));
              var timer := old(fireTimer) + tpf;
              if timer >= 1.0 / fireRate && pick.Some? then
                var target := enemies[pick.value];
                && fireTimer == 0.0
                && projectiles == kept + [Projectile(ProjectileLifetime, target)]
                && target.health == old(target.health) - damage
                && target.alive == (old(target.alive) && target.health > 0)
                && target.currentWaypoint == old(target.currentWaypoint)
                && forall e | e in enemies && e != target :: unchanged(e)
              else
                && fireTimer == timer
                && projectiles == kept
                && forall e | e in enemies :: unchanged(e)
    {
      fireTimer := fireTimer + tpf;
      UpdateProjectiles(tpf, projectileDistances);
      if fireTimer >= 1.0 / fireRate {
        var target := FindNearestEnemyInRange(Targets(enemies, distances), range);
        if target.Some? {
          ShootAt(enemies[target.value]);
          CreateProjectile(enemies[target.value]);
          fireTimer := 0.0;
        }
      }
    }

    /** `shootAt`: the damage of one shot, applied to the target at once. */
    method ShootAt(target: Enemy)
      requires target.Valid()
      modifies target
      ensures target.Valid()
      ensures target.health == old(target.health) - damage
      ensures target.alive == (old(target.alive) && target.health > 0)
      ensures target.currentWaypoint == old(target.currentWaypoint)
    {
      target.TakeDamage(damage);
    }

    /** The bookkeeping part of `createProjectile`: one more projectile with a full lifetime. */
    method CreateProjectile(target: Enemy)
      modifies this
      ensures projectiles == old(projectiles) + [Projectile(ProjectileLifetime, target)]
      ensures level == old(level) && damage == old(damage) && range == old(range)
      ensures fireRate == old(fireRate) && fireTimer == old(fireTimer)
    {
      projectiles := projectiles + [Projectile(ProjectileLifetime, target)];
    }
  }
}
