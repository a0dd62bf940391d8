# Tower defense session, modelled in Dafny

This project models the game logic of a small jMonkeyEngine tower-defense game
(package `mygame`). Enemies walk a fixed route of waypoints. The player places towers
beside the route with money. Towers shoot the nearest living enemy in range. A wave
director spawns enemies in timed waves. Each kill pays a flat reward.

The modules follow the source's classes. The exceptions are `Waves`, which holds the wave
director of `Main` as a pure step function, and `Wrappers`, which holds the option type.
`Game` holds the rest of `Main`.

- `TowerTypes` (`TowerType`): the three tower archetypes, their base stats and their
  per-level upgrade tables, with the bounds-checked lookups.
- `EnemyTypes` (`EnemyType`): the three enemy archetypes' health, speed and reward.
- `Paths` (`Path`): the route's 20 waypoints and its grid cells.
  - The cells are built segment by segment as inclusive runs of integer cells, and then
    de-duplicated, keeping the first occurrence of each cell.
  - Both steps are imperative methods, each proved equal to a recursive specification
    function (`Segments`, `Dedup`, `Rasterize`).
  - The lemmas about those functions state membership, absence of duplicates and the
    order of first occurrence.
- `Enemies` (`Enemy`): a class with health, liveness and the waypoint index; damage and
  the per-frame waypoint advance.
- `Towers` (`Tower`): a class with level, stats, cooldown accumulator and projectile list.
  - Upgrades and the investment sum.
  - Targeting: a loop proved equal to a first-nearest specification, which is proved to
    pin the choice down uniquely.
  - The fire gate.
  - Projectile ageing and batched removal.
- `Waves`: `manageWaves`/`startNewWave` as a pure step function on the wave counters, with
  its invariant. `Game.Session.ManageWaves` is the imperative version, proved to follow
  the step function.
- `Game` (`Main`): the session class, with its money, score, wave counters, towers and enemies.
  - The placement rule and the two placement handlers.
  - Spawning.
  - The per-frame update (`simpleUpdate`): the wave director, then the enemy walk with
    removal and reward, then each tower in list order.

Float geometry is not modelled. Instead, the caller supplies it as inputs:

- the integer cell hit by the mouse ray (`None` when the ray misses the terrain);
- each enemy's distance to its current waypoint;
- each tower's distance to each enemy;
- each projectile's distance to its target.

Other inputs:

- The frame time `tpf` and all timers are `real` seconds.
- The hellhound coin flip of `spawnEnemy` is a `bool` parameter.
- The tower type selected in the user interface is a parameter.

The model keeps these behaviours of the code as written:

- A removed dead enemy pays a flat 10 money and 5 score, whatever its type's reward field
  says (`Game.KillMoney`, `Game.KillScore`). An enemy that escapes costs and pays nothing.
- Starting a wave clears the wave timer and the spawned count, but not the spawn timer.
- The path test of `isValidTowerPosition` compares tiles with the candidate cell shifted
  by `MAP_SIZE / 2` = 15. On this route it never rejects anything (`Game.ShiftedPathCheckNeverRejects`), so
  towers may stand on in-bounds path tiles such as (-4, 0) (`Game.InBoundsPathTile`).
- `placeTowerAtCursor` also refuses to build below the flat `TOWER_COST` of 50. A 30-money
  basic tower therefore cannot be placed this way with 40 money. One left click runs both
  handlers, though: the press goes to `placeTowerAtCursor` and the release to
  `placeTowerAtMousePosition`, so with 40 money the same click still places the basic
  tower on release.
- The first basic tower at (2, 3) is placed without paying for it.
- `upgrade` changes the tower only and never charges money, and nothing in the session
  calls it.

The game as written also lacks several features a tower-defense game often has:

- There is no selling and no refund.
- There are no lives, escape counter or terminal "ended" state.
- Kills pay a flat sum instead of the archetype's reward.
- Upgrades are not paid for.
- Enemies are not scaled per wave.

## Model

| member | source | states |
|---|---|---|
| TowerTypes.Cost | src/mygame/towers/TowerType.java:6-24 | base prices are 30, 50 and 65, all positive |
| TowerTypes.BaseDamage | src/mygame/towers/TowerType.java:6-24 | base damage is positive for every type |
| TowerTypes.BaseRange | src/mygame/towers/TowerType.java:6-24 | base range is positive for every type |
| TowerTypes.BaseFireRate | src/mygame/towers/TowerType.java:6-24 | base fire rate is positive for every type |
| TowerTypes.UpgradedDamage | src/mygame/towers/TowerType.java:71-74 | entry level-1 of the damage table for 1 <= level <= length, the base damage otherwise; always positive |
| TowerTypes.UpgradedFireRate | src/mygame/towers/TowerType.java:76-79 | base rate times multiplier level-1 inside the table, the base rate otherwise; always positive |
| TowerTypes.UpgradeCost | src/mygame/towers/TowerType.java:80-83 | entry level-1 of the price table inside it, and then positive; 0 outside it |
| TowerTypes.UpgradedRange | src/mygame/towers/TowerType.java:85-88 | entry level-1 of the range table inside it, the base range otherwise; always positive |
| TowerTypes.MaxUpgradeLevel | src/mygame/towers/TowerType.java:90-92 | the length of the upgrade-price table, which is 2 for every type |
| TowerTypes.TablesHaveOneEntryPerLevel | src/mygame/towers/TowerType.java:6-24 | the damage, multiplier and range tables all have one entry per upgrade level |
| TowerTypes.DamageIncreasesWithLevel | src/mygame/towers/TowerType.java:6-24 | damage strictly increases base < level 1 < level 2 for every type |
| TowerTypes.RangeIncreasesWithLevel | src/mygame/towers/TowerType.java:6-24 | range strictly increases with each level for every type |
| TowerTypes.SniperUpgradesLowerFireRate | src/mygame/towers/TowerType.java:13-18 | both sniper upgrades fire more slowly than the base rate |
| EnemyTypes.Health | src/mygame/enemies/EnemyType.java:6-8 | health 100, 200, 500 for basic, hellhound, tank; always positive |
| EnemyTypes.Speed | src/mygame/enemies/EnemyType.java:6-8 | every speed is positive |
| EnemyTypes.Reward | src/mygame/enemies/EnemyType.java:6-8 | reward 10, 25, 40 for basic, hellhound, tank; always positive |
| EnemyTypes.TougherIsWorthMore | src/mygame/enemies/EnemyType.java:6-8 | health and reward both order basic < hellhound < tank |
| Paths.SegmentMembership | src/mygame/map/Path.java:77-92 | a segment's cells are exactly the cells between its ends inclusive when it is axis-aligned; a diagonal segment gives none |
| Paths.SegmentsMembership | src/mygame/map/Path.java:67-93 | a cell is in the raw list of the first n segments exactly when it lies on one of them |
| Paths.DedupElements | src/mygame/map/Path.java:95-108 | de-duplication keeps every cell and adds none |
| Paths.DedupDistinct | src/mygame/map/Path.java:95-108 | the de-duplicated list has no repeated cell |
| Paths.DedupKeepsFirstOccurrenceOrder | src/mygame/map/Path.java:95-108 | de-duplicated cells come from the input and appear in the order of their first occurrence |
| Paths.RasterizeMembership | src/mygame/map/Path.java:64-111 | a cell is a path cell exactly when it lies on some segment of the route |
| Paths.WaypointFacts | src/mygame/map/Path.java:20-58 | 20 waypoints from (-9,0) to (9,3), consecutive ones share x or z, x within -9..9 and z within 0..5 |
| Paths.RouteWithinBounds | src/mygame/map/Path.java:24-57 | any list equal to the route has every x within -9..9 and z within 0..5 |
| Paths.PathCellsWithinX | src/mygame/map/Path.java:64-111 | every path cell's x lies within the range of the waypoints' x |
| Paths.CreatePath | src/mygame/map/Path.java:20-58 | the appended waypoints are exactly the route |
| Paths.AppendSegment | src/mygame/map/Path.java:68-92 | the two inclusive loops append exactly the segment's cells |
| Paths.SegmentCoordinates | src/mygame/map/Path.java:64-93 | the segment loop builds the raw cell list of all segments |
| Paths.UniqueCoordinates | src/mygame/map/Path.java:95-108 | the flagged inner scan produces the de-duplicated list |
| Paths.CreatePathCoordinates | src/mygame/map/Path.java:60-112 | the result is the rasterised route, has no duplicates, and holds exactly the cells on some segment |
| Paths.Path.constructor | src/mygame/map/Path.java:12-18 | the waypoints are the route and the path cells are its rasterisation |
| Paths.Path.IsOnPath | src/mygame/map/Path.java:132-139 | true exactly when (x, z) is one of the path cells |
| Enemies.Enemy.constructor | src/mygame/enemies/Enemy.java:47-54 | health = maxHealth = the type's health, speed and reward from the type, alive, at waypoint 0, consistent |
| Enemies.Enemy.IsAlive | src/mygame/enemies/Enemy.java:402-402 | reports the liveness flag; a living enemy in a consistent state has health left |
| Enemies.Enemy.HasFinishedPath | src/mygame/enemies/Enemy.java:405-408 | true exactly when the waypoint index has reached the number of waypoints |
| Enemies.Enemy.TakeDamage | src/mygame/enemies/Enemy.java:312-338 | health drops by exactly the damage, the enemy is alive afterwards iff it was and health stays positive, a dead enemy stays dead |
| Enemies.Enemy.Update | src/mygame/enemies/Enemy.java:260-292 | no change when dead or past the last waypoint; otherwise the index rises by one exactly when the distance is below 0.1; never more than one, index never passes the end |
| Towers.StatsFor | src/mygame/towers/Tower.java:99-111 | the stats of any level are positive |
| Towers.StatsForLevels | src/mygame/towers/Tower.java:99-111 | level 0 has the base stats, levels 1 and 2 the authored table entries, and damage rises from each level to the next |
| Towers.UpgradeSpend | src/mygame/towers/Tower.java:598-601 | the summed upgrade prices are never negative, and 0 at level 0 |
| Towers.TotalInvestment | src/mygame/towers/Tower.java:594-604 | the investment is at least the base price, and exactly it at level 0 |
| Towers.InvestmentGrowth | src/mygame/towers/Tower.java:594-604 | buying the next level adds exactly its price, and the investment lies between the base price and base plus both upgrades |
| Towers.NearestSoFarIsFirstNearest | src/mygame/towers/Tower.java:449-469 | the scan of the first n enemies picks the first-nearest qualifying one, or none when none qualifies |
| Towers.FirstNearestIsUnique | src/mygame/towers/Tower.java:449-469 | at most one choice is the first-nearest qualifying enemy |
| Towers.NearestIsFirstNearest | src/mygame/towers/Tower.java:449-469 | the targeting choice is the first-nearest qualifying enemy, and is none exactly when none qualifies |
| Towers.FindNearestEnemyInRange | src/mygame/towers/Tower.java:449-469 | none iff no enemy is alive, unfinished and within range; otherwise a qualifying enemy no farther than any qualifying one and strictly nearer than every qualifying one before it |
| Towers.Aged | src/mygame/towers/Tower.java:405-406 | every projectile's lifetime is lowered by tpf, nothing else changes |
| Towers.UnmarkedMembership | src/mygame/towers/Tower.java:446-446 | the batched removal keeps exactly the unmarked elements and never grows the list |
| Towers.Pruned | src/mygame/towers/Tower.java:400-447 | ageing and pruning never lengthen the projectile list |
| Towers.PrunedKeepsExactlySurvivors | src/mygame/towers/Tower.java:400-447 | a projectile survives, aged, exactly when it did not expire, lose its target or arrive within 0.3; none is added; every survivor has life left |
| Towers.Tower.constructor | src/mygame/towers/Tower.java:71-96 | level 0 with the base stats, cleared cooldown, no projectiles |
| Towers.Tower.UpdateStats | src/mygame/towers/Tower.java:99-111 | the stats become those of the level; level, cooldown and projectiles are untouched |
| Towers.Tower.CanUpgrade | src/mygame/towers/Tower.java:586-588 | true exactly when below MAX_LEVEL and the type's level count, i.e. below level 2 |
| Towers.Tower.GetUpgradeCost | src/mygame/towers/Tower.java:583-585 | the price of the next level, positive exactly when the tower can upgrade, 0 otherwise |
| Towers.Tower.GetTotalInvestment | src/mygame/towers/Tower.java:594-604 | the loop sums the base price and the prices of levels 1 to level |
| Towers.Tower.Upgrade | src/mygame/towers/Tower.java:607-623 | succeeds exactly when the tower could upgrade; a refusal changes nothing; a success raises the level by one, keeps the stats consistent and raises the investment by the pre-upgrade price; cooldown and projectiles untouched |
| Towers.Tower.UpdateProjectiles | src/mygame/towers/Tower.java:400-447 | the new list is the old one aged and pruned, judged by the targets' liveness before the frame; the stats and cooldown are untouched |
| Towers.Tower.Update | src/mygame/towers/Tower.java:366-398 | fires exactly when the accumulated time reaches 1/fireRate and a target qualifies: the nearest target loses exactly damage once, one projectile is added and the time is cleared; otherwise the time is kept and no enemy changes |
| Towers.Tower.ShootAt | src/mygame/towers/Tower.java:471-472 | the target loses exactly the tower's damage once, dying when health reaches 0 |
| Towers.Tower.CreateProjectile | src/mygame/towers/Tower.java:482-530 | one projectile with lifetime 0.8 aimed at the target is appended |
| Waves.WaveStep | src/mygame/Main.java:400-423 | a spawn happens only while a wave is in progress and short of its size; the spawned count rises by one on a spawn, is cleared when a wave starts and is kept otherwise; the wave number rises by at most one |
| Waves.WaveTimersAccumulate | src/mygame/Main.java:402-415 | while a wave is short, an enemy spawns iff the spawn timer plus tpf reaches 1.5 s, and the spawn timer is then cleared and otherwise accumulated; while resting and not starting, the wave timer accumulates tpf |
| Waves.WaveSizeIncreases | src/mygame/Main.java:416-421 | each wave is larger than the one before |
| Waves.WaveStepKeepsInvariant | src/mygame/Main.java:400-423 | a frame keeps the wave number >= 1, the size formula, and the spawned count within the size; a spawn happens only while short and adds exactly one |
| Waves.WaveEndsOnlyWhenCleared | src/mygame/Main.java:416-421 | a wave ends iff it is in progress, fully spawned and no enemy is left; the wave number then rises by one and the size grows |
| Waves.WaveStartKeepsSpawnTimer | src/mygame/Main.java:400-429 | a wave starts iff resting and the timer plus tpf reaches 5 s; the wave timer and spawned count are cleared, the spawn timer is kept |
| Waves.WaveRunKeepsInvariant | src/mygame/Main.java:400-423 | over any sequence of frames the invariant holds and the wave number never decreases |
| Waves.FirstWaveStartsAfterDelay | src/mygame/Main.java:402-407 | from the initial counters, 4.9 s of rest start nothing and 0.2 s more start wave 1 |
| Game.ShiftedCellMissesRoute | src/mygame/Main.java:292-301 | for a route with x within -9..9, no in-bounds cell's shifted cell is a path cell |
| Game.ShiftedPathCheckNeverRejects | src/mygame/Main.java:292-301 | on the game's route the path comparison never rejects an in-bounds cell |
| Game.InBoundsPathTile | src/mygame/Main.java:292-301 | (-4, 0) is a path cell inside the bounds and off the first tower's cell |
| Game.RemoveAll | src/mygame/Main.java:340-340 | removeAll never lengthens the list (what it keeps is stated by RemoveAllMembership) |
| Game.RemoveAllMembership | src/mygame/Main.java:340-340 | an element survives removeAll exactly when it was in the list and not among the removed |
| Game.RemoveAllKeepsDistinct | src/mygame/Main.java:340-340 | removeAll keeps a list of distinct elements distinct |
| Game.MarkedAreDeparting | src/mygame/Main.java:321-334 | the enemies collected for removal are exactly those dead or past the end of the route |
| Game.KillsAreDeparting | src/mygame/Main.java:322-334 | the number of paid kills never exceeds the number collected, and is 0 when every enemy is alive |
| Game.KeptStayValid | src/mygame/Main.java:336-340 | the remaining enemies stay distinct, consistent and on the route |
| Game.AppendedPruned | src/mygame/Main.java:316-340 | appending an enemy not yet listed adds it at the end of what the removal keeps, unless it is marked for removal |
| Game.SpawnThenPrune | src/mygame/Main.java:316-340 | after the wave director appends at most one living enemy at waypoint 0, the removal keeps what it would have kept before, followed by that enemy unless the route is empty, and pays for the same kills |
| Game.VisitEnemy | src/mygame/Main.java:322-333 | an enemy departs iff it is dead or past the end, is a kill iff dead; only a staying enemy walks one frame |
| Game.WalkEnemies | src/mygame/Main.java:321-334 | collects exactly the departing enemies in list order, counts the dead ones, and walks each staying enemy once |
| Game.Session.PathTilesAreAccepted | src/mygame/Main.java:281-313 | an in-bounds path tile without a tower passes the placement rule |
| Game.Session.PlacementOnRoute | src/mygame/Main.java:281-313 | on the session's route the placement rule is bounds and occupancy alone |
| Game.Session.constructor | src/mygame/Main.java:40-88 | 200 money, 0 score, wave 1 of 5 resting, no enemies, one level-0 basic tower at (2,3), nothing paid |
| Game.Session.IsValidTowerPosition | src/mygame/Main.java:281-313 | true exactly when the cell is in bounds, its shifted cell is no path tile and no tower stands on it |
| Game.Session.AddTower | src/mygame/Main.java:212-218 | a fresh level-0 tower of the type is appended on the cell and exactly its cost is paid; money stays non-negative |
| Game.Session.PlaceTowerAtMousePosition | src/mygame/Main.java:177-225 | a tower is added and paid for iff the ray hit a valid cell and the type is affordable; otherwise nothing changes |
| Game.Session.PlaceTowerAtCursor | src/mygame/Main.java:227-279 | as the mouse handler, but money must also reach 50 |
| Game.Session.SpawnEnemy | src/mygame/Main.java:435-454 | one fresh living enemy of the flipped type at waypoint 0 on the route is appended, and the spawned count rises by one |
| Game.Session.ManageWaves | src/mygame/Main.java:400-423 | the counters follow one WaveStep, an enemy is spawned exactly when it says so, and the session stays consistent |
| Game.Session.StartNewWave | src/mygame/Main.java:425-429 | the wave is in progress with nothing spawned; timers and everything else are untouched |
| Game.Session.PruneEnemies | src/mygame/Main.java:320-340 | the enemies left are exactly those alive and on the route before the frame; each removed dead enemy adds 10 money and 5 score; each staying enemy walks once |
| Game.Session.UpdateTower | src/mygame/Main.java:342-345 | tower i ages and prunes its projectiles and adds tpf to its timer, and, when the timer reaches 1/fireRate and an enemy qualifies, shoots the nearest one (which alone loses exactly damage), adds a projectile and restarts its timer; other towers are untouched, levels and waypoints kept |
| Game.Session.UpdateTowers | src/mygame/Main.java:342-345 | every tower keeps its level, has its timer restarted or advanced by tpf and gains at most one projectile; enemies keep their waypoints, only lose health, and the dead stay dead |
| Game.Session.UpdateActors | src/mygame/Main.java:320-345 | the enemies left are exactly those alive and short of the route's end, in their order; money and score grow by 10 and 5 per dead enemy; a removed enemy is untouched; a kept enemy advanced one waypoint exactly when its distance was below 0.1, and then only lost health; every tower keeps its level, has its timer restarted or advanced by tpf and gains at most one projectile; the wave counters and the tower list are untouched; the session stays consistent |
| Game.Session.SimpleUpdate | src/mygame/Main.java:316-352 | the counters follow one WaveStep; the enemies are the survivors in order, followed by a fresh enemy of the chosen type when the step spawns on a non-empty route; money and score grow by 10 and 5 per dead enemy; a removed enemy is untouched and a kept one only loses health; every tower keeps its level, has its timer restarted or advanced by tpf and gains at most one projectile; the tower list is kept; the session stays consistent |

## Left out

- Rendering, models, textures, materials, highlight rings, health bars and audio. This
  covers tower and enemy model loading, `updateHealthBar`, the tower visuals after an
  upgrade, `GameMap` and the whole of `MenuState`. `GameMap` is needed only for
  `MAP_SIZE` = 30.
- Vector movement, normalisation, rotation and distance computations. The distances they
  produce are inputs. The enemy's position, the projectile's geometry and its cached
  target position are therefore not state in the model.
- The y coordinate: towers, waypoints and cells are (x, z) pairs, and waypoints are
  integral, so `Math.round` of a waypoint is the identity.
- Ray picking and `Math.round` of the contact point. The model takes the rounded cell, or
  `None` when the ray hits nothing.
- `FastMath.nextRandomFloat() < 0.5`: a `bool` parameter of `SpawnEnemy`.
- `GameUI` (text display and `getSelectedTowerType`): the selected type is a parameter.
  `gameUI.update` and `updateTowerPlacementIndicator` only read state to draw it, so they
  are omitted from `SimpleUpdate`.
- `Enemy.upgradeStats`: never called, and it is float scaling with a truncating cast.
- `Bullet` is unused. `GameMap.getPathCoordinates` is an unused hard-coded array.
  `Path.getWaypoints` and `Path.getPathCoordinates` are reads of the constant fields of
  `Paths.Path`.
- Float arithmetic: stats, timers and distances are exact `real`s, with no single-precision rounding.
- `Game.Session.PruneEnemies`: money and score are unbounded integers, so Java's 32-bit
  wrap-around after about 200 million kills is not modelled. In the source, money and
  score are added inside the enemy loop. The model adds the same total after the walk,
  which gives the same final state. The enemy loop is `Game.WalkEnemies`, over a
  distinct list.
- `Enemies.Enemy.TakeDamage`: health is an unbounded integer, so a wrap-around of
  repeated damage is not modelled.
- `Game.Session.UpdateTowers`: states each tower's update through `UpdateTower` and, over
  the whole loop, a bound per tower (timer restarted or advanced, at most one projectile
  more). It does not state the fold over the towers in list order, that is, which enemy
  each tower shoots given the damage of the towers before it. `UpdateActors` and
  `SimpleUpdate` inherit this bound.
- `Game.Session.SimpleUpdate`: the exact waypoint step of each kept enemy is stated on
  `UpdateActors` and `PruneEnemies` but not on `SimpleUpdate`. Carrying it across the wave
  director's frame as well runs past the verifier's resource limit.
- `Towers.FindNearestEnemyInRange`: the source starts the running minimum at
  `Float.MAX_VALUE`; the model starts with "no choice yet", which differs only for an
  enemy at least that far away and within range, which no range allows.
