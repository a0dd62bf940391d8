/** The game session (`Main`): the player's money and score, the tower and enemy lists,
    the wave counters, tower placement and the per-frame update. Picking a grid cell with
    the mouse ray, the tower type selected in the user interface, the spawn coin flip and
    the frame's distances are inputs. */
module Game {
  import opened Wrappers
  import opened TowerTypes
  import opened EnemyTypes
  import opened Paths
  import opened Enemies
  import opened Towers
  import opened Waves

  /** Side length of the terrain grid; path tiles are compared against the cell shifted
      by half of it. */
  const MapSize: int := 30
  /** Money a placement by cursor demands before looking at the selected type's cost. */
  const TowerCost: int := 50
  const StartingMoney: int := 200
  /** Paid for every removed enemy that died, whatever its type. */
  const KillMoney: int := 10
  const KillScore: int := 5
  /** Towers may stand on cells whose coordinates both lie within -4..4. */
  const PlacementBound: int := 4
  /** Where the session's first tower stands. */
  const InitialTowerCell: Cell := Cell(2, 3)

  // ---------------------------------------------------------------------------
  // Placement rule

  predicate InBounds(c: Cell)
  {
    -PlacementBound <= c.x <= PlacementBound && -PlacementBound <= c.z <= PlacementBound
  }

  /** The cell the path check compares tiles against: the candidate moved by MapSize / 2. */
  function MapCell(c: Cell): Cell
  {
    Cell(c.x + MapSize / 2, c.z + MapSize / 2)
  }

  /** `isValidTowerPosition` on a rounded cell: inside the bounds, its shifted cell is not a
      path tile, and no tower stands on it. */
  predicate ValidTowerCell(c: Cell, pathTiles: seq<Cell>, occupied: seq<Cell>)
  {
    InBounds(c) && MapCell(c) !in pathTiles && c !in occupied
  }

  /** On any route whose waypoints have x within -9..9, no in-bounds cell's shifted cell
      is a tile: its x is at least 11. */
  lemma ShiftedCellMissesRoute(w: seq<Cell>, c: Cell)
    requires forall i :: 0 <= i < |w| ==> -9 <= w[i].x <= 9
    requires InBounds(c)
    ensures MapCell(c) !in Rasterize(w)
  {
    if MapCell(c) in Rasterize(w) {
      PathCellsWithinX(w, -9, 9, MapCell(c));
    }
  }

  /** So the path check never rejects a cell on the session's route. */
  lemma ShiftedPathCheckNeverRejects(c: Cell)
    requires InBounds(c)
    ensures MapCell(c) !in Rasterize(PathWaypoints)
  {
    WaypointFacts();
    ShiftedCellMissesRoute(PathWaypoints, c);
  }

  /** A cell on one of a route's segments is one of its tiles. */
  lemma SegmentCellIsTile(w: seq<Cell>, i: int, c: Cell)
    requires 0 <= i < |w| - 1 && OnSegment(w[i], w[i + 1], c)
    ensures c in Rasterize(w)
  {
    RasterizeMembership(w, c);
  }

  /** Such tiles exist: (-4, 0) is a tile of the route and lies inside the bounds, off the
      first tower's cell. */
  lemma InBoundsPathTile()
    ensures Cell(-4, 0) in Rasterize(PathWaypoints)
    ensures InBounds(Cell(-4, 0)) && Cell(-4, 0) != InitialTowerCell
  {
    SegmentCellIsTile(PathWaypoints, 2, Cell(-4, 0));
  }

  // ---------------------------------------------------------------------------
  // Removal of enemies and the kill reward

  /** Per enemy, whether it leaves the list this frame: it is dead or has run past its
      last waypoint. */
  function LeaveFlags(es: seq<Enemy>): (f: seq<bool>)
    reads es
    ensures |f| == |es|
    ensures forall i {:trigger f[i]} :: 0 <= i < |es| ==>
              f[i] == (!es[i].alive || es[i].currentWaypoint >= |es[i].waypoints|)
  {
    seq(|es|, i requires 0 <= i < |es| reads es => !es[i].alive || es[i].HasFinishedPath())
  }

  /** Per enemy, whether it is dead; only these are paid for. */
  function DeadFlags(es: seq<Enemy>): (f: seq<bool>)
    reads es
    ensures |f| == |es|
    ensures forall i {:trigger f[i]} :: 0 <= i < |es| ==> f[i] == !es[i].alive
  {
    seq(|es|, i requires 0 <= i < |es| reads es => !es[i].alive)
  }

  /** The flagged elements among the first n of s, in order: with n = |s|, the list the
      update collects for removal. */
  function Marked<T>(s: seq<T>, flags: seq<bool>, n: nat): seq<T>
    requires |flags| == |s| && n <= |s|
  {
    if n == 0 then []
    else Marked(s, flags, n - 1) + (if flags[n - 1] then [s[n - 1]] else [])
  }

  /** The number of set flags among the first n. */
  function Count(flags: seq<bool>, n: nat): nat
    requires n <= |flags|
  {
    if n == 0 then 0
    else Count(flags, n - 1) + (if flags[n - 1] then 1 else 0)
  }

  /** One element is collected per set flag. */
  lemma {:induction false} MarkedLength<T>(s: seq<T>, flags: seq<bool>, n: nat)
    requires |flags| == |s| && n <= |s|
    ensures |Marked(s, flags, n)| == Count(flags, n)
  {
    if n > 0 {
      MarkedLength(s, flags, n - 1);
    }
  }

  /** The collected elements are exactly those whose flag is set. */
  lemma {:induction false} MarkedMembership<T>(s: seq<T>, flags: seq<bool>, n: nat, x: T)
    requires |flags| == |s| && n <= |s|
    ensures x in Marked(s, flags, n) <==> exists i :: 0 <= i < n && flags[i] && s[i] == x
  {
    if n > 0 {
      MarkedMembership(s, flags, n - 1, x);
    }
  }

  /** Setting more flags never lowers the count. */
  lemma {:induction false} CountMonotone(a: seq<bool>, b: seq<bool>, n: nat)
    requires |a| == |b| && n <= |a|
    requires forall i :: 0 <= i < n && a[i] ==> b[i]
    ensures Count(a, n) <= Count(b, n)
  {
    if n > 0 {
      CountMonotone(a, b, n - 1);
    }
  }

  /** No flag set means a count of zero. */
  lemma {:induction false} CountNone(a: seq<bool>, n: nat)
    requires n <= |a|
    requires forall i :: 0 <= i < n ==> !a[i]
    ensures Count(a, n) == 0
  {
    if n > 0 {
      CountNone(a, n - 1);
    }
  }

  /** `removeAll`: every element of s that is not in xs, in order. */
  function RemoveAll<T(==)>(s: seq<T>, xs: seq<T>): (r: seq<T>)
    ensures |r| <= |s|
  {
    if |s| == 0 then []
    else RemoveAll(s[..|s| - 1], xs) + (if s[|s| - 1] in xs then [] else [s[|s| - 1]])
  }

  lemma {:induction false} RemoveAllMembership<T>(s: seq<T>, xs: seq<T>, x: T)
    ensures x in RemoveAll(s, xs) <==> x in s && x !in xs
  {
    if |s| > 0 {
      RemoveAllMembership(s[..|s| - 1], xs, x);
      assert s == s[..|s| - 1] + [s[|s| - 1]];
    }
  }

  lemma {:induction false} RemoveAllKeepsDistinct<T>(s: seq<T>, xs: seq<T>)
    requires Distinct(s)
    ensures Distinct(RemoveAll(s, xs))
  {
    if |s| > 0 {
      var p := s[..|s| - 1];
      RemoveAllKeepsDistinct(p, xs);
      RemoveAllMembership(p, xs, s[|s| - 1]);
    }
  }

  /** Flags and elements that agree on the first n positions collect the same list. */
  lemma {:induction false} MarkedAgree<T>(s: seq<T>, fs: seq<bool>, t: seq<T>, ft: seq<bool>, n: nat)
    requires |fs| == |s| && |ft| == |t| && n <= |s| && n <= |t|
    requires forall i :: 0 <= i < n ==> s[i] == t[i] && fs[i] == ft[i]
    ensures Marked(s, fs, n) == Marked(t, ft, n)
  {
    if n > 0 {
      MarkedAgree(s, fs, t, ft, n - 1);
    }
  }

  /** Flags that agree on the first n positions have the same count there. */
  lemma {:induction false} CountAgree(a: seq<bool>, b: seq<bool>, n: nat)
    requires n <= |a| && n <= |b|
    requires forall i :: 0 <= i < n ==> a[i] == b[i]
    ensures Count(a, n) == Count(b, n)
  {
    if n > 0 {
      CountAgree(a, b, n - 1);
    }
  }

  /** Removing an element that does not occur changes nothing. */
  lemma {:induction false} RemoveAllIgnores<T>(s: seq<T>, xs: seq<T>, y: T)
    requires y !in s
    ensures RemoveAll(s, xs + [y]) == RemoveAll(s, xs)
  {
    if |s| > 0 {
      RemoveAllIgnores(s[..|s| - 1], xs, y);
    }
  }

  /** An appended element that is not to be removed is kept, at the end. */
  lemma RemoveAllAppendKept<T>(s: seq<T>, x: T, xs: seq<T>)
    requires x !in xs
    ensures RemoveAll(s + [x], xs) == RemoveAll(s, xs) + [x]
  {
    assert (s + [x])[..|s|] == s;
  }

  /** An appended element that is to be removed leaves the result as it was. */
  lemma RemoveAllAppendDropped<T>(s: seq<T>, x: T, xs: seq<T>)
    requires x in xs
    ensures RemoveAll(s + [x], xs) == RemoveAll(s, xs)
  {
    assert (s + [x])[..|s|] == s;
  }

  /** Only elements of s are collected. */
  lemma {:induction false} MarkedOmits<T>(s: seq<T>, flags: seq<bool>, n: nat, x: T)
    requires |flags| == |s| && n <= |s|
    requires x !in s
    ensures x !in Marked(s, flags, n)
  {
    if n > 0 {
      MarkedOmits(s, flags, n - 1, x);
    }
  }

  /** Appending an element and its flag extends the collected list by that element
      when its flag is set. */
  lemma MarkedAppend<T>(s: seq<T>, x: T, fs: seq<bool>, b: bool)
    requires |fs| == |s|
    ensures Marked(s + [x], fs + [b], |s| + 1) == Marked(s, fs, |s|) + (if b then [x] else [])
  {
    MarkedAgree(s + [x], fs + [b], s, fs, |s|);
  }

  /** Appending a flag adds one to the count when it is set. */
  lemma CountAppend(a: seq<bool>, b: bool)
    ensures Count(a + [b], |a| + 1) == Count(a, |a|) + (if b then 1 else 0)
  {
    CountAgree(a + [b], a, |a|);
  }

  /** An element appended to s, and absent from it before, is removed exactly when its
      own flag is set; the earlier elements are removed as before. */
  lemma AppendedPruned<T>(s: seq<T>, x: T, fs: seq<bool>, b: bool)
    requires |fs| == |s|
    requires x !in s
    ensures RemoveAll(s + [x], Marked(s + [x], fs + [b], |s| + 1))
            == RemoveAll(s, Marked(s, fs, |s|)) + (if b then [] else [x])
  {
    var marked := Marked(s, fs, |s|);
    MarkedAppend(s, x, fs, b);
    var kept := RemoveAll(s, marked);
    if b {
      RemoveAllAppendDropped(s, x, marked + [x]);
      RemoveAllIgnores(s, marked, x);
      assert kept + [] == kept;
    } else {
      MarkedOmits(s, fs, |s|, x);
      RemoveAllAppendKept(s, x, marked);
      assert marked + [] == marked;
    }
  }

  /** The flags of an extended list extend the flags of the list. */
  lemma FlagsAppend(es: seq<Enemy>, e: Enemy)
    ensures LeaveFlags(es + [e]) == LeaveFlags(es) + [!e.alive || e.currentWaypoint >= |e.waypoints|]
    ensures DeadFlags(es + [e]) == DeadFlags(es) + [!e.alive]
  {
  }

  /** Enemies nobody touched keep their flags. */
  twostate lemma FlagsUnchanged(es: seq<Enemy>)
    requires forall i | 0 <= i < |es| :: unchanged(es[i])
    ensures LeaveFlags(es) == old(LeaveFlags(es)) && DeadFlags(es) == old(DeadFlags(es))
  {
  }

  /** Every paid kill is a departing enemy, so the reward never exceeds the number of
      removals, and a frame in which every enemy is alive pays nothing however many
      escape. */
  lemma KillsAreDeparting(es: seq<Enemy>)
    ensures Count(DeadFlags(es), |es|) <= |Marked(es, LeaveFlags(es), |es|)|
    ensures (forall e | e in es :: e.alive) ==> Count(DeadFlags(es), |es|) == 0
  {
    var dead, leave := DeadFlags(es), LeaveFlags(es);
    CountMonotone(dead, leave, |es|);
    MarkedLength(es, leave, |es|);
    if forall e | e in es :: e.alive {
      CountNone(dead, |es|);
    }
  }

  /** The enemies collected for removal are exactly those that are dead or past the end
      of their route. */
  lemma MarkedAreDeparting(es: seq<Enemy>, x: Enemy)
    ensures x in Marked(es, LeaveFlags(es), |es|) <==>
              x in es && (!x.alive || x.currentWaypoint >= |x.waypoints|)
  {
    MarkedMembership(es, LeaveFlags(es), |es|, x);
  }

  /** Removal keeps the surviving enemies distinct, consistent and on their route. */
  lemma KeptStayValid(es: seq<Enemy>, dead: seq<Enemy>, route: seq<Cell>)
    requires Distinct(es)
    requires forall j :: 0 <= j < |es| ==> es[j].Valid() && es[j].waypoints == route
    ensures Distinct(RemoveAll(es, dead))
    ensures forall e | e in RemoveAll(es, dead) :: e.Valid() && e.waypoints == route
  {
    RemoveAllKeepsDistinct(es, dead);
    forall e | e in RemoveAll(es, dead)
      ensures e.Valid() && e.waypoints == route
    {
      RemoveAllMembership(es, dead, e);
      var j :| 0 <= j < |es| && es[j] == e;
    }
  }

  /** One enemy in the loop of `simpleUpdate`: an enemy that stays (alive and on the
      route) walks one frame; one that leaves is reported, and whether it died. */
  method VisitEnemy(e: Enemy, distanceToWaypoint: real) returns (departs: bool, killed: bool)
    requires e.Valid()
    modifies e
    ensures departs == (!old(e.alive) || old(e.currentWaypoint) >= |e.waypoints|)
    ensures killed == !old(e.alive)
    ensures e.health == old(e.health) && e.alive == old(e.alive)
    ensures e.currentWaypoint ==
              old(e.currentWaypoint) + (if !departs && distanceToWaypoint < ArrivalDistance then 1 else 0)
  {
    if e.IsAlive() && !e.HasFinishedPath() {
      e.Update(distanceToWaypoint);
      departs, killed := false, false;
    } else {
      departs, killed := true, !e.IsAlive();
    }
  }

  /** The departure and death flags of the enemies in the current state, by their meaning. */
  ghost method FlagSnapshot(es: seq<Enemy>) returns (leave: seq<bool>, killed: seq<bool>)
    ensures |leave| == |es| && |killed| == |es|
    ensures forall i {:trigger leave[i]} :: 0 <= i < |es| ==>
              leave[i] == (!es[i].alive || es[i].currentWaypoint >= |es[i].waypoints|)
    ensures forall i {:trigger killed[i]} :: 0 <= i < |es| ==> killed[i] == !es[i].alive
  {
    leave, killed := LeaveFlags(es), DeadFlags(es);
  }

  /** The enemy loop of `simpleUpdate`: each enemy is visited in list order, every
      departing one is collected in that order, and each dead one counts as a kill.
      `distances[j]` is enemy j's distance to its current waypoint this frame. */
  method WalkEnemies(es: seq<Enemy>, distances: seq<real>) returns (dead: seq<Enemy>, kills: nat)
    requires |distances| == |es|
    requires Distinct(es)
    requires forall j :: 0 <= j < |es| ==> es[j].Valid()
    modifies es
    ensures forall j :: 0 <= j < |es| ==> es[j].Valid()
    ensures dead == Marked(es, old(LeaveFlags(es)), |es|)
    ensures kills == Count(old(DeadFlags(es)), |es|)
    ensures forall j :: 0 <= j < |es| ==>
              var e := es[j];
              && e.health == old(e.health) && e.alive == old(e.alive)
              && e.currentWaypoint == old(e.currentWaypoint) +
                   (if old(e.alive) && old(e.currentWaypoint) < |e.waypoints| && distances[j] < ArrivalDistance
                    then 1 else 0)
  {
    ghost var leave, killed := FlagSnapshot(es);
    dead, kills := [], 0;
    for i := 0 to |es|
      invariant forall j :: 0 <= j < |es| ==>
                  && es[j].health == old(es[j].health) && es[j].alive == old(es[j].alive)
                  && es[j].currentWaypoint == old(es[j].currentWaypoint) +
                       (if j < i && old(es[j].alive) && old(es[j].currentWaypoint) < |es[j].waypoints|
                           && distances[j] < ArrivalDistance then 1 else 0)
      invariant dead == Marked(es, leave, i)
      invariant kills == Count(killed, i)
    {
      var departs, died := VisitEnemy(es[i], distances[i]);
      if departs {
        dead := dead + [es[i]];
        if died {
          kills := kills + 1;
        }
      }
    }
    forall j | 0 <= j < |es|
      ensures es[j].Valid()
    {
      assert old(es[j].Valid());
    }
    assert leave == old(LeaveFlags(es)) && killed == old(DeadFlags(es));
  }

  /** The first n entries of a distance list d. */
  function Distances(d: nat -> real, n: nat): (r: seq<real>)
    ensures |r| == n
  {
    seq(n, j requires 0 <= j < n => d(j))
  }

  /** Row i of a distance table d, for its first n columns. */
  function DistanceRow(d: (nat, nat) -> real, i: nat, n: nat): (r: seq<real>)
    ensures |r| == n
  {
    seq(n, j requires 0 <= j < n => d(i, j))
  }

  /** Appending at most one living enemy at the first waypoint of a route w to a list
      whose flags are leave and dead: the removal collects what those flags collect, and
      keeps the appended enemy, at the end, unless the route is empty; the kill count is
      the count of dead. */
  lemma SpawnThenPrune(es: seq<Enemy>, es': seq<Enemy>, spawned: bool, w: seq<Cell>,
                       leave: seq<bool>, dead: seq<bool>)
    requires LeaveFlags(es) == leave && DeadFlags(es) == dead
    requires spawned ==> && |es'| == |es| + 1 && es'[..|es|] == es && es'[|es|] !in es
                         && es'[|es|].alive && es'[|es|].currentWaypoint == 0 && es'[|es|].waypoints == w
    requires !spawned ==> es' == es
    ensures var kept := RemoveAll(es, Marked(es, leave, |es|));
            var r := RemoveAll(es', Marked(es', LeaveFlags(es'), |es'|));
            if spawned && |w| > 0 then |r| == |kept| + 1 && r[..|kept|] == kept && r[|kept|] == es'[|es|]
            else r == kept
    ensures Count(DeadFlags(es'), |es'|) == Count(dead, |es|)
  {
    var kept := RemoveAll(es, Marked(es, leave, |es|));
    if spawned {
      var e := es'[|es|];
      assert es' == es + [e];
      FlagsAppend(es, e);
      assert LeaveFlags(es') == leave + [|w| == 0];
      AppendedPruned(es, e, leave, |w| == 0);
      CountAppend(dead, false);
      var r := RemoveAll(es', Marked(es', LeaveFlags(es'), |es'|));
      if |w| > 0 {
        assert r == kept + [e];
        assert r[..|kept|] == kept;
      } else {
        assert r == kept + [];
        assert kept + [] == kept;
      }
    }
  }

  // ---------------------------------------------------------------------------
  // The session

  class Session {
    const path: Path
    var enemies: seq<Enemy>
    var towers: seq<Tower>
    var waveTimer: real
    var spawnTimer: real
    var currentWave: int
    var enemiesInWave: int
    var enemiesSpawned: int
    var waveInProgress: bool
    var money: int
    var score: int

    /** The wave counters as one value. */
    function Wave(): WaveState
      reads this`waveTimer, this`spawnTimer, this`currentWave, this`enemiesInWave,
            this`enemiesSpawned, this`waveInProgress
    {
      WaveState(waveTimer, spawnTimer, currentWave, enemiesInWave, enemiesSpawned, waveInProgress)
    }

    /** The cells the towers stand on, in list order. */
    function TowerCells(): (r: seq<Cell>)
      reads this
      ensures |r| == |towers|
      ensures forall i :: 0 <= i < |towers| ==> r[i] == towers[i].cell
    {
      seq(|towers|, i requires 0 <= i < |towers| reads this => towers[i].cell)
    }

    /** The session walks the fixed route, and its path tiles are that route's cells.
        Both are constant fields, so this holds for the whole session once built. */
    ghost predicate OnRoute()
    {
      IsRoute(path.waypoints) && path.pathCoordinates == Rasterize(path.waypoints)
    }

    /** Every tower is consistent and stands on its own in-bounds cell. */
    ghost predicate TowersValid()
      reads this`towers, towers
    {
      && (forall i :: 0 <= i < |towers| ==> towers[i].Valid() && InBounds(towers[i].cell))
      && (forall i, j :: 0 <= i < j < |towers| ==> towers[i].cell != towers[j].cell)
    }

    /** The enemies are distinct, consistent and walk the session's route. */
    ghost predicate EnemiesValid()
      reads this`enemies, enemies
    {
      && Distinct(enemies)
      && (forall e | e in enemies :: e.Valid() && e.waypoints == path.waypoints)
    }

    /** The wave counters are consistent, and money and score are not negative. */
    ghost predicate CountersValid()
      reads this`waveTimer, this`spawnTimer, this`currentWave, this`enemiesInWave,
            this`enemiesSpawned, this`waveInProgress, this`money, this`score
    {
      WaveInvariant(Wave()) && money >= 0 && score >= 0
    }

    /** The counters, the towers and the enemies are consistent. */
    ghost predicate Valid()
      reads this, towers, enemies
    {
      CountersValid() && TowersValid() && EnemiesValid()
    }

    /** A path tile inside the bounds is accepted as long as no tower stands on it: the
        path check never rejects anything on this route. */
    lemma PathTilesAreAccepted(c: Cell)
      requires OnRoute()
      requires c in path.pathCoordinates && InBounds(c) && c !in TowerCells()
      ensures ValidTowerCell(c, path.pathCoordinates, TowerCells())
    {
      PlacementOnRoute(c);
    }

    /** On the session's route the placement rule comes down to bounds and occupancy. */
    lemma PlacementOnRoute(c: Cell)
      requires OnRoute()
      ensures ValidTowerCell(c, path.pathCoordinates, TowerCells()) <==> InBounds(c) && c !in TowerCells()
    {
      if InBounds(c) {
        RouteWithinBounds(path.waypoints);
        ShiftedCellMissesRoute(path.waypoints, c);
      }
    }

    /** `simpleInitApp` with the field initialisers: 200 money, no score, wave 1 of 5
        resting, no enemies, and one level-0 basic tower at (2, 3) that costs nothing. */
    constructor ()
      ensures Valid() && OnRoute()
      ensures Wave() == InitialWave
      ensures money == StartingMoney && score == 0
      ensures enemies == [] && |towers| == 1 && fresh(towers[0])
      ensures towers[0].cell == InitialTowerCell && towers[0].towerType == TowerType.Basic
      ensures towers[0].level == 0
    {
      path := new Path();
      enemies := [];
      towers := [];
      waveTimer := 0.0;
      spawnTimer := 0.0;
      currentWave := 1;
      enemiesInWave := 5;
      enemiesSpawned := 0;
      waveInProgress := false;
      money := StartingMoney;
      score := 0;
      new;
      var tower := new Tower(InitialTowerCell, TowerType.Basic);
      towers := [tower];
    }

    /** `isValidTowerPosition`: the bounds test, then a scan of the path tiles against the
        shifted cell, then a scan of the towers' cells, each returning false on a hit. */
    method IsValidTowerPosition(c: Cell) returns (ok: bool)
      ensures ok == ValidTowerCell(c, path.pathCoordinates, TowerCells())
    {
      if c.x < -PlacementBound || c.x > PlacementBound || c.z < -PlacementBound || c.z > PlacementBound {
        return false;
      }
      var pathTiles := path.pathCoordinates;
      for i := 0 to |pathTiles|
        invariant MapCell(c) !in pathTiles[..i]
      {
        var mapX := c.x + MapSize / 2;
        var mapZ := c.z + MapSize / 2;
        if pathTiles[i].x == mapX && pathTiles[i].z == mapZ {
          assert pathTiles[i] == MapCell(c);
          return false;
        }
        assert pathTiles[..i + 1] == pathTiles[..i] + [pathTiles[i]];
      }
      assert pathTiles[..|pathTiles|] == pathTiles;
      for i := 0 to |towers|
        invariant forall j :: 0 <= j < i ==> towers[j].cell != c
      {
        if towers[i].cell == c {
          return false;
        }
      }
      return true;
    }

    /** Adds a fresh level-0 tower of type t on cell c and pays its cost. */
    method AddTower(c: Cell, t: TowerType)
      requires Valid()
      requires ValidTowerCell(c, path.pathCoordinates, TowerCells()) && money >= Cost(t)
      modifies this
      ensures Valid()
      ensures |towers| == |old(towers)| + 1 && towers[..|old(towers)|] == old(towers)
      ensures fresh(towers[|old(towers)|])
      ensures towers[|old(towers)|].cell == c && towers[|old(towers)|].towerType == t
      ensures towers[|old(towers)|].level == 0
      ensures money == old(money) - Cost(t)
      ensures enemies == old(enemies) && score == old(score) && Wave() == old(Wave())
    {
      var newTower := new Tower(c, t);
      assert forall i :: 0 <= i < |towers| ==> towers[i].cell == TowerCells()[i];
      towers := towers + [newTower];
      money := money - Cost(t);
    }

    /** `placeTowerAtMousePosition`: when the ray hit a cell that passes the placement rule
        and the selected type is affordable, a tower of that type is added and paid for;
        otherwise nothing changes. */
    method PlaceTowerAtMousePosition(contact: Option<Cell>, selected: TowerType)
      requires Valid()
      modifies this
      ensures Valid()
      ensures var placed := contact.Some?
                && old(ValidTowerCell(contact.value, path.pathCoordinates, TowerCells()))
                && old(money) >= Cost(selected);
              if placed then
                && |towers| == |old(towers)| + 1 && towers[..|old(towers)|] == old(towers)
                && fresh(towers[|old(towers)|])
                && towers[|old(towers)|].cell == contact.value
                && towers[|old(towers)|].towerType == selected
                && money == old(money) - Cost(selected)
              else
                towers == old(towers) && money == old(money)
      ensures enemies == old(enemies) && score == old(score) && Wave() == old(Wave())
    {
      if contact.Some? {
        var valid := IsValidTowerPosition(contact.value);
        if valid {
          if money < Cost(selected) {
            return;
          }
          AddTower(contact.value, selected);
        }
      }
    }

    /** `placeTowerAtCursor`: as the mouse handler, except that the money must also reach
        the flat TowerCost of 50 before the selected type's cost is looked at, so a 30-cost
        basic tower is refused below 50 money. */
    method PlaceTowerAtCursor(contact: Option<Cell>, selected: TowerType)
      requires Valid()
      modifies this
      ensures Valid()
      ensures var placed := contact.Some?
                && old(ValidTowerCell(contact.value, path.pathCoordinates, TowerCells()))
                && old(money) >= TowerCost && old(money) >= Cost(selected);
              if placed then
                && |towers| == |old(towers)| + 1 && towers[..|old(towers)|] == old(towers)
                && fresh(towers[|old(towers)|])
                && towers[|old(towers)|].cell == contact.value
                && towers[|old(towers)|].towerType == selected
                && money == old(money) - Cost(selected)
              else
                towers == old(towers) && money == old(money)
      ensures enemies == old(enemies) && score == old(score) && Wave() == old(Wave())
    {
      if contact.Some? {
        var valid := IsValidTowerPosition(contact.value);
        if valid && money >= TowerCost {
          if money < Cost(selected) {
            return;
          }
          AddTower(contact.value, selected);
        }
      }
    }

    /** `spawnEnemy`: a fresh hellhound or basic enemy, as the coin flip says, is appended
        and the spawned count rises by one. */
    method SpawnEnemy(spawnHellhound: bool)
      modifies this`enemies, this`enemiesSpawned
      ensures |enemies| == |old(enemies)| + 1 && enemies[..|old(enemies)|] == old(enemies)
      ensures var e := enemies[|old(enemies)|];
              && fresh(e) && e.Valid() && e.waypoints == path.waypoints
              && e.etype == (if spawnHellhound then EnemyType.Hellhound else EnemyType.Basic)
              && e.alive && e.health == Health(e.etype) && e.currentWaypoint == 0
      ensures enemiesSpawned == old(enemiesSpawned) + 1
      ensures towers == old(towers) && money == old(money) && score == old(score)
      ensures waveTimer == old(waveTimer) && spawnTimer == old(spawnTimer)
      ensures currentWave == old(currentWave) && enemiesInWave == old(enemiesInWave)
      ensures waveInProgress == old(waveInProgress)
    {
      var enemyType := if spawnHellhound then EnemyType.Hellhound else EnemyType.Basic;
      var enemy := new Enemy(path.waypoints, enemyType);
      enemies := enemies + [enemy];
      enemiesSpawned := enemiesSpawned + 1;
    }

    /** `manageWaves` with `startNewWave`: the counters take the next state of `WaveStep`
        for an empty or non-empty enemy list, and an enemy is spawned exactly when the
        step says so. */
    method ManageWaves(tpf: real, spawnHellhound: bool)
      requires Valid()
      modifies this`waveTimer, this`spawnTimer, this`currentWave, this`enemiesInWave, this`enemiesSpawned,
               this`waveInProgress, this`enemies
      ensures Valid()
      ensures Wave() == WaveStep(old(Wave()), tpf, |old(enemies)| == 0).next
      ensures if WaveStep(old(Wave()), tpf, |old(enemies)| == 0).spawn then
                && |enemies| == |old(enemies)| + 1 && enemies[..|old(enemies)|] == old(enemies)
                && fresh(enemies[|old(enemies)|])
                && enemies[|old(enemies)|].etype == (if spawnHellhound then EnemyType.Hellhound else EnemyType.Basic)
                && enemies[|old(enemies)|].alive && enemies[|old(enemies)|].currentWaypoint == 0
              else
                enemies == old(enemies)
      ensures forall e | e in enemies :: e in old(enemies) || fresh(e)
      ensures towers == old(towers) && money == old(money) && score == old(score)
    {
      WaveStepKeepsInvariant(Wave(), tpf, |enemies| == 0);
      if !waveInProgress {
        waveTimer := waveTimer + tpf;
        if waveTimer >= WaveDelay {
          StartNewWave();
          waveTimer := 0.0;
        }
      } else {
        if enemiesSpawned < enemiesInWave {
          spawnTimer := spawnTimer + tpf;
          if spawnTimer >= SpawnInterval {
            SpawnEnemy(spawnHellhound);
            spawnTimer := 0.0;
          }
        } else if |enemies| == 0 {
          waveInProgress := false;
          currentWave := currentWave + 1;
          enemiesInWave := 5 + currentWave * 2;
        }
      }
    }

    /** `startNewWave`: the wave is in progress and nothing of it is spawned yet. */
    method StartNewWave()
      modifies this`waveInProgress, this`enemiesSpawned
      ensures waveInProgress && enemiesSpawned == 0
      ensures waveTimer == old(waveTimer) && spawnTimer == old(spawnTimer)
      ensures currentWave == old(currentWave) && enemiesInWave == old(enemiesInWave)
      ensures enemies == old(enemies) && towers == old(towers)
      ensures money == old(money) && score == old(score)
    {
      waveInProgress := true;
      enemiesSpawned := 0;
    }

    /** The enemy half of `simpleUpdate`: the walk, the reward of KillMoney and KillScore
        per dead enemy, then `removeAll` of the collected enemies. Exactly the enemies that
        were dead or past the route's end leave the list. */
    method PruneEnemies(waypointDistance: nat -> real)
      requires EnemiesValid()
      modifies this`money, this`score, this`enemies, enemies
      ensures EnemiesValid()
      ensures enemies == RemoveAll(old(enemies), Marked(old(enemies), old(LeaveFlags(enemies)), |old(enemies)|))
      ensures forall e :: e in enemies <==>
                e in old(enemies) && old(e.alive) && old(e.currentWaypoint) < |e.waypoints|
      ensures money == old(money) + KillMoney * Count(old(DeadFlags(enemies)), |old(enemies)|)
      ensures score == old(score) + KillScore * Count(old(DeadFlags(enemies)), |old(enemies)|)
      ensures forall j :: 0 <= j < |old(enemies)| ==>
                var e := old(enemies)[j];
                && e.health == old(e.health) && e.alive == old(e.alive)
                && e.currentWaypoint == old(e.currentWaypoint) +
                     (if old(e.alive) && old(e.currentWaypoint) < |e.waypoints| && waypointDistance(j) < ArrivalDistance
                      then 1 else 0)
    {
      ghost var es := enemies;
      ghost var marked := Marked(es, LeaveFlags(es), |es|);
      forall x
        ensures x in marked <==> x in es && (!x.alive || x.currentWaypoint >= |x.waypoints|)
      {
        MarkedAreDeparting(es, x);
      }
      var dead, kills := WalkEnemies(enemies, Distances(waypointDistance, |enemies|));
      money := money + KillMoney * kills;
      score := score + KillScore * kills;
      enemies := RemoveAll(enemies, dead);
      forall e
        ensures e in enemies <==> e in es && old(e.alive) && old(e.currentWaypoint) < |e.waypoints|
      {
        RemoveAllMembership(es, dead, e);
      }
      KeptStayValid(es, dead, path.waypoints);
    }

    /** Tower i updates once against the current enemy list (the body of the tower loop
        of `simpleUpdate`), with row i of each distance table. Tower i ages and prunes its
        projectiles and adds its frame time to its fire timer; once the timer reaches the
        fire interval and some enemy qualifies, it shoots the nearest (the first of equally
        near ones) and restarts its timer. No other tower changes, every tower keeps its
        level, every enemy its waypoint, and only the enemy shot loses health. */
    method UpdateTower(i: nat, tpf: real, enemyDistance: (nat, nat) -> real, projectileDistance: (nat, nat) -> real)
      requires i < |towers|
      requires TowersValid() && EnemiesValid()
      modifies towers[i], enemies
      ensures TowersValid() && EnemiesValid()
      ensures forall j :: 0 <= j < |towers| ==> towers[j].level == old(towers[j].level)
      ensures forall j :: 0 <= j < |towers| && j != i ==>
                towers[j].fireTimer == old(towers[j].fireTimer) && towers[j].projectiles == old(towers[j].projectiles)
      ensures forall e | e in enemies ::
                && e.currentWaypoint == old(e.currentWaypoint)
                && e.health <= old(e.health) && (!old(e.alive) ==> !e.alive)
      ensures var t := towers[i];
              var kept := Pruned(old(t.projectiles), tpf, old(TargetsAlive(t.projectiles)),
                                 DistanceRow(projectileDistance, i, old(|t.projectiles|)));
              var pick := old(Nearest(Targets(enemies, DistanceRow(enemyDistance, i, |enemies|)), t.range));
              var timer := old(t.fireTimer) + tpf;
              if timer >= 1.0 / t.fireRate && pick.Some? then
                var target := enemies[pick.value];
                && t.fireTimer == 0.0
                && t.projectiles == kept + [Projectile(ProjectileLifetime, target)]
                && target.health == old(target.health) - t.damage
                && target.alive == (old(target.alive) && target.health > 0)
                && forall e | e in enemies && e != target :: unchanged(e)
              else
                && t.fireTimer == timer
                && t.projectiles == kept
                && forall e | e in enemies :: unchanged(e)
    {
      var t := towers[i];
      t.Update(tpf, enemies, DistanceRow(enemyDistance, i, |enemies|),
               DistanceRow(projectileDistance, i, |t.projectiles|));
      forall j | 0 <= j < |towers|
        ensures towers[j].Valid() && towers[j].level == old(towers[j].level)
        ensures j != i ==> towers[j].fireTimer == old(towers[j].fireTimer) && towers[j].projectiles == old(towers[j].projectiles)
      {
        if j != i {
          assert towers[j].cell != t.cell;
          assert old(towers[j].Valid());
        }
      }
    }

    /** The tower half of `simpleUpdate`: each tower updates once, by `UpdateTower`,
        against the current enemy list. enemyDistance(i, j) is the distance from tower i
        to enemy j, projectileDistance(i, k) that of tower i's projectile k to its target.
        Towers keep their levels; each fire timer has either restarted or grown by the
        frame time, and each tower has at most one projectile more than before. Enemies
        keep their waypoint, only lose health, and a dead enemy stays dead. */
    method UpdateTowers(tpf: real, enemyDistance: (nat, nat) -> real, projectileDistance: (nat, nat) -> real)
      requires TowersValid() && EnemiesValid()
      modifies towers, enemies
      ensures unchanged(this)
      ensures TowersValid() && EnemiesValid()
      ensures forall i :: 0 <= i < |towers| ==> towers[i].level == old(towers[i].level)
      ensures forall i :: 0 <= i < |towers| ==>
                && (towers[i].fireTimer == 0.0 || towers[i].fireTimer == old(towers[i].fireTimer) + tpf)
                && |towers[i].projectiles| <= |old(towers[i].projectiles)| + 1
      ensures forall e | e in enemies ::
                && e.currentWaypoint == old(e.currentWaypoint)
                && e.health <= old(e.health) && (!old(e.alive) ==> !e.alive)
    {
      for i := 0 to |towers|
        invariant TowersValid() && EnemiesValid()
        invariant forall j :: 0 <= j < |towers| ==> towers[j].level == old(towers[j].level)
        invariant forall j :: 0 <= j < i ==>
                    && (towers[j].fireTimer == 0.0 || towers[j].fireTimer == old(towers[j].fireTimer) + tpf)
                    && |towers[j].projectiles| <= |old(towers[j].projectiles)| + 1
        invariant forall j :: i <= j < |towers| ==>
                    towers[j].fireTimer == old(towers[j].fireTimer) && towers[j].projectiles == old(towers[j].projectiles)
        invariant forall e | e in enemies ::
                    && e.currentWaypoint == old(e.currentWaypoint)
                    && e.health <= old(e.health) && (!old(e.alive) ==> !e.alive)
      {
        UpdateTower(i, tpf, enemyDistance, projectileDistance);
      }
    }

    /** The enemies, then the towers, of one frame of `simpleUpdate`. The tower list and
        the wave counters are left alone. Exactly the enemies that were alive and short of
        the end of the route stay on the list, in order, and money and score grow by the
        kill reward for each enemy that was dead. A removed enemy is untouched; a kept one
        advanced one waypoint exactly when its distance was below `ArrivalDistance`, and
        then only lost health to the towers. Each tower then updates once, by
        `UpdateTowers`: it keeps its level, its timer restarts or grows by the frame time,
        and it gains at most one projectile. */
    method UpdateActors(tpf: real, waypointDistance: nat -> real,
                        enemyDistance: (nat, nat) -> real, projectileDistance: (nat, nat) -> real)
      requires Valid()
      modifies this`money, this`score, this`enemies, towers, enemies
      ensures Valid()
      ensures Wave() == old(Wave()) && towers == old(towers)
      ensures enemies == RemoveAll(old(enemies), Marked(old(enemies), old(LeaveFlags(enemies)), |old(enemies)|))
      ensures forall e :: e in enemies <==> e in old(enemies) && old(e.alive) && old(e.currentWaypoint) < |e.waypoints|
      ensures money == old(money) + KillMoney * Count(old(DeadFlags(enemies)), |old(enemies)|)
      ensures score == old(score) + KillScore * Count(old(DeadFlags(enemies)), |old(enemies)|)
      ensures forall e | e in old(enemies) && e !in enemies ::
                e.health == old(e.health) && e.alive == old(e.alive) && e.currentWaypoint == old(e.currentWaypoint)
      ensures forall e | e in enemies :: e.health <= old(e.health) && (e.alive ==> old(e.alive))
      ensures forall j | 0 <= j < |old(enemies)| && old(enemies)[j] in enemies ::
                old(enemies)[j].currentWaypoint ==
                  old(enemies[j].currentWaypoint) + (if waypointDistance(j) < ArrivalDistance then 1 else 0)
      ensures forall i | 0 <= i < |towers| ::
                && towers[i].level == old(towers[i].level)
                && (towers[i].fireTimer == 0.0 || towers[i].fireTimer == old(towers[i].fireTimer) + tpf)
                && |towers[i].projectiles| <= old(|towers[i].projectiles|) + 1
    {
      PruneEnemies(waypointDistance);
      assert forall i | 0 <= i < |enemies| :: enemies[i] in old(enemies);
      UpdateTowers(tpf, enemyDistance, projectileDistance);
    }

    /** `simpleUpdate`: the wave director, then the enemies, then the towers. The wave
        counters end as one `WaveStep` leaves them and the tower list is unchanged. The
        enemies that were alive and short of the end of the route stay, in order, followed
        by the enemy the step spawns (it starts at the first waypoint, so it stays unless
        the route is empty); money and score grow by the kill reward for each enemy that
        was dead. A removed enemy is untouched and a kept one only loses health. Each
        tower keeps its level, its timer restarts or grows by the frame time, and it gains
        at most one projectile. */
    method SimpleUpdate(tpf: real, spawnHellhound: bool, waypointDistance: nat -> real,
                        enemyDistance: (nat, nat) -> real, projectileDistance: (nat, nat) -> real)
      requires Valid()
      modifies this, towers, enemies
      ensures Valid()
      ensures Wave() == WaveStep(old(Wave()), tpf, |old(enemies)| == 0).next
      ensures towers == old(towers)
      ensures var kept := RemoveAll(old(enemies), Marked(old(enemies), old(LeaveFlags(enemies)), |old(enemies)|));
              if WaveStep(old(Wave()), tpf, |old(enemies)| == 0).spawn && |path.waypoints| > 0 then
                && |enemies| == |kept| + 1 && enemies[..|kept|] == kept
                && fresh(enemies[|kept|])
                && enemies[|kept|].etype == (if spawnHellhound then EnemyType.Hellhound else EnemyType.Basic)
              else
                enemies == kept
      ensures money == old(money) + KillMoney * Count(old(DeadFlags(enemies)), |old(enemies)|)
      ensures score == old(score) + KillScore * Count(old(DeadFlags(enemies)), |old(enemies)|)
      ensures forall e | e in old(enemies) && e !in enemies ::
                e.health == old(e.health) && e.alive == old(e.alive) && e.currentWaypoint == old(e.currentWaypoint)
      ensures forall e | e in old(enemies) && e in enemies :: e.health <= old(e.health) && (e.alive ==> old(e.alive))
      ensures forall i | 0 <= i < |towers| ::
                && towers[i].level == old(towers[i].level)
                && (towers[i].fireTimer == 0.0 || towers[i].fireTimer == old(towers[i].fireTimer) + tpf)
                && |towers[i].projectiles| <= old(|towers[i].projectiles|) + 1
    {
      ghost var es, leave, dead := enemies, LeaveFlags(enemies), DeadFlags(enemies);
      ghost var spawn := WaveStep(Wave(), tpf, |enemies| == 0).spawn;
      ManageWaves(tpf, spawnHellhound);
      if spawn {
        assert forall i | 0 <= i < |es| :: es[i] != enemies[|es|];
      }
      FlagsUnchanged(es);
      SpawnThenPrune(es, enemies, spawn, path.waypoints, leave, dead);
      assert forall i | 0 <= i < |enemies| :: enemies[i] in old(enemies) || fresh(enemies[i]);
      UpdateActors(tpf, waypointDistance, enemyDistance, projectileDistance);
    }
  }
}
