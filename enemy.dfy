/** An enemy walking the route (`Enemy`): its health and liveness, and the index of
    the waypoint it is heading for. Movement itself is float geometry and is not
    modelled; the distance to the current waypoint is supplied by the caller. */
module Enemies {
  import opened EnemyTypes
  import opened Paths

  /** Distance below which an enemy counts as having reached its waypoint. */
  const ArrivalDistance: real := 0.1

  class Enemy {
    const etype: EnemyType
    const waypoints: seq<Cell>
    const maxHealth: int
    const speed: real
    const reward: int
    var health: int
    var alive: bool
    var currentWaypoint: nat

    /** A living enemy has positive health, and the waypoint index never passes the end. */
    ghost predicate Valid()
      reads this
    {
      && (alive ==> health > 0)
      && currentWaypoint <= |waypoints|
    }

    /** Copies the type's stats into a fresh, living enemy at waypoint 0. */
    constructor (path: seq<Cell>, enemyType: EnemyType)
      ensures Valid()
      ensures etype == enemyType && waypoints == path
      ensures health == maxHealth == Health(enemyType)
      ensures speed == Speed(enemyType) && reward == Reward(enemyType)
      ensures alive && currentWaypoint == 0
    {
      etype := enemyType;
      waypoints := path;
      health := Health(enemyType);
      maxHealth := Health(enemyType);
      speed := Speed(enemyType);
      reward := Reward(enemyType);
      alive := true;
      currentWaypoint := 0;
    }

    /** `isAlive`: a living enemy of a consistent state has health left. */
    function IsAlive(): (r: bool)
      reads this
      ensures r == alive
      ensures Valid() && r ==> health > 0
    {
      alive
    }

    /** True once the waypoint index has run past the last waypoint. */
    function HasFinishedPath(): (r: bool)
      reads this
      ensures r <==> currentWaypoint >= |waypoints|
    {
      currentWaypoint >= |waypoints|
    }

    /** Lowers health by exactly `damage`; the enemy dies when health reaches 0 or below.
        There is no guard against damaging an enemy that is already dead. */
    method TakeDamage(damage: int)
      requires Valid()
      modifies this
      ensures Valid()
      ensures health == old(health) - damage
      ensures alive == (old(alive) && health > 0)
      ensures !old(alive) ==> !alive
      ensures currentWaypoint == old(currentWaypoint)
    {
      health := health - damage;
      if health <= 0 {
        alive := false;
      }
    }

    /** One frame of walking: nothing happens to a dead enemy or one past the last
        waypoint; otherwise the waypoint index rises by one when the enemy is within
        `ArrivalDistance` of its current waypoint. */
    method Update(distanceToWaypoint: real)
      requires Valid()
      modifies this
      ensures Valid()
      ensures health == old(health) && alive == old(alive)
      ensures currentWaypoint ==
                if !old(alive) || old(currentWaypoint) >= |waypoints| then old(currentWaypoint)
                else if distanceToWaypoint < ArrivalDistance then old(currentWaypoint) + 1
                else old(currentWaypoint)
      ensures old(currentWaypoint) <= currentWaypoint <= old(currentWaypoint) + 1
    {
      if !alive || currentWaypoint >= |waypoints| {
        return;
      }
      if distanceToWaypoint < ArrivalDistance {
        currentWaypoint := currentWaypoint + 1;
      }
    }
  }
}
