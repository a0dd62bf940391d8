/** The enemy archetypes and their constant stat table (the `EnemyType` enum). */
module EnemyTypes {

  datatype EnemyType = Basic | Hellhound | Tank

  /** Starting (and maximum) health of an enemy of this type. */
  function Health(t: EnemyType): (h: int)
    ensures h > 0
    ensures t == Basic ==> h == 100
    ensures t == Hellhound ==> h == 200
    ensures t == Tank ==> h == 500
  {
    match t
    case Basic => 100
    case Hellhound => 200
    case Tank => 500
  }

  /** Walking speed in world units per second. */
  function Speed(t: EnemyType): (s: real)
    ensures s > 0.0
  {
    match t
    case Basic => 1.0
    case Hellhound => 1.5
    case Tank => 0.6
  }

  /** Kill reward recorded on the enemy (the session does not pay it out). */
  function Reward(t: EnemyType): (r: int)
    ensures r > 0
    ensures t == Basic ==> r == 10
    ensures t == Hellhound ==> r == 25
    ensures t == Tank ==> r == 40
  {
    match t
    case Basic => 10
    case Hellhound => 25
    case Tank => 40
  }

  /** Tougher archetypes are worth more: health and reward order Basic < Hellhound < Tank. */
  lemma TougherIsWorthMore()
    ensures Health(Basic) < Health(Hellhound) < Health(Tank)
    ensures Reward(Basic) < Reward(Hellhound) < Reward(Tank)
  {
  }
}
