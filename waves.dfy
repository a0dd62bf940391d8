/** The wave director of the session (`manageWaves` and `startNewWave`) as a step
    function on the session's wave counters. It has two states: resting between waves,
    and a wave in progress. */
module Waves {

  /** Seconds of rest before a wave starts. */
  const WaveDelay: real := 5.0
  /** Seconds between two spawns within a wave. */
  const SpawnInterval: real := 1.5

  datatype WaveState = WaveState(
    waveTimer: real,
    spawnTimer: real,
    currentWave: int,
    enemiesInWave: int,
    enemiesSpawned: int,
    waveInProgress: bool)

  /** The state after one frame, and whether an enemy is spawned in it. */
  datatype WaveTick = WaveTick(next: WaveState, spawn: bool)

  /** The counters a session starts with: wave 1 of 5 enemies, resting. */
  const InitialWave: WaveState := WaveState(0.0, 0.0, 1, 5, 0, false)

  /** The enemy count of a wave: 5 for the first one, then 5 + 2 * wave. */
  function WaveSize(wave: int): int
  {
    if wave <= 1 then 5 else 5 + 2 * wave
  }

  /** The counters stay consistent: the wave number is at least 1, the wave's size is
      `WaveSize` of it, and the spawned count lies within 0 and that size. */
  ghost predicate WaveInvariant(s: WaveState)
  {
    && s.currentWave >= 1
    && s.enemiesInWave == WaveSize(s.currentWave)
    && 0 <= s.enemiesSpawned <= s.enemiesInWave
  }

  /** One frame of `manageWaves`. Resting, the wave timer accumulates and, once it reaches
      `WaveDelay`, the wave starts (in progress, spawned count 0, wave timer 0; the spawn
      timer is left as it was). In progress, while enemies remain to be spawned the spawn
      timer accumulates and one enemy is spawned when it reaches `SpawnInterval`, which
      clears it; once all are spawned and no enemy is left, the wave ends and the next
      wave's size is 5 + 2 * (wave + 1). */
  function WaveStep(s: WaveState, tpf: real, noEnemies: bool): (r: WaveTick)
    ensures r.spawn ==> s.waveInProgress && s.enemiesSpawned < s.enemiesInWave
    ensures r.next.enemiesSpawned ==
              if r.spawn then s.enemiesSpawned + 1
              else if !s.waveInProgress && r.next.waveInProgress then 0
              else s.enemiesSpawned
    ensures r.next.currentWave == s.currentWave || r.next.currentWave == s.currentWave + 1
  {
    if !s.waveInProgress then
      var timer := s.waveTimer + tpf;
      if timer >= WaveDelay then
        WaveTick(s.(waveInProgress := true, enemiesSpawned := 0, waveTimer := 0.0), false)
      else
        WaveTick(s.(waveTimer := timer), false)
    else if s.enemiesSpawned < s.enemiesInWave then
      var timer := s.spawnTimer + tpf;
      if timer >= SpawnInterval then
        WaveTick(s.(spawnTimer := 0.0, enemiesSpawned := s.enemiesSpawned + 1), true)
      else
        WaveTick(s.(spawnTimer := timer), false)
    else if noEnemies then
      WaveTick(s.(waveInProgress := false, currentWave := s.currentWave + 1,
                  enemiesInWave := 5 + 2 * (s.currentWave + 1)), false)
    else
      WaveTick(s, false)
  }

  /** Wave sizes strictly increase from one wave to the next. */
  lemma WaveSizeIncreases(wave: int)
    requires wave >= 1
    ensures WaveSize(wave) < WaveSize(wave + 1)
  {
  }

  /** A step keeps the invariant; a spawn happens only while the wave is short of its
      size, and adds exactly one to the spawned count. */
  lemma WaveStepKeepsInvariant(s: WaveState, tpf: real, noEnemies: bool)
    requires WaveInvariant(s)
    ensures WaveInvariant(WaveStep(s, tpf, noEnemies).next)
    ensures WaveStep(s, tpf, noEnemies).spawn ==>
              && s.waveInProgress && s.enemiesSpawned < s.enemiesInWave
              && WaveStep(s, tpf, noEnemies).next.enemiesSpawned == s.enemiesSpawned + 1
  {
  }

  /** A wave ends exactly when it is in progress, all its enemies have been spawned and
      none is left; the wave number then rises by one and the next wave is larger. */
  lemma WaveEndsOnlyWhenCleared(s: WaveState, tpf: real, noEnemies: bool)
    requires WaveInvariant(s)
    ensures var n := WaveStep(s, tpf, noEnemies).next;
            (s.waveInProgress && !n.waveInProgress) <==>
              (s.waveInProgress && s.enemiesSpawned >= s.enemiesInWave && noEnemies)
    ensures var n := WaveStep(s, tpf, noEnemies).next;
            s.waveInProgress && !n.waveInProgress ==>
              n.currentWave == s.currentWave + 1 && n.enemiesInWave > s.enemiesInWave
  {
    WaveSizeIncreases(s.currentWave);
  }

  /** A wave starts exactly when the resting timer plus this frame's time reaches the delay;
      starting clears the wave timer and the spawned count but keeps the spawn timer. */
  lemma WaveStartKeepsSpawnTimer(s: WaveState, tpf: real, noEnemies: bool)
    ensures var n := WaveStep(s, tpf, noEnemies).next;
            (!s.waveInProgress && n.waveInProgress) <==> (!s.waveInProgress && s.waveTimer + tpf >= WaveDelay)
    ensures var n := WaveStep(s, tpf, noEnemies).next;
            !s.waveInProgress && n.waveInProgress ==>
              n.waveTimer == 0.0 && n.enemiesSpawned == 0 && n.spawnTimer == s.spawnTimer
              && n.currentWave == s.currentWave
  {
  }

  /** The two timers accumulate the frame time. While a wave is short of its size, an
      enemy is spawned exactly when the spawn timer plus the frame time reaches
      `SpawnInterval`, and the spawn timer is cleared then and accumulated otherwise;
      while resting and not yet starting, the wave timer accumulates. */
  lemma WaveTimersAccumulate(s: WaveState, tpf: real, noEnemies: bool)
    ensures var r := WaveStep(s, tpf, noEnemies);
            s.waveInProgress && s.enemiesSpawned < s.enemiesInWave ==>
              && (r.spawn <==> s.spawnTimer + tpf >= SpawnInterval)
              && r.next.spawnTimer == (if r.spawn then 0.0 else s.spawnTimer + tpf)
              && r.next.waveTimer == s.waveTimer
    ensures var r := WaveStep(s, tpf, noEnemies);
            !s.waveInProgress && !r.next.waveInProgress ==>
              && r.next.waveTimer == s.waveTimer + tpf
              && r.next.spawnTimer == s.spawnTimer && !r.spawn
  {
  }

  /** The counters after a run of frames with the given frame times and, per frame,
      whether the enemy list was empty. */
  function WaveRun(s: WaveState, tpfs: seq<real>, empties: seq<bool>): WaveState
    requires |empties| == |tpfs|
    decreases |tpfs|
  {
    if |tpfs| == 0 then s
    else WaveRun(WaveStep(s, tpfs[0], empties[0]).next, tpfs[1..], empties[1..])
  }

  /** Over any run, the spawned count never exceeds the wave's size and wave numbers
      never go down. */
  lemma {:induction false} WaveRunKeepsInvariant(s: WaveState, tpfs: seq<real>, empties: seq<bool>)
    requires |empties| == |tpfs|
    requires WaveInvariant(s)
    decreases |tpfs|
    ensures WaveInvariant(WaveRun(s, tpfs, empties))
    ensures WaveRun(s, tpfs, empties).currentWave >= s.currentWave
  {
    if |tpfs| > 0 {
      WaveStepKeepsInvariant(s, tpfs[0], empties[0]);
      WaveRunKeepsInvariant(WaveStep(s, tpfs[0], empties[0]).next, tpfs[1..], empties[1..]);
    }
  }

  /** With the 5-second delay, 4.9 seconds of rest leave the director resting, and a
      further 0.2 seconds start wave 1 with the counters cleared. */
  lemma FirstWaveStartsAfterDelay()
    ensures !WaveRun(InitialWave, [4.9], [true]).waveInProgress
    ensures WaveRun(InitialWave, [4.9, 0.2], [true, true]) == WaveState(0.0, 0.0, 1, 5, 0, true)
  {
  }
}
