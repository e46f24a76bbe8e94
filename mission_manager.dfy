/** MissionManagement: the mission controller. It holds the mission state,
    starts the waves of the preset in order at their start times, lets each
    wave spawn its pawns at their scheduled times, and decides defeat and
    victory.

    The source's coroutines are timers. Each is kept here as explicit state
    and resumed by an explicit call. The mission routine is the flag
    `missionRoutine` with the data's nextWaveIndex. Each wave routine is an
    entry of `waveRoutines` holding its wave, its next spawn index and its
    path. A routine's first segment runs synchronously inside StartMission or
    StartWave, as StartCoroutine does. A routine waiting on WaitForSeconds
    resumes at the first ResumeMissionRoutine / ResumeWaveRoutine call at
    which the mission time has reached the time it waits for. The order in
    which the engine resumes routines is the caller's. */
module MissionManagement {
  import opened Basics
  import opened Pawns
  import opened Missions

  /** The MissionState enum. */
  datatype MissionState = Init | Active | Ended

  /** A wave routine's coroutine: waiting to issue spawn number spawnIndex of
      its wave on pathIndex, or run to its end (an entry left in the map when
      the routine finished inside StartWave, before the Add). */
  datatype WaveRoutine = Waiting(wave: MissionWave, spawnIndex: int, pathIndex: int) | Finished

  /** A SpawnEnemy call issued by a wave routine: the path, the spawn time
      passed to the pawn, and the mission time at which it was issued. */
  datatype Spawn = Spawn(pathIndex: int, spawnTime: real, issuedAt: real)

  /** When spawn i of a wave is due: startTime + i * spawnInterval. */
  function ScheduledTime(wave: MissionWave, i: int): real {
    wave.startTime + (i as real) * wave.spawnInterval
  }

  /** The path all spawns of a wave use: C#'s spawnPathIndex % paths.Length. */
  function PathOf(wave: MissionWave, pathCount: int): (p: int)
    requires pathCount > 0
    ensures 0 <= wave.spawnPathIndex ==> 0 <= p < pathCount
    ensures wave.spawnPathIndex < 0 ==> -pathCount < p <= 0
  {
    CsRem(wave.spawnPathIndex, pathCount)
  }

  /** How many spawns a wave routine issues in all: its loop runs while
      spawnIndex < spawnCount. */
  function SpawnTotal(wave: MissionWave): nat {
    if wave.spawnCount < 0 then 0 else wave.spawnCount
  }

  /** The spawns a wave routine has issued so far: the first |log| of its
      schedule, each on the wave's path, each stamped with its scheduled
      time and none issued before that time. */
  ghost predicate ScheduledSpawns(wave: MissionWave, pathCount: int, log: seq<Spawn>)
    requires pathCount > 0
  {
    && |log| <= SpawnTotal(wave)
    && forall i :: 0 <= i < |log| ==>
         && log[i].pathIndex == PathOf(wave, pathCount)
         && log[i].spawnTime == ScheduledTime(wave, i)
         && log[i].spawnTime <= log[i].issuedAt
  }

  class MissionManager {
    /** m_map.m_paths.Length. */
    const pathCount: int
    /** The engine that instantiates pawn prefabs. */
    const engine: Engine
    var state: MissionState
    var data: MissionData?
    /** Whether the mission routine is still running. The source nulls
        m_missionRoutine only in EndMission; stopping a routine that has
        already finished does nothing, so the two agree. */
    var missionRoutine: bool
    var waveRoutines: map<int, WaveRoutine>
    /** How many waves have been started, the mission time at which each
        was, and the spawns each wave routine issued. */
    ghost var started: nat
    ghost var waveStarts: seq<real>
    ghost var spawnLog: map<int, seq<Spawn>>

    /** The mission-level facts: the routines run only in an active mission,
        which always has its data. */
    ghost predicate Shape()
      reads this
    {
      && pathCount > 0
      && (state == Init ==> data == null)
      && (state == Active ==> data != null)
      && (state != Active ==> !missionRoutine && waveRoutines == map[])
    }

    /** The registry holds only pawns the engine has instantiated, under
        their own ids, so the next instance never finds its id taken. */
    ghost predicate FreshIds()
      reads this, data, engine
    {
      data != null ==> data.Registry() && forall id :: id in data.enemies ==> id < engine.nextId
    }

    /** The wave bookkeeping: `started` waves were started, in order, none
        before its start time, and the active wave is the last of them. */
    ghost predicate WavesStarted()
      reads this, data
    {
      data != null ==>
        && started <= |data.waves| && |waveStarts| == started
        && data.activeWaveIndex == started - 1
        && (forall k :: 0 <= k < started ==> data.waves[k].startTime <= waveStarts[k])
    }

    /** The spawns of each started wave are a prefix of its schedule: as long
        as its routine waits, exactly up to its spawn index; otherwise, in an
        active mission, all of them. The routine `except` is exempt while it
        runs. */
    ghost predicate SpawnBook(except: int)
      reads this
    {
      data != null ==>
        && pathCount > 0
        && (forall k :: k in spawnLog <==> 0 <= k < started)
        && (forall k :: k in waveRoutines ==> 0 <= k < started)
        && started <= |data.waves|
        && (forall k :: k in spawnLog ==> ScheduledSpawns(data.waves[k], pathCount, spawnLog[k]))
        && (forall k :: k in waveRoutines && k != except && waveRoutines[k].Waiting? ==>
              && waveRoutines[k].wave == data.waves[k]
              && 0 <= waveRoutines[k].spawnIndex < waveRoutines[k].wave.spawnCount
              && waveRoutines[k].pathIndex == PathOf(data.waves[k], pathCount)
              && |spawnLog[k]| == waveRoutines[k].spawnIndex)
        && (state == Active ==>
              forall k :: k in spawnLog && k != except && !(k in waveRoutines && waveRoutines[k].Waiting?) ==>
                |spawnLog[k]| == SpawnTotal(data.waves[k]))
    }

    /** What holds between calls, except for the running routine `except`. */
    ghost predicate Core(except: int)
      reads this, data, engine
    {
      Shape() && FreshIds() && WavesStarted() && SpawnBook(except)
    }

    /** The mission routine's position: the next wave to start, or -1 once
        every wave was started; it runs for as long as the mission is
        active and waves remain. */
    ghost predicate NextLinked()
      reads this, data
    {
      data != null ==>
        || (data.nextWaveIndex == -1 && started == |data.waves| && !missionRoutine)
        || (data.nextWaveIndex == started && (missionRoutine ==> started < |data.waves|)
            && (state == Active ==> missionRoutine))
    }

    ghost predicate Valid()
      reads this, data, engine
    {
      Core(-1) && NextLinked()
    }

    /** Awake: no mission yet, no routines. */
    constructor (pathCount: int, engine: Engine)
      requires pathCount > 0
      ensures Valid() && state == Init && data == null && this.engine == engine && this.pathCount == pathCount
    {
      this.pathCount := pathCount;
      this.engine := engine;
      state := Init;
      data := null;
      missionRoutine := false;
      waveRoutines := map[];
      started := 0;
      waveStarts := [];
      spawnLog := map[];
    }

    /** MissionManager.Update: the clock runs only while the mission is
        active and the player is alive. */
    method Update(deltaTime: real)
      requires Valid()
      modifies data
      ensures Valid()
      ensures data != null ==>
                && data.playerHealth == old(data.playerHealth) && data.enemies == old(data.enemies)
                && data.enemiesAlive == old(data.enemiesAlive) && data.activeWaveIndex == old(data.activeWaveIndex)
                && data.nextWaveIndex == old(data.nextWaveIndex)
      ensures state == Active && data.playerHealth > 0 ==> data.time == old(data.time) + deltaTime
      ensures !(state == Active && data.playerHealth > 0) && data != null ==> data.time == old(data.time)
    {
      if state == Active && data.playerHealth > 0 {
        data.time := data.time + deltaTime;
      }
    }

    /** MissionManager.StartMission: a fresh MissionData for the preset,
        the mission active, and the first segment of the mission routine,
        which starts every wave due at time 0. */
    method StartMission(preset: MissionPreset)
      requires Valid() && state == Init
      modifies this, engine
      ensures Valid() && state == Active
      ensures fresh(data) && data.settings == preset.settings && data.waves == preset.waves
      ensures data.time == 0.0 && data.playerHealth == preset.settings.playerHealthMax
      ensures forall k :: 0 <= k < started ==> preset.waves[k].startTime <= 0.0
      ensures started < |preset.waves| ==> missionRoutine && preset.waves[started].startTime > 0.0
      ensures started == |preset.waves| ==> !missionRoutine && data.nextWaveIndex == -1
    {
      state := Active;
      data := new MissionData(preset.settings, preset.waves);
      data.StartMission();
      started := 0;
      waveStarts := [];
      spawnLog := map[];
      missionRoutine := true;
      RunMissionRoutine();
    }

    /** MissionRoutine: starts the waves in list order, each once it is due
        (startTime - time <= 0), and waits for the next one otherwise; past
        the last wave nextWaveIndex becomes -1 and the routine ends. */
    method RunMissionRoutine()
      requires Core(-1) && data != null && missionRoutine && state == Active
      requires data.nextWaveIndex == started <= |data.waves|
      modifies this`waveRoutines, this`missionRoutine, this`started, this`waveStarts, this`spawnLog
      modifies data`nextWaveIndex, data`activeWaveIndex, data`enemies, data`enemiesAlive, engine
      ensures Valid() && state == Active
      ensures old(started) <= started
      ensures forall k :: old(started) <= k < started ==> data.waves[k].startTime <= data.time
      ensures waveStarts[..old(started)] == old(waveStarts)
      ensures started < |data.waves| ==> missionRoutine && data.waves[started].startTime > data.time
      ensures started == |data.waves| ==> !missionRoutine && data.nextWaveIndex == -1
    {
      while data.nextWaveIndex < |data.waves| && !(data.waves[data.nextWaveIndex].startTime - data.time > 0.0)
        invariant Core(-1) && data.nextWaveIndex == started <= |data.waves|
        invariant missionRoutine && state == Active
        invariant old(started) <= started
        invariant forall k :: old(started) <= k < started ==> data.waves[k].startTime <= data.time
        invariant waveStarts[..old(started)] == old(waveStarts)
        decreases |data.waves| - data.nextWaveIndex
      {
        StartWave(data.nextWaveIndex);
        data.nextWaveIndex := data.nextWaveIndex + 1;
      }
      if data.nextWaveIndex >= |data.waves| {
        data.nextWaveIndex := -1;
        missionRoutine := false;
      }
    }

    /** The engine resuming the mission routine: a no-op unless the routine
        is running and its next wave is due. */
    method ResumeMissionRoutine()
      requires Valid()
      modifies this`waveRoutines, this`missionRoutine, this`started, this`waveStarts, this`spawnLog
      modifies data, engine
      ensures Valid() && state == old(state)
      ensures old(started) <= started
      ensures data != null ==> forall k :: old(started) <= k < started ==> data.waves[k].startTime <= data.time
      ensures data != null ==> data.time == old(data.time) && data.playerHealth == old(data.playerHealth)
      ensures state == Active && started < |data.waves| ==> missionRoutine && data.waves[started].startTime > data.time
      ensures state == Active && started == |data.waves| ==> !missionRoutine && data.nextWaveIndex == -1
      ensures state != Active ==> started == old(started) && waveRoutines == old(waveRoutines)
      ensures !old(missionRoutine) ==> started == old(started) && waveRoutines == old(waveRoutines) && spawnLog == old(spawnLog)
      ensures !old(missionRoutine) && data != null ==>
                && data.enemies == old(data.enemies) && data.enemiesAlive == old(data.enemiesAlive)
                && data.nextWaveIndex == old(data.nextWaveIndex) && data.activeWaveIndex == old(data.activeWaveIndex)
    {
      if missionRoutine {
        RunMissionRoutine();
      }
    }

    /** MissionManager.StartWave, as the mission routine calls it: the wave
        becomes the active one, its routine runs its first segment, and the
        routine is added to the map under the wave's index, which is never
        there already. */
    method StartWave(index: int)
      requires Valid() && data != null && state == Active && missionRoutine
      requires index == started == data.nextWaveIndex && index < |data.waves|
      requires data.waves[index].startTime <= data.time
      modifies this`waveRoutines, this`started, this`waveStarts, this`spawnLog
      modifies data`activeWaveIndex, data`enemies, data`enemiesAlive, engine
      ensures Core(-1) && started == index + 1 && data.activeWaveIndex == index
      ensures waveStarts == old(waveStarts) + [data.time]
      ensures index in waveRoutines && index !in old(waveRoutines)
      ensures forall k :: k in waveRoutines && k != index ==> k in old(waveRoutines) && waveRoutines[k] == old(waveRoutines)[k]
      ensures waveRoutines[index].Waiting? ==> ScheduledTime(data.waves[index], waveRoutines[index].spawnIndex) > data.time
    {
      OpenWave(index);
      var wave := data.waves[index];
      var routine := RunWaveRoutine(index, wave, 0, PathOf(wave, pathCount));
      waveRoutines := waveRoutines[index := routine];
      assert SpawnBook(-1);
    }

    /** The bookkeeping StartWave does before the wave routine runs: the
        wave is the active one, counted as started at the current time,
        with no spawns yet and no routine in the map. */
    method OpenWave(index: int)
      requires Valid() && data != null && state == Active && missionRoutine
      requires index == started == data.nextWaveIndex && index < |data.waves|
      requires data.waves[index].startTime <= data.time
      modifies this`started, this`waveStarts, this`spawnLog, data`activeWaveIndex
      ensures Core(index) && started == index + 1 && data.activeWaveIndex == index
      ensures waveStarts == old(waveStarts) + [data.time]
      ensures spawnLog == old(spawnLog)[index := []] && index !in waveRoutines
    {
      data.activeWaveIndex := index;
      started := started + 1;
      waveStarts := waveStarts + [data.time];
      spawnLog := spawnLog[index := []];
      assert WavesStarted();
    }

    /** MissionManager.EndWave: the routine's entry leaves the map if it is
        there. */
    method EndWave(index: int)
      modifies this`waveRoutines
      ensures waveRoutines == old(waveRoutines) - {index}
    {
      if index in waveRoutines {
        waveRoutines := waveRoutines - {index};
      }
    }

    /** One iteration of the wave routine's loop: the next spawn of the
        wave, due by now, is issued on the wave's path with its scheduled
        time; the registry never holds the new instance's id already. */
    method IssueSpawn(index: int, wave: MissionWave, spawnIndex: int, pathIndex: int)
      requires Core(index) && data != null && state == Active
      requires 0 <= index < started && wave == data.waves[index] && pathIndex == PathOf(wave, pathCount)
      requires index in spawnLog && |spawnLog[index]| == spawnIndex < wave.spawnCount
      requires ScheduledTime(wave, spawnIndex) <= data.time
      modifies this`spawnLog, data`enemies, data`enemiesAlive, engine
      ensures Core(index)
      ensures spawnLog == old(spawnLog)[index := old(spawnLog[index])
                            + [Spawn(pathIndex, ScheduledTime(wave, spawnIndex), data.time)]]
      ensures wave.pawnPrefab.hasPawn ==> |data.enemies| == |old(data.enemies)| + 1
      ensures !wave.pawnPrefab.hasPawn ==> data.enemies == old(data.enemies)
    {
      var nextSpawnTime := ScheduledTime(wave, spawnIndex);
      var outcome := data.SpawnEnemy(engine, wave.pawnPrefab, pathIndex, nextSpawnTime);
      assert !outcome.DuplicateId?;
      assert FreshIds();
      var log := spawnLog[index] + [Spawn(pathIndex, nextSpawnTime, data.time)];
      assert ScheduledSpawns(wave, pathCount, log);
      spawnLog := spawnLog[index := log];
    }

    /** WaveRoutine from spawn number `from` on: issues every spawn that is
        due, each with its scheduled time as the spawn time, then either
        waits for the next one or, all spawnCount issued, ends the wave. */
    method RunWaveRoutine(index: int, wave: MissionWave, from: int, pathIndex: int) returns (routine: WaveRoutine)
      requires Core(index) && data != null && state == Active
      requires 0 <= index < started && wave == data.waves[index] && pathIndex == PathOf(wave, pathCount)
      requires 0 <= from <= SpawnTotal(wave) && |spawnLog[index]| == from
      modifies this`waveRoutines, this`spawnLog, data`enemies, data`enemiesAlive, engine
      ensures Core(index) && index in spawnLog && from <= |spawnLog[index]|
      ensures spawnLog[index][..from] == old(spawnLog[index])
      ensures forall k :: k in spawnLog && k != index ==> spawnLog[k] == old(spawnLog[k])
      ensures routine.Waiting? ==>
                && routine == Waiting(wave, |spawnLog[index]|, pathIndex)
                && from <= routine.spawnIndex < wave.spawnCount
                && ScheduledTime(wave, routine.spawnIndex) > data.time
                && waveRoutines == old(waveRoutines)
      ensures routine.Finished? ==>
                |spawnLog[index]| == SpawnTotal(wave) && waveRoutines == old(waveRoutines) - {index}
    {
      var spawnIndex := from;
      while spawnIndex < wave.spawnCount && !(ScheduledTime(wave, spawnIndex) > data.time)
        invariant Core(index) && index in spawnLog && |spawnLog[index]| >= from
        invariant from <= spawnIndex <= SpawnTotal(wave) && |spawnLog[index]| == spawnIndex
        invariant spawnLog[index][..from] == old(spawnLog[index])
        invariant forall k :: k in spawnLog && k != index ==> spawnLog[k] == old(spawnLog[k])
        invariant waveRoutines == old(waveRoutines)
        decreases wave.spawnCount - spawnIndex
      {
        IssueSpawn(index, wave, spawnIndex, pathIndex);
        spawnIndex := spawnIndex + 1;
      }
      if spawnIndex < wave.spawnCount {
        routine := Waiting(wave, spawnIndex, pathIndex);
      } else {
        EndWave(index);
        routine := Finished;
      }
    }

    /** The engine resuming the routine of wave `index`: a no-op unless it
        is waiting; if its next spawn is due it carries on, and the entry
        follows it (or leaves the map when the wave ends). */
    method ResumeWaveRoutine(index: int)
      requires Valid()
      modifies this`waveRoutines, this`spawnLog, data, engine
      ensures Valid() && state == old(state)
      ensures forall k :: k in waveRoutines ==> k in old(waveRoutines)
      ensures forall k :: k in old(spawnLog) && k != index ==> k in spawnLog && spawnLog[k] == old(spawnLog[k])
      ensures data != null ==>
                && data.time == old(data.time) && data.playerHealth == old(data.playerHealth)
                && data.activeWaveIndex == old(data.activeWaveIndex) && data.nextWaveIndex == old(data.nextWaveIndex)
      ensures !(old(index in waveRoutines) && old(waveRoutines[index]).Waiting?) ==>
                waveRoutines == old(waveRoutines) && spawnLog == old(spawnLog)
      ensures old(index in waveRoutines) && old(waveRoutines[index]).Waiting? ==>
                && index in spawnLog && old(spawnLog[index]) <= spawnLog[index]
                && (index in waveRoutines ==>
                      && waveRoutines[index].Waiting? && waveRoutines[index].wave == old(waveRoutines[index]).wave
                      && ScheduledTime(waveRoutines[index].wave, waveRoutines[index].spawnIndex) > data.time)
                && (index !in waveRoutines ==> |spawnLog[index]| == SpawnTotal(old(waveRoutines[index]).wave))
      ensures !(old(index in waveRoutines) && old(waveRoutines[index]).Waiting?) && data != null ==>
                && data.enemies == old(data.enemies) && data.enemiesAlive == old(data.enemiesAlive)
                && engine.nextId == old(engine.nextId)
      ensures forall k :: k != index ==> (k in waveRoutines <==> k in old(waveRoutines))
      ensures forall k :: k != index && k in waveRoutines ==> waveRoutines[k] == old(waveRoutines)[k]
    {
      if index in waveRoutines && waveRoutines[index].Waiting? {
        ContinueWaveRoutine(index);
      }
    }

    /** A waiting wave routine carrying on: it issues the spawns now due,
        then waits for a future one or leaves the map with all spawns
        issued. */
    method ContinueWaveRoutine(index: int)
      requires Valid() && index in waveRoutines && waveRoutines[index].Waiting?
      modifies this`waveRoutines, this`spawnLog, data`enemies, data`enemiesAlive, engine
      ensures Valid() && index in spawnLog && old(spawnLog[index]) <= spawnLog[index]
      ensures forall k :: k in waveRoutines ==> k in old(waveRoutines)
      ensures forall k :: k in old(spawnLog) && k != index ==> k in spawnLog && spawnLog[k] == old(spawnLog[k])
      ensures index in waveRoutines ==>
                && waveRoutines[index].Waiting? && waveRoutines[index].wave == old(waveRoutines[index]).wave
                && ScheduledTime(waveRoutines[index].wave, waveRoutines[index].spawnIndex) > data.time
      ensures index !in waveRoutines ==> |spawnLog[index]| == SpawnTotal(old(waveRoutines[index]).wave)
      ensures forall k :: k != index ==> (k in waveRoutines <==> k in old(waveRoutines))
      ensures forall k :: k != index && k in waveRoutines ==> waveRoutines[k] == old(waveRoutines)[k]
    {
      var current := waveRoutines[index];
      var routine := RunWaveRoutine(index, current.wave, current.spawnIndex, current.pathIndex);
      if routine.Waiting? {
        waveRoutines := waveRoutines[index := routine];
      }
    }

    /** MissionManager.EndMission: no mission routine, no wave routines,
        the mission over; calling it again changes nothing. */
    method EndMission()
      requires Valid()
      modifies this`missionRoutine, this`waveRoutines, this`state
      ensures Valid()
      ensures state == Ended && !missionRoutine && waveRoutines == map[]
    {
      missionRoutine := false;
      waveRoutines := map[];
      state := Ended;
    }

    /** MissionManager.OnEnemyDied: the pawn leaves the registry; an active
        mission is won when a wave has been started, every wave has been
        started and no enemy is left, whatever the wave routines still have
        to spawn. */
    method OnEnemyDied(pawn: Pawn)
      requires Valid() && data != null
      modifies this`missionRoutine, this`waveRoutines, this`state, data`enemies, data`enemiesAlive
      ensures Valid()
      ensures data.enemies == old(data.enemies) - {pawn.instanceId} && data.enemiesAlive == |data.enemies|
      ensures var victory := old(state) == Active && old(data.activeWaveIndex) >= 0
                             && old(data.nextWaveIndex) < 0 && |data.enemies| == 0;
              state == (if victory then Ended else old(state))
      ensures state == old(state) ==> missionRoutine == old(missionRoutine) && waveRoutines == old(waveRoutines)
      ensures state != old(state) ==> !missionRoutine && waveRoutines == map[]
      ensures old(state) == Active && state == Ended ==> started == |data.waves| > 0
      ensures old(state) == Active && state == Ended ==>
                forall k :: k in old(waveRoutines) && old(waveRoutines)[k].Waiting? ==>
                  |spawnLog[k]| < SpawnTotal(data.waves[k])
    {
      data.RemoveEnemy(pawn);
      if state == Active {
        if data.activeWaveIndex >= 0 && data.nextWaveIndex < 0 && data.enemiesAlive == 0 {
          EndMission();
        }
      }
    }

    /** MissionManager.OnEnemyReachedPathEnd: an active mission charges the
        pawn's player damage and is lost when the player's health reaches
        0; in every case the pawn is killed, and its death (at most once)
        is passed on to OnEnemyDied. */
    method OnEnemyReachedPathEnd(pawn: Pawn)
      requires Valid() && data != null && pawn.Valid()
      modifies this`missionRoutine, this`waveRoutines, this`state, data`enemies, data`enemiesAlive
      modifies data`playerHealth, pawn`isAlive, pawn`deaths
      ensures Valid() && pawn.Valid() && !pawn.isAlive
      ensures data.playerHealth == old(data.playerHealth) - (if old(state) == Active then pawn.playerDamage else 0)
      ensures pawn.deaths == old(pawn.deaths) + (if old(pawn.isAlive) then 1 else 0)
      ensures data.enemies == if old(pawn.isAlive) then old(data.enemies) - {pawn.instanceId} else old(data.enemies)
      ensures old(state) == Active && data.playerHealth <= 0 ==> state == Ended
      ensures old(state) != Active ==> state == old(state)
      ensures old(state) == Active && data.playerHealth > 0 && !old(pawn.isAlive) ==> state == Active
      ensures old(state) == Active && data.playerHealth > 0 && old(pawn.isAlive) ==>
                var victory := old(data.activeWaveIndex) >= 0 && old(data.nextWaveIndex) < 0 && |data.enemies| == 0;
                && state == (if victory then Ended else Active)
                && (victory ==> !missionRoutine && waveRoutines == map[])
                && (!victory ==> missionRoutine == old(missionRoutine) && waveRoutines == old(waveRoutines))
    {
      ChargePlayer(pawn.playerDamage);
      var died := pawn.Kill();
      if died {
        OnEnemyDied(pawn);
      }
    }

    /** The first half of OnEnemyReachedPathEnd: only an active mission
        charges the damage, and ends when the player's health reaches 0. */
    method ChargePlayer(playerDamage: int)
      requires Valid() && data != null
      modifies this`missionRoutine, this`waveRoutines, this`state, data`playerHealth
      ensures Valid()
      ensures data.playerHealth == old(data.playerHealth) - (if old(state) == Active then playerDamage else 0)
      ensures state == (if old(state) == Active && data.playerHealth <= 0 then Ended else old(state))
      ensures state == old(state) ==> missionRoutine == old(missionRoutine) && waveRoutines == old(waveRoutines)
    {
      if state == Active {
        var playerDead := data.ApplyPlayerDamage(playerDamage);
        if playerDead {
          EndMission();
        }
      }
    }

    /** Pawn.Hit followed by the OnDeath notification the pawn sends
        MissionManager when the hit kills it. */
    method HitEnemy(pawn: Pawn, damage: int)
      requires Valid() && data != null && pawn.Valid()
      modifies this`missionRoutine, this`waveRoutines, this`state, data`enemies, data`enemiesAlive
      modifies pawn`health, pawn`isAlive, pawn`deaths
      ensures Valid() && pawn.Valid()
      ensures pawn.health == old(pawn.health) - damage
      ensures (pawn.State(), old(pawn.isAlive) && !pawn.isAlive) == HitStep(old(pawn.State()), damage)
      ensures data.enemies == if old(pawn.isAlive) && !pawn.isAlive then old(data.enemies) - {pawn.instanceId}
                              else old(data.enemies)
      ensures var victory := old(state) == Active && old(pawn.isAlive) && !pawn.isAlive
                             && old(data.activeWaveIndex) >= 0 && old(data.nextWaveIndex) < 0 && |data.enemies| == 0;
              && state == (if victory then Ended else old(state))
              && (victory ==> !missionRoutine && waveRoutines == map[])
              && (!victory ==> missionRoutine == old(missionRoutine) && waveRoutines == old(waveRoutines))
    {
      var died := pawn.Hit(damage);
      if died {
        OnEnemyDied(pawn);
      }
    }
  }
}
