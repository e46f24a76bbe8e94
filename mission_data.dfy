/** Missions: the data of one running mission. Its clock, its wave
    counters, the player's health, and the registry of live enemies keyed by
    instance id with the enemiesAlive counter beside it. The map geometry is
    not part of this model; a spawn's path is kept as an index. */
module Missions {
  import opened Pawns

  /** MissionSettings. */
  datatype MissionSettings = MissionSettings(difficulty: int, playerHealthMax: int)

  /** MissionWave: when the wave starts, what it spawns, how many, how far
      apart and on which path. */
  datatype MissionWave = MissionWave(startTime: real, pawnPrefab: PawnPrefab, spawnCount: int,
                                     spawnInterval: real, spawnPathIndex: int)

  /** MissionPreset: the settings and the waves of a mission. */
  datatype MissionPreset = MissionPreset(settings: MissionSettings, waves: seq<MissionWave>)

  /** How SpawnEnemy ends: the registered pawn; an instance without a Pawn
      component (logged and destroyed); or the ArgumentException that
      Dictionary.Add throws for an id already registered. */
  datatype SpawnOutcome = Spawned(pawn: Pawn) | NoPawn | DuplicateId

  class MissionData {
    const settings: MissionSettings
    const waves: seq<MissionWave>
    var time: real
    var activeWaveIndex: int
    var nextWaveIndex: int
    var playerHealth: int
    var enemiesAlive: int
    /** enemiesDictionary: instance id -> pawn. */
    var enemies: map<int, Pawn>

    /** Every pawn is registered under its own instance id. */
    ghost predicate Registry()
      reads this
    {
      forall id :: id in enemies ==> enemies[id].instanceId == id
    }

    /** MissionData's constructor: only the settings and the waves; the
        counters keep C#'s zero defaults until StartMission. */
    constructor (settings: MissionSettings, waves: seq<MissionWave>)
      ensures this.settings == settings && this.waves == waves
      ensures Registry() && enemies == map[]
    {
      this.settings := settings;
      this.waves := waves;
      time := 0.0;
      activeWaveIndex := 0;
      nextWaveIndex := 0;
      playerHealth := 0;
      enemiesAlive := 0;
      enemies := map[];
    }

    /** MissionData.EnemiesAlive. */
    function EnemiesAlive(): int
      reads this
    {
      enemiesAlive
    }

    /** MissionData.StartMission: clock at 0, no wave active, the first wave
        next, full player health, no enemies. */
    method StartMission()
      modifies this
      ensures time == 0.0 && activeWaveIndex == -1 && nextWaveIndex == 0
      ensures playerHealth == settings.playerHealthMax
      ensures enemiesAlive == 0 && enemies == map[] && Registry()
    {
      time := 0.0;
      activeWaveIndex := -1;
      nextWaveIndex := 0;
      playerHealth := settings.playerHealthMax;
      enemiesAlive := 0;
      enemies := map[];
    }

    /** MissionData.SpawnEnemy: instantiates the prefab; without a Pawn
        nothing is registered. Otherwise the counter is set to the count
        BEFORE the insertion (it lags by one), the pawn is added under its
        id (a duplicate id throws after the counter was set, and the pawn is
        never spawned) and then spawned on the path at the given time. */
    method SpawnEnemy(engine: Engine, prefab: PawnPrefab, pathIndex: int, spawnTime: real)
      returns (outcome: SpawnOutcome)
      requires Registry()
      modifies this`enemies, this`enemiesAlive, engine
      ensures Registry()
      ensures engine.nextId == old(engine.nextId) + 1
      ensures outcome.NoPawn? <==> !prefab.hasPawn
      ensures outcome.NoPawn? ==> enemies == old(enemies) && enemiesAlive == old(enemiesAlive)
      ensures !outcome.NoPawn? ==> enemiesAlive == |old(enemies)|
      ensures outcome.DuplicateId? <==> prefab.hasPawn && old(engine.nextId) in old(enemies)
      ensures outcome.DuplicateId? ==> enemies == old(enemies)
      ensures outcome.Spawned? ==>
                && fresh(outcome.pawn) && outcome.pawn.instanceId == old(engine.nextId)
                && enemies == old(enemies)[old(engine.nextId) := outcome.pawn]
                && |enemies| == |old(enemies)| + 1 && enemiesAlive == |enemies| - 1
                && outcome.pawn.Valid() && outcome.pawn.isAlive && outcome.pawn.spawns == 1
                && outcome.pawn.spawnTime == spawnTime && outcome.pawn.pathIndex == pathIndex
                && outcome.pawn.health == prefab.health && outcome.pawn.playerDamage == prefab.playerDamage
    {
      var pawn := engine.Instantiate(prefab);
      if pawn == null {
        return NoPawn;
      }
      enemiesAlive := |enemies|;
      if pawn.instanceId in enemies {
        return DuplicateId;
      }
      enemies := enemies[pawn.instanceId := pawn];
      pawn.OnSpawned(pathIndex, spawnTime);
      outcome := Spawned(pawn);
    }

    /** MissionData.RemoveEnemy: the pawn's id leaves the registry if it was
        there, nothing else changes, and the counter is the registry's size
        again. */
    method RemoveEnemy(pawn: Pawn)
      requires Registry()
      modifies this`enemies, this`enemiesAlive
      ensures Registry()
      ensures enemies == old(enemies) - {pawn.instanceId}
      ensures enemiesAlive == |enemies|
      ensures |enemies| == |old(enemies)| - (if pawn.instanceId in old(enemies) then 1 else 0)
    {
      if pawn.instanceId in enemies {
        enemies := enemies - {pawn.instanceId};
      }
      enemiesAlive := |enemies|;
    }

    /** MissionData.ApplyPlayerDamage: health drops by exactly the amount (a
        negative amount heals) and the result says whether the player is
        dead. */
    method ApplyPlayerDamage(amount: int) returns (dead: bool)
      modifies this`playerHealth
      ensures playerHealth == old(playerHealth) - amount
      ensures dead <==> playerHealth <= 0
    {
      playerHealth := playerHealth - amount;
      dead := playerHealth <= 0;
    }
  }
}
