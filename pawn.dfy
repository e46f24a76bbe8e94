/** Pawns: the enemy actor. Its integer health, its alive flag and the times
    it records. Movement along the spline path, audio and the visual model are
    engine side effects and are not part of this model; the death notification
    to the mission manager (OnDeath -> MissionManager.OnEnemyDied) is the
    `died` result of Hit and Kill, which the caller forwards. */
module Pawns {

  /** What a spawned prefab carries: whether the instance has a Pawn
      component, and the Pawn's initial health and player damage. */
  datatype PawnPrefab = PawnPrefab(hasPawn: bool, health: int, playerDamage: int)

  // ---------------------------------------------------------------------------
  // The health / alive part of a pawn as a value, and the events that change it

  datatype PawnState = PawnState(health: int, isAlive: bool)

  datatype PawnEvent = HitEvent(damage: int) | KillEvent

  /** Pawn.Kill: a live pawn dies (and notifies), a dead one is left alone. */
  function KillStep(s: PawnState): (PawnState, bool) {
    if s.isAlive then (s.(isAlive := false), true) else (s, false)
  }

  /** Pawn.Hit / ApplyDamage: health goes down by the damage, with no sign
      guard; at health <= 0 the pawn is killed. */
  function HitStep(s: PawnState, damage: int): (PawnState, bool) {
    var hurt := s.(health := s.health - damage);
    if hurt.health > 0 then (hurt, false) else KillStep(hurt)
  }

  function Step(s: PawnState, e: PawnEvent): (PawnState, bool) {
    match e
    case HitEvent(d) => HitStep(s, d)
    case KillEvent => KillStep(s)
  }

  /** The state after a sequence of hits and kills. */
  function Run(s: PawnState, events: seq<PawnEvent>): PawnState
    decreases |events|
  {
    if |events| == 0 then s else Run(Step(s, events[0]).0, events[1..])
  }

  /** How many death notifications a sequence of hits and kills sends. */
  function Deaths(s: PawnState, events: seq<PawnEvent>): nat
    decreases |events|
  {
    if |events| == 0 then 0
    else (if Step(s, events[0]).1 then 1 else 0) + Deaths(Step(s, events[0]).0, events[1..])
  }

  /** The total damage of the hits in a sequence of events. */
  function TotalDamage(events: seq<PawnEvent>): int
    decreases |events|
  {
    if |events| == 0 then 0
    else (if events[0].HitEvent? then events[0].damage else 0) + TotalDamage(events[1..])
  }

  /** A single step notifies exactly when it takes the pawn from alive to
      dead, and nothing brings a dead pawn back. */
  lemma StepDiesIffAliveToDead(s: PawnState, e: PawnEvent)
    ensures Step(s, e).1 <==> s.isAlive && !Step(s, e).0.isAlive
    ensures !s.isAlive ==> !Step(s, e).0.isAlive
    ensures Step(s, e).0.health == s.health - (if e.HitEvent? then e.damage else 0)
  {
  }

  /** Whatever hits and kills a spawned pawn receives, OnEnemyDied is notified
      at most once, and it is notified exactly when the pawn started alive and
      ended dead. */
  lemma {:induction false} DeathAtMostOnce(s: PawnState, events: seq<PawnEvent>)
    ensures Deaths(s, events) <= 1
    ensures Deaths(s, events) == 1 <==> s.isAlive && !Run(s, events).isAlive
    ensures !s.isAlive ==> Deaths(s, events) == 0 && !Run(s, events).isAlive
    decreases |events|
  {
    if |events| > 0 {
      StepDiesIffAliveToDead(s, events[0]);
      DeathAtMostOnce(Step(s, events[0]).0, events[1..]);
    }
  }

  /** Health is lowered by exactly the sum of the damages dealt, dead or not. */
  lemma {:induction false} HealthIsTotalDamage(s: PawnState, events: seq<PawnEvent>)
    ensures Run(s, events).health == s.health - TotalDamage(events)
    decreases |events|
  {
    if |events| > 0 {
      StepDiesIffAliveToDead(s, events[0]);
      HealthIsTotalDamage(Step(s, events[0]).0, events[1..]);
    }
  }

  // ---------------------------------------------------------------------------
  // The Pawn component

  class Pawn {
    /** The engine's instance id (GetInstanceID), the registry key. */
    const instanceId: int
    /** m_playerDamage: what reaching the path end costs the player. */
    const playerDamage: int
    var health: int
    var isAlive: bool
    var spawnTime: real
    var timeAlive: real
    /** The path handed to the movement on spawn. */
    var pathIndex: int
    /** How many times OnSpawned brought the pawn to life, and how many times
        OnDeath has run. */
    ghost var spawns: nat
    ghost var deaths: nat

    /** Each spawn is followed by at most one death: the pawn is alive
        exactly when it has been spawned once more than it has died. */
    ghost predicate Valid()
      reads this
    {
      deaths + (if isAlive then 1 else 0) == spawns
    }

    function State(): PawnState
      reads this
    {
      PawnState(health, isAlive)
    }

    /** A fresh instance of the prefab: C# defaults for the fields the prefab
        does not set. */
    constructor (id: int, prefab: PawnPrefab)
      ensures Valid()
      ensures instanceId == id && playerDamage == prefab.playerDamage
      ensures health == prefab.health && !isAlive
      ensures spawnTime == 0.0 && timeAlive == 0.0 && pathIndex == 0
      ensures spawns == 0 && deaths == 0
    {
      instanceId := id;
      playerDamage := prefab.playerDamage;
      health := prefab.health;
      isAlive := false;
      spawnTime := 0.0;
      timeAlive := 0.0;
      pathIndex := 0;
      spawns := 0;
      deaths := 0;
    }

    /** Pawn.OnSpawned: alive, with the given spawn time and path. A pawn
        that is already alive is not spawned a second time as far as the
        death count goes. */
    method OnSpawned(path: int, time: real)
      requires Valid()
      modifies this
      ensures Valid()
      ensures isAlive && spawnTime == time && pathIndex == path
      ensures health == old(health) && timeAlive == old(timeAlive)
      ensures spawns == old(spawns) + (if old(isAlive) then 0 else 1) && deaths == old(deaths)
    {
      if !isAlive {
        spawns := spawns + 1;
      }
      isAlive := true;
      spawnTime := time;
      pathIndex := path;
    }

    /** Pawn.OnMissionUpdate: the time alive is the mission time minus the
        spawn time, whether or not the pawn is still alive. */
    method OnMissionUpdate(missionTime: real)
      modifies this`timeAlive
      ensures timeAlive + spawnTime == missionTime
    {
      timeAlive := missionTime - spawnTime;
    }

    /** Pawn.Kill: returns whether OnDeath ran, that is whether the pawn was
        alive; a second call is a no-op. */
    method Kill() returns (died: bool)
      requires Valid()
      modifies this`isAlive, this`deaths
      ensures Valid()
      ensures died == old(isAlive) && !isAlive
      ensures deaths == old(deaths) + (if died then 1 else 0)
      ensures (State(), died) == KillStep(old(State()))
    {
      died := isAlive;
      if isAlive {
        isAlive := false;
        deaths := deaths + 1;
      }
    }

    /** Pawn.Hit, which is ApplyDamage: health drops by exactly the damage; at
        health <= 0 the pawn is killed, otherwise it keeps its alive flag. */
    method Hit(damage: int) returns (died: bool)
      requires Valid()
      modifies this`health, this`isAlive, this`deaths
      ensures Valid()
      ensures health == old(health) - damage
      ensures isAlive == (old(isAlive) && health > 0)
      ensures died == (old(isAlive) && health <= 0)
      ensures deaths == old(deaths) + (if died then 1 else 0)
      ensures (State(), died) == HitStep(old(State()), damage)
    {
      health := health - damage;
      if health > 0 {
        died := false;
      } else {
        died := Kill();
      }
    }
  }

  /** The engine's instantiation of a prefab (GameObject.Instantiate followed
      by GetComponent<Pawn>): each instance gets an id never handed out
      before. */
  class Engine {
    var nextId: int

    constructor ()
      ensures nextId == 0
    {
      nextId := 0;
    }

    method Instantiate(prefab: PawnPrefab) returns (pawn: Pawn?)
      modifies this
      ensures nextId == old(nextId) + 1
      ensures pawn != null <==> prefab.hasPawn
      ensures pawn != null ==> fresh(pawn) && pawn.Valid() && !pawn.isAlive && pawn.spawns == 0
      ensures pawn != null ==> pawn.instanceId == old(nextId) && pawn.health == prefab.health
      ensures pawn != null ==> pawn.playerDamage == prefab.playerDamage
    {
      if prefab.hasPawn {
        pawn := new Pawn(nextId, prefab);
      } else {
        pawn := null;
      }
      nextId := nextId + 1;
    }
  }
}
