/** Projectiles: a shot fired by a tower. It lives for a lifetime budget,
    its movement may hit a target on the way, and it dies at most once.
    Entities (pawns, towers, projectiles) are referred to by their instance
    ids. The movement's raycast is an input: the id of the entity its hit box
    belongs to, if the ray met one this tick. Audio, the visual model and the
    event manager's broadcast are engine side effects and are not modelled. */
module Projectiles {
  import opened Basics

  /** Entities.Damage: an amount, the entity that dealt it and the one that
      caused it (null is None). */
  datatype Damage = Damage(amount: int, source: Option<int>, instigator: Option<int>)

  /** Entities.ProjectileSettings without its audio clips. */
  datatype ProjectileSettings = ProjectileSettings(hitMask: int, damage: int, lifetime: real, speed: real)

  /** Damage handed to a target's hit box. */
  datatype Delivery = Delivery(target: int, damage: Damage)

  /** The damage a projectile's own death is attributed to when its lifetime
      runs out. */
  const Expired := Damage(1, None, None)

  // ---------------------------------------------------------------------------
  // A projectile's life as values

  datatype ProjectileState = ProjectileState(isAlive: bool, spawnTime: real, timeAlive: real)

  /** What one mission update produces: the new state, the damage delivered by
      the movement's hit, and the damage OnDeath ran with. */
  datatype Outcome = Outcome(state: ProjectileState, delivered: Option<Delivery>, death: Option<Damage>)

  /** Projectile.Kill: the first kill of a live projectile runs OnDeath. */
  function KillStep(s: ProjectileState, damage: Damage): Outcome {
    if s.isAlive then Outcome(s.(isAlive := false), None, Some(damage)) else Outcome(s, None, None)
  }

  /** Projectile.OnMissionUpdate: nothing once dead; otherwise the time alive
      is refreshed, the movement runs first (a hit delivers the projectile's
      damage and kills it with damage 1 from the target), and then a lifetime
      reached, boundary included, kills it with damage 1 from nobody. */
  function UpdateStep(s: ProjectileState, id: int, shooter: Option<int>, settings: ProjectileSettings,
                      hasMovement: bool, missionTime: real, hit: Option<int>): Outcome
  {
    if !s.isAlive then Outcome(s, None, None)
    else
      var aged := s.(timeAlive := missionTime - s.spawnTime);
      if hasMovement && hit.Some? then
        Outcome(aged.(isAlive := false),
                Some(Delivery(hit.value, Damage(settings.damage, Some(id), shooter))),
                Some(Damage(1, Some(hit.value), Some(id))))
      else if aged.timeAlive >= settings.lifetime then KillStep(aged, Expired)
      else Outcome(aged, None, None)
  }

  datatype ProjectileEvent = UpdateEvent(missionTime: real, hit: Option<int>) | KillEvent(damage: Damage)

  function Step(s: ProjectileState, id: int, shooter: Option<int>, settings: ProjectileSettings,
                hasMovement: bool, e: ProjectileEvent): Outcome
  {
    match e
    case UpdateEvent(t, hit) => UpdateStep(s, id, shooter, settings, hasMovement, t, hit)
    case KillEvent(d) => KillStep(s, d)
  }

  /** The state after a sequence of updates and kills. */
  function Run(s: ProjectileState, id: int, shooter: Option<int>, settings: ProjectileSettings,
               hasMovement: bool, events: seq<ProjectileEvent>): ProjectileState
    decreases |events|
  {
    if |events| == 0 then s
    else Run(Step(s, id, shooter, settings, hasMovement, events[0]).state, id, shooter, settings, hasMovement, events[1..])
  }

  /** How many times OnDeath runs, and how many damages are delivered, over a
      sequence of updates and kills. */
  function Deaths(s: ProjectileState, id: int, shooter: Option<int>, settings: ProjectileSettings,
                  hasMovement: bool, events: seq<ProjectileEvent>): nat
    decreases |events|
  {
    if |events| == 0 then 0
    else
      (if Step(s, id, shooter, settings, hasMovement, events[0]).death.Some? then 1 else 0)
      + Deaths(Step(s, id, shooter, settings, hasMovement, events[0]).state, id, shooter, settings, hasMovement, events[1..])
  }

  function Deliveries(s: ProjectileState, id: int, shooter: Option<int>, settings: ProjectileSettings,
                      hasMovement: bool, events: seq<ProjectileEvent>): nat
    decreases |events|
  {
    if |events| == 0 then 0
    else
      (if Step(s, id, shooter, settings, hasMovement, events[0]).delivered.Some? then 1 else 0)
      + Deliveries(Step(s, id, shooter, settings, hasMovement, events[0]).state, id, shooter, settings, hasMovement, events[1..])
  }

  /** One step: OnDeath runs exactly when the step takes the projectile from
      alive to dead; a delivery only happens in a step that kills; a dead
      projectile stays dead and unchanged. */
  lemma StepShape(s: ProjectileState, id: int, shooter: Option<int>, settings: ProjectileSettings,
                  hasMovement: bool, e: ProjectileEvent)
    ensures var o := Step(s, id, shooter, settings, hasMovement, e);
            && (o.death.Some? <==> s.isAlive && !o.state.isAlive)
            && (o.delivered.Some? ==> o.death.Some?)
            && (!s.isAlive ==> o.state == s)
  {
  }

  /** Whatever updates and kills a projectile receives, OnDeath runs at most
      once, exactly when it started alive and ended dead, and the movement
      delivers damage at most once, never after the death. */
  lemma {:induction false} KillAtMostOnce(s: ProjectileState, id: int, shooter: Option<int>,
                                         settings: ProjectileSettings, hasMovement: bool,
                                         events: seq<ProjectileEvent>)
    ensures Deaths(s, id, shooter, settings, hasMovement, events) <= 1
    ensures Deaths(s, id, shooter, settings, hasMovement, events) == 1
        <==> s.isAlive && !Run(s, id, shooter, settings, hasMovement, events).isAlive
    ensures Deliveries(s, id, shooter, settings, hasMovement, events)
        <= Deaths(s, id, shooter, settings, hasMovement, events)
    ensures !s.isAlive ==> Run(s, id, shooter, settings, hasMovement, events) == s
    decreases |events|
  {
    if |events| > 0 {
      StepShape(s, id, shooter, settings, hasMovement, events[0]);
      KillAtMostOnce(Step(s, id, shooter, settings, hasMovement, events[0]).state,
                     id, shooter, settings, hasMovement, events[1..]);
    }
  }

  /** A live projectile whose update finds the lifetime used up is dead
      after that update, whatever its movement did. */
  lemma LifetimeEnds(s: ProjectileState, id: int, shooter: Option<int>, settings: ProjectileSettings,
                     hasMovement: bool, missionTime: real, hit: Option<int>)
    requires s.isAlive && missionTime - s.spawnTime >= settings.lifetime
    ensures var o := UpdateStep(s, id, shooter, settings, hasMovement, missionTime, hit);
            !o.state.isAlive && o.death.Some?
            && (o.death.value == Expired <==> !(hasMovement && hit.Some?))
  {
  }

  // ---------------------------------------------------------------------------
  // The Projectile component

  class Projectile {
    const instanceId: int
    /** Whether a ProjectileMovement is linked to the projectile. */
    const hasMovement: bool
    var isAlive: bool
    var spawnTime: real
    var timeAlive: real
    var settings: ProjectileSettings
    /** m_shooter: the entity that fired the projectile. */
    var shooter: Option<int>
    /** What the movement's Init stored: its speed and range. */
    var movementSpeed: real
    var movementRange: real
    /** How many times the projectile was brought to life, and the damage each
        OnDeath ran with. */
    ghost var spawns: nat
    ghost var deathLog: seq<Damage>

    ghost predicate Valid()
      reads this
    {
      |deathLog| + (if isAlive then 1 else 0) == spawns
    }

    function State(): ProjectileState
      reads this
    {
      ProjectileState(isAlive, spawnTime, timeAlive)
    }

    constructor (id: int, linkedMovement: bool, initial: ProjectileSettings)
      ensures Valid() && instanceId == id && hasMovement == linkedMovement
      ensures !isAlive && settings == initial && shooter == None
      ensures spawns == 0 && deathLog == []
    {
      instanceId := id;
      hasMovement := linkedMovement;
      isAlive := false;
      spawnTime := 0.0;
      timeAlive := 0.0;
      settings := initial;
      shooter := None;
      movementSpeed := 0.0;
      movementRange := 0.0;
      spawns := 0;
      deathLog := [];
    }

    /** Projectile.SetShooter. */
    method SetShooter(entity: Option<int>)
      modifies this`shooter
      ensures shooter == entity
    {
      shooter := entity;
    }

    /** Projectile.Init: stores the settings and hands the movement its speed
        and, as its range, the lifetime. */
    method Init(newSettings: ProjectileSettings)
      modifies this`settings, this`movementSpeed, this`movementRange
      ensures settings == newSettings
      ensures hasMovement ==> movementSpeed == newSettings.speed && movementRange == newSettings.lifetime
      ensures !hasMovement ==> movementSpeed == old(movementSpeed) && movementRange == old(movementRange)
    {
      settings := newSettings;
      if hasMovement {
        movementSpeed := settings.speed;
        movementRange := settings.lifetime;
      }
    }

    /** Projectile.OnSpawned: alive, with the given spawn time. */
    method OnSpawned(time: real)
      requires Valid()
      modifies this`isAlive, this`spawnTime, this`spawns
      ensures Valid()
      ensures isAlive && spawnTime == time
      ensures spawns == old(spawns) + (if old(isAlive) then 0 else 1)
    {
      if !isAlive {
        spawns := spawns + 1;
      }
      isAlive := true;
      spawnTime := time;
    }

    /** Projectile.Kill: OnDeath runs with the damage only on the first kill. */
    method Kill(damage: Damage) returns (death: Option<Damage>)
      requires Valid()
      modifies this`isAlive, this`deathLog
      ensures Valid() && !isAlive
      ensures death == (if old(isAlive) then Some(damage) else None)
      ensures deathLog == old(deathLog) + (if old(isAlive) then [damage] else [])
      ensures Outcome(State(), None, death) == KillStep(old(State()), damage)
    {
      if !isAlive {
        death := None;
        return;
      }
      isAlive := false;
      death := Some(damage);
      deathLog := deathLog + [damage];
    }

    /** Projectile.HitTarget: the damage a target receives, attributed to this
        projectile and caused by its shooter. */
    function HitTarget(target: int): (d: Delivery)
      reads this
      ensures d.target == target && d.damage.amount == settings.damage
      ensures d.damage.source == Some(instanceId) && d.damage.instigator == shooter
    {
      Delivery(target, Damage(settings.damage, Some(instanceId), shooter))
    }

    /** Projectile.OnMissionUpdate at the given mission time, with `hit` the
        entity the movement's raycast met this tick. The bullet movement
        delivers HitTarget's damage and kills the projectile with damage 1
        from the target, before the lifetime check. */
    method OnMissionUpdate(missionTime: real, hit: Option<int>) returns (delivered: Option<Delivery>, death: Option<Damage>)
      requires Valid()
      modifies this`isAlive, this`timeAlive, this`deathLog
      ensures Valid()
      ensures Outcome(State(), delivered, death)
           == UpdateStep(old(State()), instanceId, shooter, settings, hasMovement, missionTime, hit)
      ensures deathLog == old(deathLog) + (if death.Some? then [death.value] else [])
      ensures delivered.Some? ==> delivered.value == HitTarget(delivered.value.target)
    {
      delivered, death := None, None;
      if !isAlive {
        return;
      }
      timeAlive := missionTime - spawnTime;
      if hasMovement && hit.Some? {
        delivered := Some(HitTarget(hit.value));
        death := Kill(Damage(1, Some(hit.value), Some(instanceId)));
      }
      if timeAlive >= settings.lifetime {
        var expired := Kill(Expired);
        if expired.Some? {
          death := expired;
        }
        return;
      }
    }
  }
}
