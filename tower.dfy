/** Towers: the defence actor. A mode machine Init -> Idle -> Tracking, an
    intercept solution recomputed every tracking tick, and an attack-cadence
    accumulator. The engine's view of the pawns (the enemy list, their
    positions, tracking points and velocities) and Mathf.Sqrt are
    parameters; the tower's model (animation, muzzle flash, the projectile
    it launches) receives the Attack orders the tower returns. */
module Towers {
  import opened Basics
  import opened Vectors
  import Math3D
  import SpatialSearch
  import opened Pawns
  import opened Projectiles

  datatype Mode = Init | Idle | Tracking

  /** The accuracy the towers pass to Math3D.TryGetInterception. */
  const MinimumAccuracy: real := 0.001

  /** What m_model.Attack receives: the aim point and the projectile's
      settings. */
  datatype Attack = Attack(targetPosition: Vec3, settings: ProjectileSettings)

  // ---------------------------------------------------------------------------
  // Targeting solution

  /** m_targetPosition, m_targetTimeToIntercept and m_targetDistance as one
      value. */
  datatype Solution = Solution(targetPosition: Vec3, timeToIntercept: real, distance: real)

  /** UpdateTargetingSolution: the intercept of a projectile fired from the
      tracking position (at rest) at the pawn's tracking point moving with its
      velocity; the distance is that of the intercept point, or -1 when there
      is none. */
  function TargetingSolution(from: Vec3, projectileSpeed: real, trackingPoint: Vec3, velocity: Vec3,
                             sqrt: real -> real): (s: Solution)
    ensures s.timeToIntercept >= 0.0 ==> s.targetPosition == Add(trackingPoint, Scale(s.timeToIntercept, velocity))
    ensures s.timeToIntercept < 0.0 ==> s == Solution(Zero, -1.0, -1.0)
    ensures IsSqrt(sqrt) ==> (0.0 <= s.distance <==> 0.0 <= s.timeToIntercept)
    ensures SqrMagnitude(velocity) < MinimumAccuracy ==> s.targetPosition == trackingPoint && s.timeToIntercept == 0.0
  {
    var r := Math3D.TryGetInterception(from, Zero, projectileSpeed, trackingPoint, velocity, MinimumAccuracy, sqrt);
    assert Sub(velocity, Zero) == velocity;
    if r.found then
      SqrMagnitudeNonNegative(Sub(r.interceptPoint, from));
      Solution(r.interceptPoint, r.timeToTarget, Magnitude(Sub(r.interceptPoint, from), sqrt))
    else Solution(r.interceptPoint, r.timeToTarget, -1.0)
  }

  /** The square root of a square is the absolute value. */
  lemma SqrtOfSquare(x: real, y: real, sqrt: real -> real)
    requires IsSqrt(sqrt) && x == y * y
    ensures sqrt(x) == Abs(y)
  {
    Math3D.SquareNonNegative(y);
    var r := sqrt(x);
    assert r * r == Abs(y) * Abs(y);
    Math3D.SquareMonotone(r, Abs(y));
    Math3D.SquareMonotone(Abs(y), r);
  }

  /** When the solver meets the pawn at a positive time, the distance the
      tower compares with its range is the distance the projectile flies in
      that time. */
  lemma DistanceIsFlight(from: Vec3, projectileSpeed: real, trackingPoint: Vec3, velocity: Vec3,
                         sqrt: real -> real)
    requires IsSqrt(sqrt) && 0.0 <= projectileSpeed
    requires Math3D.QuadraticCase(projectileSpeed, Sub(trackingPoint, from), velocity, MinimumAccuracy)
    requires 0.0 < TargetingSolution(from, projectileSpeed, trackingPoint, velocity, sqrt).timeToIntercept
    ensures var s := TargetingSolution(from, projectileSpeed, trackingPoint, velocity, sqrt);
            s.distance == projectileSpeed * s.timeToIntercept
  {
    var r := Math3D.TryGetInterception(from, Zero, projectileSpeed, trackingPoint, velocity, MinimumAccuracy, sqrt);
    Math3D.InterceptionReachesTarget(from, projectileSpeed, trackingPoint, velocity, MinimumAccuracy, sqrt, r);
    FlightDistance(r, from, projectileSpeed, sqrt);
    assert TargetingSolution(from, projectileSpeed, trackingPoint, velocity, sqrt)
        == Solution(r.interceptPoint, r.timeToTarget, Magnitude(Sub(r.interceptPoint, from), sqrt));
  }

  /** An intercept point as far from the tower as the projectile flies in
      the intercept time is at that flight distance. */
  lemma FlightDistance(r: Math3D.Interception, from: Vec3, speed: real, sqrt: real -> real)
    requires IsSqrt(sqrt) && 0.0 <= speed && 0.0 <= r.timeToTarget
    requires SqrMagnitude(Sub(r.interceptPoint, from)) == (speed * r.timeToTarget) * (speed * r.timeToTarget)
    ensures Magnitude(Sub(r.interceptPoint, from), sqrt) == speed * r.timeToTarget
  {
    var f := speed * r.timeToTarget;
    SqrtOfSquare(SqrMagnitude(Sub(r.interceptPoint, from)), f, sqrt);
    Math3D.MulMonotone(speed, 0.0, r.timeToTarget);
    assert 0.0 <= f;
  }

  /** With no intercept the distance is -1, which never exceeds a
      non-negative range: the tower keeps tracking a pawn it cannot hit. */
  lemma FailedSolutionKeepsTarget(from: Vec3, projectileSpeed: real, trackingPoint: Vec3, velocity: Vec3,
                                  sqrt: real -> real, range: real)
    requires 0.0 <= range
    requires TargetingSolution(from, projectileSpeed, trackingPoint, velocity, sqrt).timeToIntercept < 0.0
    ensures !(TargetingSolution(from, projectileSpeed, trackingPoint, velocity, sqrt).distance > range)
  {
  }

  // ---------------------------------------------------------------------------
  // Attack cadence

  /** One tracking tick of the cadence: the accumulator gains deltaTime /
      interval; at 1 or more one attack fires and exactly 1 is taken off. */
  function Cadence(attackT: real, deltaTime: real, interval: real): (c: (bool, real))
    requires interval != 0.0
  {
    var t := attackT + deltaTime / interval;
    if t >= 1.0 then (true, t - 1.0) else (false, t)
  }

  /** The accumulator and the number of attacks after a sequence of ticks. */
  function CadenceRun(attackT: real, deltas: seq<real>, interval: real): (real, nat)
    requires interval != 0.0
    decreases |deltas|
  {
    if |deltas| == 0 then (attackT, 0)
    else
      var c := Cadence(attackT, deltas[0], interval);
      var rest := CadenceRun(c.1, deltas[1..], interval);
      (rest.0, rest.1 + (if c.0 then 1 else 0))
  }

  /** The time elapsed over a sequence of ticks, in intervals. */
  function Intervals(deltas: seq<real>, interval: real): real
    requires interval != 0.0
    decreases |deltas|
  {
    if |deltas| == 0 then 0.0 else deltas[0] / interval + Intervals(deltas[1..], interval)
  }

  /** Every attack uses up exactly one interval of accumulated time, and at
      most one attack fires per tick. */
  lemma {:induction false} CadenceAccounts(attackT: real, deltas: seq<real>, interval: real)
    requires interval != 0.0
    ensures var r := CadenceRun(attackT, deltas, interval);
            r.0 == attackT + Intervals(deltas, interval) - r.1 as real && r.1 <= |deltas|
    decreases |deltas|
  {
    if |deltas| > 0 {
      CadenceAccounts(Cadence(attackT, deltas[0], interval).1, deltas[1..], interval);
    }
  }

  /** When no tick is longer than the interval the accumulator stays in
      [0, 1), so the attacks fired are the whole intervals elapsed. */
  lemma {:induction false} CadenceKeepsUp(attackT: real, deltas: seq<real>, interval: real)
    requires 0.0 < interval && 0.0 <= attackT < 1.0
    requires forall i :: 0 <= i < |deltas| ==> 0.0 <= deltas[i] <= interval
    ensures 0.0 <= CadenceRun(attackT, deltas, interval).0 < 1.0
    decreases |deltas|
  {
    if |deltas| > 0 {
      assert 0.0 <= deltas[0] / interval <= 1.0;
      CadenceKeepsUp(Cadence(attackT, deltas[0], interval).1, deltas[1..], interval);
    }
  }

  /** A tick longer than the interval fires once and leaves a backlog of a
      whole interval or more: attacks are not caught up within the tick. */
  lemma CadenceFallsBehind(attackT: real, deltaTime: real, interval: real)
    requires 0.0 < interval && 0.0 <= attackT && 2.0 * interval <= deltaTime
    ensures Cadence(attackT, deltaTime, interval).0
    ensures Cadence(attackT, deltaTime, interval).1 >= 1.0
  {
    assert deltaTime / interval >= 2.0;
  }

  // ---------------------------------------------------------------------------
  // The Tower component

  class Tower {
    /** transform.position, where the search for targets is centred. */
    const position: Vec3
    /** GetTrackingPosition: the weapon's tracking point, from where the
        intercept is solved. */
    const trackingPosition: Vec3
    const range: real
    const initDuration: real
    const interval: real
    const damage: int
    const hitMask: int
    const projectileSpeed: real
    const projectileLifetime: real

    var mode: Mode
    var spawnTime: real
    var targetPawn: Pawn?
    var targetPosition: Vec3
    var timeToIntercept: real
    var targetDistance: real
    var attackT: real

    /** The tower only tracks with a target, and its interval is non-zero. */
    ghost predicate Valid()
      reads this
    {
      interval != 0.0 && (mode == Tracking ==> targetPawn != null)
    }

    function CurrentSolution(): Solution
      reads this
    {
      Solution(targetPosition, timeToIntercept, targetDistance)
    }

    function AttackSettings(): ProjectileSettings {
      Projectiles.ProjectileSettings(hitMask, damage, projectileLifetime, projectileSpeed)
    }

    constructor (position: Vec3, trackingPosition: Vec3, range: real, initDuration: real, interval: real,
                 damage: int, hitMask: int, projectileSpeed: real, projectileLifetime: real)
      requires interval != 0.0
      ensures Valid() && mode == Init && targetPawn == null && attackT == 0.0
      ensures this.position == position && this.trackingPosition == trackingPosition
      ensures this.range == range && this.initDuration == initDuration && this.interval == interval
      ensures this.damage == damage && this.hitMask == hitMask
      ensures this.projectileSpeed == projectileSpeed && this.projectileLifetime == projectileLifetime
    {
      this.position := position;
      this.trackingPosition := trackingPosition;
      this.range := range;
      this.initDuration := initDuration;
      this.interval := interval;
      this.damage := damage;
      this.hitMask := hitMask;
      this.projectileSpeed := projectileSpeed;
      this.projectileLifetime := projectileLifetime;
      mode := Init;
      spawnTime := 0.0;
      targetPawn := null;
      targetPosition := Zero;
      timeToIntercept := 0.0;
      targetDistance := 0.0;
      attackT := 0.0;
    }

    /** Tower.OnSpawned: records the spawn time and starts initialising. */
    method OnSpawned(time: real)
      requires Valid()
      modifies this`spawnTime, this`mode
      ensures Valid() && spawnTime == time && mode == Init
    {
      spawnTime := time;
      StartInit();
    }

    /** Tower.StartInit. */
    method StartInit()
      requires Valid()
      modifies this`mode
      ensures Valid() && mode == Init
    {
      mode := Init;
    }

    /** Tower.OnInitUpdate: idle once the mission time is strictly past the
        end of the initialisation. */
    method OnInitUpdate(missionTime: real)
      requires Valid()
      modifies this`mode, this`targetPawn
      ensures Valid()
      ensures missionTime > spawnTime + initDuration ==> mode == Idle && targetPawn == null
      ensures missionTime <= spawnTime + initDuration ==> mode == old(mode) && targetPawn == old(targetPawn)
    {
      if missionTime > spawnTime + initDuration {
        StartIdle();
      }
    }

    /** Tower.StartIdle: idle, without a target. */
    method StartIdle()
      requires Valid()
      modifies this`mode, this`targetPawn
      ensures Valid() && mode == Idle && targetPawn == null
    {
      mode := Idle;
      targetPawn := null;
    }

    /** Tower.UpdateTargetingSolution for the current target. */
    method UpdateTargetingSolution(trackingPointOf: Pawn -> Vec3, velocityOf: Pawn -> Vec3, sqrt: real -> real)
      requires targetPawn != null
      modifies this`targetPosition, this`timeToIntercept, this`targetDistance
      ensures CurrentSolution() == TargetingSolution(trackingPosition, projectileSpeed, trackingPointOf(targetPawn),
                                              velocityOf(targetPawn), sqrt)
    {
      var s := TargetingSolution(trackingPosition, projectileSpeed, trackingPointOf(targetPawn), velocityOf(targetPawn), sqrt);
      targetPosition, timeToIntercept, targetDistance := s.targetPosition, s.timeToIntercept, s.distance;
    }

    /** Tower.StartTracking: tracks the target with a fresh solution and a
        reset attack timer. */
    method StartTracking(target: Pawn, trackingPointOf: Pawn -> Vec3, velocityOf: Pawn -> Vec3, sqrt: real -> real)
      requires Valid()
      modifies this`mode, this`targetPawn, this`targetPosition, this`timeToIntercept, this`targetDistance, this`attackT
      ensures Valid() && mode == Tracking && targetPawn == target && attackT == 0.0
      ensures CurrentSolution() == TargetingSolution(trackingPosition, projectileSpeed, trackingPointOf(target),
                                              velocityOf(target), sqrt)
    {
      mode := Tracking;
      targetPawn := target;
      UpdateTargetingSolution(trackingPointOf, velocityOf, sqrt);
      attackT := 0.0;
    }

    /** Tower.OnIdleUpdate: starts tracking the pawn FindClosest returns, if
        any, among the enemies within range. */
    method OnIdleUpdate(enemies: seq<Pawn>, positionOf: Pawn -> Vec3, trackingPointOf: Pawn -> Vec3,
                        velocityOf: Pawn -> Vec3, sqrt: real -> real)
      requires Valid()
      modifies this`mode, this`targetPawn, this`targetPosition, this`timeToIntercept, this`targetDistance, this`attackT
      ensures Valid()
      ensures var c := SpatialSearch.Closest(enemies, position, range * range, positionOf);
              if c.index.Some? then
                && mode == Tracking && targetPawn == enemies[c.index.value] && attackT == 0.0
                && CurrentSolution() == TargetingSolution(trackingPosition, projectileSpeed, trackingPointOf(targetPawn),
                                                   velocityOf(targetPawn), sqrt)
              else
                && mode == old(mode) && targetPawn == old(targetPawn) && attackT == old(attackT)
                && CurrentSolution() == old(CurrentSolution())
    {
      var result := SpatialSearch.FindClosest(position, range, enemies, positionOf, sqrt);
      if result.item.Some? {
        StartTracking(result.item.value, trackingPointOf, velocityOf, sqrt);
      }
    }

    /** Tower.OnTrackingUpdate: a missing or dead target, or a solution
        farther than the range, sends the tower back to Idle; otherwise the
        cadence runs and may return one attack at the solved point. */
    method OnTrackingUpdate(deltaTime: real, trackingPointOf: Pawn -> Vec3, velocityOf: Pawn -> Vec3,
                            sqrt: real -> real)
      returns (attack: Option<Attack>)
      requires Valid()
      modifies this`mode, this`targetPawn, this`targetPosition, this`timeToIntercept, this`targetDistance, this`attackT
      ensures Valid()
      ensures old(targetPawn) == null || !old(targetPawn.isAlive) ==>
                mode == Idle && targetPawn == null && attack == None
                && attackT == old(attackT) && CurrentSolution() == old(CurrentSolution())
      ensures old(targetPawn) != null && old(targetPawn.isAlive) ==>
                var s := TargetingSolution(trackingPosition, projectileSpeed, trackingPointOf(old(targetPawn)),
                                           velocityOf(old(targetPawn)), sqrt);
                && CurrentSolution() == s
                && (s.distance > range ==> mode == Idle && targetPawn == null && attack == None && attackT == old(attackT))
                && (!(s.distance > range) ==>
                      && mode == old(mode) && targetPawn == old(targetPawn)
                      && (attack.Some?, attackT) == Cadence(old(attackT), deltaTime, interval)
                      && (attack.Some? ==> attack.value == Attack(s.targetPosition, AttackSettings())))
    {
      attack := None;
      if targetPawn == null || !targetPawn.isAlive {
        StartIdle();
        return;
      }
      UpdateTargetingSolution(trackingPointOf, velocityOf, sqrt);
      if targetDistance > range {
        StartIdle();
        return;
      }
      attackT := attackT + deltaTime / interval;
      if attackT >= 1.0 {
        attackT := attackT - 1.0;
        attack := Some(Attack(targetPosition, AttackSettings()));
      }
    }

    /** Tower.OnMissionUpdate: nothing while the component is disabled or
        its object inactive; otherwise the update of the current mode. */
    method OnMissionUpdate(deltaTime: real, missionTime: real, active: bool, enemies: seq<Pawn>,
                           positionOf: Pawn -> Vec3, trackingPointOf: Pawn -> Vec3, velocityOf: Pawn -> Vec3,
                           sqrt: real -> real)
      returns (attack: Option<Attack>)
      requires Valid()
      modifies this`mode, this`targetPawn, this`targetPosition, this`timeToIntercept, this`targetDistance, this`attackT
      ensures Valid()
      ensures !active ==> mode == old(mode) && targetPawn == old(targetPawn) && attackT == old(attackT)
                          && CurrentSolution() == old(CurrentSolution())
      ensures attack.Some? ==> active && old(mode) == Tracking && mode == Tracking
      ensures active && old(mode) == Init ==> mode == (if missionTime > spawnTime + initDuration then Idle else Init)
      ensures active && old(mode) == Init ==>
                && attack == None && attackT == old(attackT) && CurrentSolution() == old(CurrentSolution())
                && targetPawn == (if missionTime > spawnTime + initDuration then null else old(targetPawn))
      ensures active && old(mode) == Idle ==>
                attack == None &&
                var c := SpatialSearch.Closest(enemies, position, range * range, positionOf);
                if c.index.Some? then
                  && mode == Tracking && targetPawn == enemies[c.index.value] && attackT == 0.0
                  && CurrentSolution() == TargetingSolution(trackingPosition, projectileSpeed, trackingPointOf(targetPawn),
                                                     velocityOf(targetPawn), sqrt)
                else
                  && mode == Idle && targetPawn == old(targetPawn) && attackT == old(attackT)
                  && CurrentSolution() == old(CurrentSolution())
      ensures active && old(mode) == Tracking && (old(targetPawn) == null || !old(targetPawn.isAlive)) ==>
                mode == Idle && targetPawn == null && attack == None
                && attackT == old(attackT) && CurrentSolution() == old(CurrentSolution())
      ensures active && old(mode) == Tracking && old(targetPawn) != null && old(targetPawn.isAlive) ==>
                var s := TargetingSolution(trackingPosition, projectileSpeed, trackingPointOf(old(targetPawn)),
                                           velocityOf(old(targetPawn)), sqrt);
                && CurrentSolution() == s
                && (s.distance > range ==> mode == Idle && targetPawn == null && attack == None && attackT == old(attackT))
                && (!(s.distance > range) ==>
                      && mode == Tracking && targetPawn == old(targetPawn)
                      && (attack.Some?, attackT) == Cadence(old(attackT), deltaTime, interval)
                      && (attack.Some? ==> attack.value == Attack(s.targetPosition, AttackSettings())))
    {
      attack := None;
      if !active {
        return;
      }
      match mode {
        case Init => OnInitUpdate(missionTime);
        case Tracking => attack := OnTrackingUpdate(deltaTime, trackingPointOf, velocityOf, sqrt);
        case Idle => OnIdleUpdate(enemies, positionOf, trackingPointOf, velocityOf, sqrt);
      }
    }
  }
}
