/** TowerWeapons: the weapon mounted on a tower. It runs a tracking and
    cadence update of its own beside the tower's, with the same targeting
    solution and the same cadence, but its out-of-range branch clears only
    its own target. Its model (animation, muzzle flash, launching) is an
    engine side effect; the attack orders are returned. */
module TowerWeapons {
  import opened Basics
  import opened Vectors
  import opened Pawns
  import opened Projectiles
  import opened Towers

  /** TowerWeaponAttributes: a preset's weapon numbers. */
  datatype TowerWeaponAttributes = TowerWeaponAttributes(range: real, damage: int, interval: real,
                                                         projectileSpeed: real, projectileLifetime: real,
                                                         shootAllMuzzles: bool)

  class TowerWeapon {
    /** GetTrackingPosition: the model's tracking point, or the weapon's own
        position without a model. */
    const trackingPosition: Vec3
    const range: real
    const interval: real
    const damage: int
    const hitMask: int
    const projectileSpeed: real
    const projectileLifetime: real

    /** The Tower property, set by LinkToEntity. */
    var tower: Tower?
    var targetPawn: Pawn?
    var targetPosition: Vec3
    var timeToIntercept: real
    var targetDistance: real
    var attackT: real

    function CurrentSolution(): Solution
      reads this
    {
      Solution(targetPosition, timeToIntercept, targetDistance)
    }

    function AttackSettings(): ProjectileSettings {
      Projectiles.ProjectileSettings(hitMask, damage, projectileLifetime, projectileSpeed)
    }

    constructor (trackingPosition: Vec3, attributes: TowerWeaponAttributes, hitMask: int)
      ensures this.trackingPosition == trackingPosition && hitMask == this.hitMask
      ensures range == attributes.range && damage == attributes.damage && interval == attributes.interval
      ensures projectileSpeed == attributes.projectileSpeed && projectileLifetime == attributes.projectileLifetime
      ensures tower == null && targetPawn == null && attackT == 0.0
    {
      this.trackingPosition := trackingPosition;
      this.hitMask := hitMask;
      range := attributes.range;
      damage := attributes.damage;
      interval := attributes.interval;
      projectileSpeed := attributes.projectileSpeed;
      projectileLifetime := attributes.projectileLifetime;
      tower := null;
      targetPawn := null;
      targetPosition := Zero;
      timeToIntercept := 0.0;
      targetDistance := 0.0;
      attackT := 0.0;
    }

    /** TowerWeapon.LinkToEntity. */
    method LinkToEntity(entity: Tower)
      modifies this`tower
      ensures tower == entity
    {
      tower := entity;
    }

    /** TowerWeapon.TrackingTarget: the target's tracking point, or the zero
        vector without a target. */
    function TrackingTarget(trackingPointOf: Pawn -> Vec3): (p: Vec3)
      reads this
      ensures targetPawn == null ==> p == Zero
      ensures targetPawn != null ==> p == trackingPointOf(targetPawn)
    {
      if targetPawn != null then trackingPointOf(targetPawn) else Zero
    }

    /** TowerWeapon.StartIdle: clears the weapon's target only. */
    method StartIdle()
      modifies this`targetPawn
      ensures targetPawn == null
    {
      targetPawn := null;
    }

    /** TowerWeapon.UpdateTargetingSolution: the same solution as the
        tower's, from the weapon's tracking position. */
    method UpdateTargetingSolution(trackingPointOf: Pawn -> Vec3, velocityOf: Pawn -> Vec3, sqrt: real -> real)
      requires targetPawn != null
      modifies this`targetPosition, this`timeToIntercept, this`targetDistance
      ensures CurrentSolution() == TargetingSolution(trackingPosition, projectileSpeed, trackingPointOf(targetPawn),
                                                     velocityOf(targetPawn), sqrt)
      ensures timeToIntercept < 0.0 ==> targetDistance == -1.0
    {
      var s := TargetingSolution(trackingPosition, projectileSpeed, trackingPointOf(targetPawn), velocityOf(targetPawn), sqrt);
      targetPosition, timeToIntercept, targetDistance := s.targetPosition, s.timeToIntercept, s.distance;
    }

    /** TowerWeapon.StartTracking: the target, a fresh solution and a reset
        attack timer. */
    method StartTracking(target: Pawn, trackingPointOf: Pawn -> Vec3, velocityOf: Pawn -> Vec3, sqrt: real -> real)
      modifies this`targetPawn, this`targetPosition, this`timeToIntercept, this`targetDistance, this`attackT
      ensures targetPawn == target && attackT == 0.0
      ensures CurrentSolution() == TargetingSolution(trackingPosition, projectileSpeed, trackingPointOf(target),
                                                     velocityOf(target), sqrt)
    {
      targetPawn := target;
      UpdateTargetingSolution(trackingPointOf, velocityOf, sqrt);
      attackT := 0.0;
    }

    /** TowerWeapon.OnTrackingUpdate: a missing or dead target is cleared
        and the tower is sent to Idle; a solution beyond the range clears the
        weapon's target and leaves the tower's mode alone; otherwise the
        cadence runs and may return one attack at the solved point. */
    method OnTrackingUpdate(deltaTime: real, trackingPointOf: Pawn -> Vec3, velocityOf: Pawn -> Vec3,
                            sqrt: real -> real)
      returns (attack: Option<Attack>)
      requires tower != null && tower.Valid() && interval != 0.0
      modifies this`targetPawn, this`targetPosition, this`timeToIntercept, this`targetDistance, this`attackT
      modifies tower`mode, tower`targetPawn
      ensures tower.Valid()
      ensures old(targetPawn) == null || !old(targetPawn.isAlive) ==>
                && targetPawn == null && attack == None && attackT == old(attackT)
                && tower.mode == Idle && tower.targetPawn == null
                && CurrentSolution() == old(CurrentSolution())
      ensures old(targetPawn) != null && old(targetPawn.isAlive) ==>
                var s := TargetingSolution(trackingPosition, projectileSpeed, trackingPointOf(old(targetPawn)),
                                           velocityOf(old(targetPawn)), sqrt);
                && CurrentSolution() == s
                && tower.mode == old(tower.mode) && tower.targetPawn == old(tower.targetPawn)
                && (s.distance > range ==> targetPawn == null && attack == None && attackT == old(attackT))
                && (!(s.distance > range) ==>
                      && targetPawn == old(targetPawn)
                      && (attack.Some?, attackT) == Cadence(old(attackT), deltaTime, interval)
                      && (attack.Some? ==> attack.value == Attack(s.targetPosition, AttackSettings())))
    {
      attack := None;
      if targetPawn == null || !targetPawn.isAlive {
        targetPawn := null;
        tower.StartIdle();
        return;
      }
      UpdateTargetingSolution(trackingPointOf, velocityOf, sqrt);
      if targetDistance > range {
        StartIdle();
        return;
      }
      attackT := attackT + deltaTime / interval;
      if attackT >= 1.0 {
        attackT := attackT - 1.0;
        attack := Some(Attack(targetPosition, AttackSettings()));
      }
    }
  }
}
