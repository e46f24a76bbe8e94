# Tower-defense mission core in Dafny

This project models the mission simulation of a Unity tower-defense game:

- the mission controller and its wave scheduler (`MissionManager`, `MissionData`);
- the actor state machines: pawns (enemies), towers, tower weapons and projectiles;
- the nearest-target query (`SpatialSearch.FindClosest`);
- the projectile intercept solver and the small geometry helpers of `Math3D`;
- the tower preset lookup and its index wrapping (`TowerPresetDatabase`);
- the debug logger's mode flags, line formatting and per-frame log counter (`DBGLogger`);
- the pre-order hierarchy walker and the hierarchy path builder (`TransformHelper`), over an immutable tree of named nodes.

The project has one Dafny module per source file, plus `Basics` and `Vectors`:

- `Basics` holds `Option`, `Abs`, C#'s truncating `/` and `%` (`CsDiv`, `CsRem`) and the square-root predicate `IsSqrt`.
- `Vectors` holds `Vec3` over `real`.

Modelling choices:

- **Numbers.** Unity's `float` is `real`. `Mathf.Sqrt` is a parameter `sqrt: real -> real`. A lemma that needs it requires `IsSqrt(sqrt)`: `sqrt(x) >= 0` and `sqrt(x) * sqrt(x) == x` for `x >= 0`.
- **Classes.** Objects that the game updates in place are classes with `modifies` clauses. Four of them have a value-level step function for their state: `Pawns.Pawn` (`Pawns.Step`), `Projectiles.Projectile` (`Projectiles.Step`), `DebugLogging.LogCounter` (`DebugLogging.CounterStep`) and `TransformHelpers.WalkerEnum` (`TransformHelpers.MoveNextFrom`). Their methods are tied to that function, and lemmas about runs of it state the properties that hold across many calls. The other classes (`Towers.Tower`, `TowerWeapons.TowerWeapon`, `Missions.MissionData`, `MissionManagement.MissionManager`, `TransformHelpers.Walker`, `Pawns.Engine`) state each method's new state directly in its `ensures`.
- **Coroutines.** `MissionRoutine` and `WaveRoutine` are explicit state. The caller decides when to resume a routine and which one; a resumed routine runs until its next wait or its end:
  - the mission routine is the `missionRoutine` flag and `nextWaveIndex`;
  - a wave routine is a map entry holding the wave, the next spawn index and the path.
- **Engine inputs.** These are all parameters:
  - the mission time;
  - the pawns' positions, tracking points and velocities;
  - the raycast hit of a projectile's movement;
  - the frame count, the editor and playing flags;
  - the UTC clock text.
- **Instantiation.** Unity's object instantiation is the `Pawns.Engine` class. It hands out a new instance id on each call.

## Model

| member | source | states |
|---|---|---|
| Basics.CsRem | TowerDefense/Assets/Scripts/Presets/Towers/TowerPresetDatabase.cs:50 | C#'s `%`: `a == n * CsDiv(a, n) + r`, with the remainder taking the sign of `a` and smaller than `abs(n)` |
| Math3D.TryGetInterceptTime | TowerDefense/Assets/Scripts/Utility/Math3D.cs:224-265 | success gives time >= 0; failure happens exactly in the quadratic case with a negative discriminant, and then time is -1; a relative speed² below the accuracy gives success at time 0 |
| Math3D.SolveQuadratic | TowerDefense/Assets/Scripts/Utility/Math3D.cs:246-261 | found iff the discriminant is >= 0; a found time is >= 0; otherwise -1 |
| Math3D.SolveQuadraticGivesRoot | TowerDefense/Assets/Scripts/Utility/Math3D.cs:246-255 | a positive returned time is a root of the quadratic |
| Math3D.SolveQuadraticIsEarliest | TowerDefense/Assets/Scripts/Utility/Math3D.cs:246-255 | if a positive root exists, a time is found and it is no later than any positive root |
| Math3D.QuadraticCaseSolves | TowerDefense/Assets/Scripts/Utility/Math3D.cs:233-261 | outside the slow-target case the leading coefficient is non-zero and the solver is the quadratic formula |
| Math3D.InterceptTimeMeetsTarget | TowerDefense/Assets/Scripts/Utility/Math3D.cs:224-265 | in the quadratic case (relative speed² and `a` both at least the accuracy), a positive intercept time is one at which a shot at `interceptSpeed` reaches the moving target |
| Math3D.InterceptTimeIsEarliest | TowerDefense/Assets/Scripts/Utility/Math3D.cs:224-265 | in the quadratic case, if the shot can meet the target at some positive time, the solver succeeds and its time is no later |
| Math3D.InterceptTimeIsRoot | TowerDefense/Assets/Scripts/Utility/Math3D.cs:224-265 | in the quadratic case, a positive intercept time is a root of the quadratic built from the relative position and velocity |
| Math3D.LinearCaseMeetsTarget | TowerDefense/Assets/Scripts/Utility/Math3D.cs:236-239 | in the near-equal-speed branch with exactly equal speeds (`a = 0`), a positive time is one at which the shot meets the target |
| Math3D.EarliestRoot | TowerDefense/Assets/Scripts/Utility/Math3D.cs:246-255 | the same, stated for any positive root of the quadratic's coefficients |
| Math3D.TryGetInterception | TowerDefense/Assets/Scripts/Utility/Math3D.cs:201-214 | on success the intercept point is `targetPosition + t·(targetVelocity − startVelocity)` with t >= 0; on failure it is zero with time -1; a slow relative target gives the target's own position |
| Math3D.InterceptionReachesTarget | TowerDefense/Assets/Scripts/Utility/Math3D.cs:201-214 | in the quadratic case, from a standing start, a positive intercept time puts the target, after that time, at distance `interceptSpeed·t` from the shooter |
| Math3D.SphereIsDistanceTest | TowerDefense/Assets/Scripts/Utility/Math3D.cs:273-276 | the sphere test holds iff the distance is <= abs(radius); the bound is inclusive |
| Math3D.BoxIgnoresSizeSign | TowerDefense/Assets/Scripts/Utility/Math3D.cs:267-271 | flipping the sign of a size component does not change the box test; a corner point is inside |
| Math3D.ClosestPointOnLineSegmentLeavesSegment | TowerDefense/Assets/Scripts/Utility/Math3D.cs:43-60 | as written, point (1,1,0) and segment (0,0,0)–(2,0,0) give (0,0,2), which is not on the segment |
| Math3D.InteriorResultLeavesSegment | TowerDefense/Assets/Scripts/Utility/Math3D.cs:55-59 | as written, every interior case in the z = 0 plane with the point off the line returns a point off the segment |
| Math3D.ClosestPointOnSegment | TowerDefense/Assets/Scripts/Utility/Math3D.cs:43-60 | corrected: the result lies on the segment; it is an endpoint in the two end cases, and otherwise it is the perpendicular foot |
| Math3D.ClosestPointOnSegmentIsNearest | TowerDefense/Assets/Scripts/Utility/Math3D.cs:43-60 | corrected: no point `posA + s·(posB − posA)` with `s` in [0, 1] is nearer to the point than the result |
| Math3D.ProjectionIsOrthogonal | TowerDefense/Assets/Scripts/Utility/Math3D.cs:128-131 | for a unit normal, the projection is orthogonal to the normal and projecting twice changes nothing |
| Math3D.ClosestPointIsOnPlane | TowerDefense/Assets/Scripts/Utility/Math3D.cs:112-115 | for a unit normal, the result lies on the plane and the offset from the point is parallel to the normal |
| SpatialSearch.FindClosest | TowerDefense/Assets/Scripts/Helpers/SpatialSearch.cs:25-48 | the loop returns the item chosen by `Closest`, its distance is the square root of its squared distance, or `sqrt(float.MaxValue)` when nothing qualifies; `totalObjectsInRange` is 0 |
| SpatialSearch.Closest | TowerDefense/Assets/Scripts/Helpers/SpatialSearch.cs:31-44 | a chosen index is inside the collection |
| SpatialSearch.ClosestIsNearest | TowerDefense/Assets/Scripts/Helpers/SpatialSearch.cs:36-43 | the chosen item is in range (inclusive) and no element in range is nearer; every earlier element is strictly farther or out of range, so ties go to the first |
| SpatialSearch.NothingFoundIffNoneEligible | TowerDefense/Assets/Scripts/Helpers/SpatialSearch.cs:36-38 | no item is found iff no element has squared distance <= range² and < `float.MaxValue`, the initial minimum of the empty result |
| SpatialSearch.RangeTestIsSphereTest | TowerDefense/Assets/Scripts/Helpers/SpatialSearch.cs:28-36 | the range test is the inclusive sphere test with radius abs(range) |
| Pawns.StepDiesIffAliveToDead | TowerDefense/Assets/Scripts/Entities/Pawns/Pawn.cs:80-104 | one event reports a death iff it takes the pawn from alive to dead; a dead pawn stays dead; health drops by exactly the hit's damage |
| Pawns.DeathAtMostOnce | TowerDefense/Assets/Scripts/Entities/Pawns/Pawn.cs:97-121 | over any event sequence the death notification fires at most once, and exactly once iff the pawn goes from alive to dead |
| Pawns.HealthIsTotalDamage | TowerDefense/Assets/Scripts/Entities/Pawns/Pawn.cs:80-82 | health after any events is the start health minus the total damage, with no sign guard |
| Pawns.Pawn.OnSpawned | TowerDefense/Assets/Scripts/Entities/Pawns/Pawn.cs:45-48 | alive, records the spawn time and path; health unchanged |
| Pawns.Pawn.OnMissionUpdate | TowerDefense/Assets/Scripts/Entities/Pawns/Pawn.cs:64-66 | `timeAlive = missionTime − spawnTime`, whether or not alive |
| Pawns.Pawn.Kill | TowerDefense/Assets/Scripts/Entities/Pawns/Pawn.cs:97-104 | reports a death iff the pawn was alive; afterwards it is dead; matches `KillStep` |
| Pawns.Pawn.Hit | TowerDefense/Assets/Scripts/Entities/Pawns/Pawn.cs:75-95 | health drops by the damage; alive iff it was alive and health > 0; death reported iff it was alive and health <= 0; matches `HitStep` |
| Pawns.Engine.Instantiate | TowerDefense/Assets/Scripts/Missions/MissionData.cs:42-43 | a fresh, not-yet-alive pawn with the next id exactly when the prefab carries a pawn |
| Projectiles.StepShape | TowerDefense/Assets/Scripts/Entities/Projectiles/Projectile.cs:48-66 | one event reports a death iff it takes the projectile from alive to dead; a delivery comes only with that death; a dead projectile ignores every event |
| Projectiles.KillAtMostOnce | TowerDefense/Assets/Scripts/Entities/Projectiles/Projectile.cs:103-122 | over any events there is at most one death, exactly one iff alive-to-dead; deliveries never outnumber deaths; a dead projectile never changes |
| Projectiles.LifetimeEnds | TowerDefense/Assets/Scripts/Entities/Projectiles/Projectile.cs:55-65 | once `timeAlive >= lifetime` the update kills the projectile; the death is the expiry damage `Damage(1, none, none)` unless the movement hit a target in that update |
| Projectiles.Projectile.SetShooter | TowerDefense/Assets/Scripts/Entities/Projectiles/Projectile.cs:68-71 | the shooter is recorded |
| Projectiles.Projectile.Init | TowerDefense/Assets/Scripts/Entities/Projectiles/Projectile.cs:78-86 | stores the settings and passes speed and lifetime to the movement when there is one |
| Projectiles.Projectile.OnSpawned | TowerDefense/Assets/Scripts/Entities/Projectiles/Projectile.cs:37-40 | alive with the spawn time recorded |
| Projectiles.Projectile.Kill | TowerDefense/Assets/Scripts/Entities/Projectiles/Projectile.cs:103-110 | dies; logs a death iff it was alive; matches `KillStep` |
| Projectiles.Projectile.HitTarget | TowerDefense/Assets/Scripts/Entities/Projectiles/Projectile.cs:95-101 | delivers `Damage(settings.damage, this, shooter)` to the target |
| Projectiles.Projectile.OnMissionUpdate | TowerDefense/Assets/Scripts/Entities/Projectiles/Projectile.cs:48-66 | the new state, delivery and death are those of `UpdateStep`; any delivery is `HitTarget` of the hit |
| Towers.TargetingSolution | TowerDefense/Assets/Scripts/Entities/Towers/Tower.cs:156-163 | a solved position is the tracking point moved for the intercept time; a failure gives distance -1; the distance is >= 0 iff the time is |
| Towers.DistanceIsFlight | TowerDefense/Assets/Scripts/Entities/Towers/Tower.cs:156-163 | the solved distance is the projectile's flight `speed·t` |
| Towers.FailedSolutionKeepsTarget | TowerDefense/Assets/Scripts/Entities/Towers/Tower.cs:159-191 | with range >= 0, a failed solution never passes the out-of-range test, so the tower keeps tracking |
| Towers.CadenceAccounts | TowerDefense/Assets/Scripts/Entities/Towers/Tower.cs:197-202 | over any ticks, the final accumulator plus the number of attacks equals the start plus the sum of `dt/interval` |
| Towers.CadenceKeepsUp | TowerDefense/Assets/Scripts/Entities/Towers/Tower.cs:197-202 | if no tick is longer than the interval, the accumulator stays in [0, 1) |
| Towers.CadenceFallsBehind | TowerDefense/Assets/Scripts/Entities/Towers/Tower.cs:197-202 | a tick of two intervals fires one attack and leaves a residual >= 1 |
| Towers.Tower.OnSpawned | TowerDefense/Assets/Scripts/Entities/Towers/Tower.cs:81-89 | records the spawn time and enters Init |
| Towers.Tower.StartInit | TowerDefense/Assets/Scripts/Entities/Towers/Tower.cs:110-118 | enters Init |
| Towers.Tower.OnInitUpdate | TowerDefense/Assets/Scripts/Entities/Towers/Tower.cs:120-129 | goes Idle with no target iff `missionTime > spawnTime + initDuration` (strict); otherwise unchanged |
| Towers.Tower.StartIdle | TowerDefense/Assets/Scripts/Entities/Towers/Tower.cs:131-140 | Idle with the target cleared |
| Towers.Tower.UpdateTargetingSolution | TowerDefense/Assets/Scripts/Entities/Towers/Tower.cs:156-163 | the stored solution is `TargetingSolution` for the target |
| Towers.Tower.StartTracking | TowerDefense/Assets/Scripts/Entities/Towers/Tower.cs:165-179 | Tracking the given target, the solution recomputed, the attack timer reset to 0 |
| Towers.Tower.OnIdleUpdate | TowerDefense/Assets/Scripts/Entities/Towers/Tower.cs:142-149 | starts tracking the nearest enemy in range as chosen by `Closest`; with none, nothing changes |
| Towers.Tower.OnTrackingUpdate | TowerDefense/Assets/Scripts/Entities/Towers/Tower.cs:181-203 | a missing or dead target, or a solved distance beyond range, means Idle with no attack; otherwise the cadence step decides the one possible attack at the solved point |
| Towers.Tower.OnMissionUpdate | TowerDefense/Assets/Scripts/Entities/Towers/Tower.cs:91-108 | nothing changes while the component is disabled or its object inactive; attacks come only from Tracking; otherwise Init, Idle and Tracking each give the outcome of their own update: the strict-`>` move to Idle, tracking the enemy `Closest` picks, and Idle on a lost, dead or out-of-range target or else one cadence step; Init changes neither attack, cadence nor solution and clears the target only on the move to Idle |
| TowerWeapons.TowerWeapon.constructor | TowerDefense/Assets/Scripts/Entities/Towers/TowerWeaponAttributes.cs:6-24 | the weapon takes range, damage, interval, projectile speed and lifetime from its attributes, as `weapon.SetFromPreset(towerPreset.weaponPreset)` does when a tower is built (ClickBuilder.cs line 205) |
| TowerWeapons.TowerWeapon.LinkToEntity | TowerDefense/Assets/Scripts/Entities/Towers/TowerWeapon.cs:43-53 | links the weapon to its tower |
| TowerWeapons.TowerWeapon.TrackingTarget | TowerDefense/Assets/Scripts/Entities/Towers/TowerWeapon.cs:41 | the target's tracking point, or the zero vector with no target |
| TowerWeapons.TowerWeapon.StartIdle | TowerDefense/Assets/Scripts/Entities/Towers/TowerWeapon.cs:61-67 | the weapon's target is cleared |
| TowerWeapons.TowerWeapon.UpdateTargetingSolution | TowerDefense/Assets/Scripts/Entities/Towers/TowerWeapon.cs:128-135 | the stored solution is `TargetingSolution`; a failure gives distance -1 |
| TowerWeapons.TowerWeapon.StartTracking | TowerDefense/Assets/Scripts/Entities/Towers/TowerWeapon.cs:80-96 | target set, attack timer reset to 0, solution recomputed |
| TowerWeapons.TowerWeapon.OnTrackingUpdate | TowerDefense/Assets/Scripts/Entities/Towers/TowerWeapon.cs:98-121 | a missing or dead target clears it and sends the tower Idle; out of range clears only the weapon's target and leaves the tower's mode; otherwise at most one attack, subtracting exactly 1 |
| Missions.MissionData.constructor | TowerDefense/Assets/Scripts/Missions/MissionData.cs:23-28 | keeps the settings and waves; empty registry |
| Missions.MissionData.StartMission | TowerDefense/Assets/Scripts/Missions/MissionData.cs:30-38 | time 0, active wave -1, next wave 0, full player health, no enemies, counter 0 |
| Missions.MissionData.SpawnEnemy | TowerDefense/Assets/Scripts/Missions/MissionData.cs:40-56 | no pawn: registry and counter unchanged; a duplicate id sets the counter to the registry's size and then throws, leaving the registry unchanged; otherwise exactly one new key, and the counter is the count before insertion |
| Missions.MissionData.RemoveEnemy | TowerDefense/Assets/Scripts/Missions/MissionData.cs:58-64 | removes only that id (idempotent) and then the counter equals the registry size |
| Missions.MissionData.ApplyPlayerDamage | TowerDefense/Assets/Scripts/Missions/MissionData.cs:66-70 | health drops by exactly the amount; returns health <= 0 |
| MissionManagement.PathOf | TowerDefense/Assets/Scripts/Managers/MissionManager.cs:192 | the spawn path is `spawnPathIndex % paths.Length` in C#: in range for a non-negative index, in (−count, 0] for a negative one |
| MissionManagement.MissionManager.Update | TowerDefense/Assets/Scripts/Managers/MissionManager.cs:115-119 | mission time advances by `deltaTime` only while Active with player health > 0; health, the registry, the alive counter and both wave indices are unchanged |
| MissionManagement.MissionManager.StartMission | TowerDefense/Assets/Scripts/Managers/MissionManager.cs:126-133 | Active with fresh data at time 0 and full health; the waves due at time 0 start in order, and the routine keeps running iff waves remain |
| MissionManagement.MissionManager.RunMissionRoutine | TowerDefense/Assets/Scripts/Managers/MissionManager.cs:135-149 | starts the waves in list order, each once, none before its start time; stops at the first future wave; after the last wave `nextWaveIndex` is -1 |
| MissionManagement.MissionManager.ResumeMissionRoutine | TowerDefense/Assets/Scripts/Managers/MissionManager.cs:135-149 | resuming the mission routine keeps the invariant, time and health, and starts only waves that are due; while Active it then waits for a future wave or ends with `nextWaveIndex == -1`; when not Active nothing is started; with the routine already finished, the routines, spawn logs, registry and wave indices are all unchanged |
| MissionManagement.MissionManager.StartWave | TowerDefense/Assets/Scripts/Managers/MissionManager.cs:171-176 | adds a new routine for the wave and keeps every other routine; sets `activeWaveIndex`; the routine has already issued its due spawns, so if it waits, its next spawn is scheduled after now |
| MissionManagement.MissionManager.OpenWave | TowerDefense/Assets/Scripts/Managers/MissionManager.cs:173-174 | the wave becomes the active one, is counted as started at the current time and has no spawns yet |
| MissionManagement.MissionManager.EndWave | TowerDefense/Assets/Scripts/Managers/MissionManager.cs:178-186 | removes that routine if present, nothing else |
| MissionManagement.MissionManager.IssueSpawn | TowerDefense/Assets/Scripts/Managers/MissionManager.cs:194-198 | logs the next spawn with its scheduled time `startTime + i·spawnInterval` and the wave's path; the registry grows by one when the prefab carries a pawn |
| MissionManagement.MissionManager.RunWaveRoutine | TowerDefense/Assets/Scripts/Managers/MissionManager.cs:188-204 | issues the due spawns in order; it waits at the first spawn scheduled after now, or finishes after exactly `spawnCount` spawns and removes its routine |
| MissionManagement.MissionManager.ResumeWaveRoutine | TowerDefense/Assets/Scripts/Managers/MissionManager.cs:188-204 | resuming a wave routine keeps the invariant, time, health and wave indices, changes no other wave's routine or spawns; a waiting routine grows its spawn log and then waits for a future spawn of the same wave or ends after all `spawnCount` spawns; for any other routine the registry, the alive counter and the engine's id counter are also unchanged |
| MissionManagement.MissionManager.ContinueWaveRoutine | TowerDefense/Assets/Scripts/Managers/MissionManager.cs:188-204 | a waiting wave routine grows its own spawn log, leaves other waves' routines and logs alone, and then waits for a future spawn of the same wave or leaves the map after all `spawnCount` spawns |
| MissionManagement.MissionManager.EndMission | TowerDefense/Assets/Scripts/Managers/MissionManager.cs:151-169 | Ended with no mission or wave routine left, also when called again |
| MissionManagement.MissionManager.OnEnemyDied | TowerDefense/Assets/Scripts/Managers/MissionManager.cs:220-232 | always removes the enemy; ends the mission iff Active, a wave has started, no wave is pending and no enemy is registered; waves still spawning are not consulted |
| MissionManagement.MissionManager.OnEnemyReachedPathEnd | TowerDefense/Assets/Scripts/Managers/MissionManager.cs:206-218 | player damage only while Active; health <= 0 ends the mission; the pawn is killed in every case |
| MissionManagement.MissionManager.ChargePlayer | TowerDefense/Assets/Scripts/Managers/MissionManager.cs:208-215 | only an Active mission loses the pawn's damage from the player's health, and it ends exactly when that health is <= 0 |
| MissionManagement.MissionManager.HitEnemy | TowerDefense/Assets/Scripts/Entities/Pawns/Pawn.cs:75-121 | a hit follows `HitStep`, and a resulting death reaches `OnEnemyDied`: a kill while Active that empties the registry after the last wave has opened ends the mission and stops every routine; otherwise state and routines are unchanged |
| TowerPresets.GetPreset | TowerDefense/Assets/Scripts/Presets/Towers/TowerPresetDatabase.cs:34-40 | as written: null iff index < 0 or index > count; an exception iff index == count; otherwise the preset at that index |
| TowerPresets.GetPresetChecked | TowerDefense/Assets/Scripts/Presets/Towers/TowerPresetDatabase.cs:34-40 | corrected: found iff 0 <= index < count, and never out of range |
| TowerPresets.GetPresetThrowsAtLength | TowerDefense/Assets/Scripts/Presets/Towers/TowerPresetDatabase.cs:36-39 | index == count throws as written and is not found once corrected |
| TowerPresets.GetPresetAgreesBelowLength | TowerDefense/Assets/Scripts/Presets/Towers/TowerPresetDatabase.cs:36-39 | the two lookups agree on every other index |
| TowerPresets.GetPresetIndexRelative | TowerDefense/Assets/Scripts/Presets/Towers/TowerPresetDatabase.cs:42-51 | -1 for no presets, 0 for one; for two or more, C#'s remainder: in range for a non-negative index, in (−count, 0] for a negative one |
| TowerPresets.WrappedIndexFindsPreset | TowerDefense/Assets/Scripts/Presets/Towers/TowerPresetDatabase.cs:42-51 | a wrapped non-negative index always finds a preset |
| TowerPresets.WrapIsPeriodic | TowerDefense/Assets/Scripts/Presets/Towers/TowerPresetDatabase.cs:50 | for a non-negative index, adding the count does not change the wrapped index |
| DebugLogging.FlagsReadBack | TowerDefense/Assets/Libraries/DebugUtilities/Runtime/Logging/DBGLogger.cs:100-103 | bit 0 is Timestamp, bit 1 Name, bit 2 CallerType: each flag reads back as set |
| DebugLogging.ModeValues | TowerDefense/Assets/Libraries/DebugUtilities/Runtime/Logging/DBGLogger.cs:15 | 1, 3, 5 and 7 are exactly the flag sets named by the modes |
| DebugLogging.FlagsCoverThreeBits | TowerDefense/Assets/Libraries/DebugUtilities/Runtime/Logging/DBGLogger.cs:14-15 | every value in [0, 8) is the flag set of its three bits |
| DebugLogging.GetCallerName | TowerDefense/Assets/Libraries/DebugUtilities/Runtime/Logging/DBGLogger.cs:51-76 | empty iff the Name bit is unset, the caller is null or a type; otherwise the quoted object name, or the quoted `<type>` |
| DebugLogging.GetCallerType | TowerDefense/Assets/Libraries/DebugUtilities/Runtime/Logging/DBGLogger.cs:78-92 | empty iff the CallerType bit is unset; otherwise the type's full name in angle brackets (the type itself for a static caller, the runtime type otherwise), `<NULL>` for a null caller |
| DebugLogging.GetObjectTypeName | TowerDefense/Assets/Libraries/DebugUtilities/Runtime/Logging/DBGLogger.cs:94-98 | a suffix with no '.', preceded by a '.' when shorter than the full name |
| DebugLogging.ShortNameIsWholeIffNoDot | TowerDefense/Assets/Libraries/DebugUtilities/Runtime/Logging/DBGLogger.cs:94-98 | the whole name comes back iff it has no '.' |
| DebugLogging.ShortNameOfQualified | TowerDefense/Assets/Libraries/DebugUtilities/Runtime/Logging/DBGLogger.cs:94-98 | `prefix.Last` gives `Last` |
| DebugLogging.NatToStringReadsBack | TowerDefense/Assets/Libraries/DebugUtilities/Runtime/Logging/DBGLogger.cs:43-49 | the decimal text of the frame numbers reads back as the number |
| DebugLogging.GetTimeStamp | TowerDefense/Assets/Libraries/DebugUtilities/Runtime/Logging/DBGLogger.cs:43-49 | a bracketed stamp: frame and per-frame count while playing, the UTC clock text in the editor when not playing |
| DebugLogging.Format | TowerDefense/Assets/Libraries/DebugUtilities/Runtime/Logging/DBGLogger.cs:38-41 | timestamp, a space, caller name and type, `": "`, message, in that order |
| DebugLogging.TimestampOnlyLine | TowerDefense/Assets/Libraries/DebugUtilities/Runtime/Logging/DBGLogger.cs:38-41 | with only the Timestamp flag the line is `timestamp + " : " + message` |
| DebugLogging.LogsOfAFrameCountFromZero | TowerDefense/Assets/Libraries/DebugUtilities/Runtime/Logging/DBGLogger.cs:105-117 | k logs in a new frame leave that frame recorded with count k − 1 |
| DebugLogging.SameFrameAdds | TowerDefense/Assets/Libraries/DebugUtilities/Runtime/Logging/DBGLogger.cs:105-117 | k logs in the recorded frame add k to the count |
| DebugLogging.LogCounter.UpdateLogCounter | TowerDefense/Assets/Libraries/DebugUtilities/Runtime/Logging/DBGLogger.cs:105-117 | no change in the editor when not playing; a new frame resets the count to 0 and records the frame; the same frame increments it |
| TransformHelpers.AtAppend | TowerDefense/Assets/Scripts/Helpers/TransformHelper.cs:97 | the path extended by i names the parent's i-th child |
| TransformHelpers.DescendantsAreBelow | TowerDefense/Assets/Scripts/Helpers/TransformHelper.cs:68-101 | every node listed in pre-order lies strictly below its start |
| TransformHelpers.LastIsLeaf | TowerDefense/Assets/Scripts/Helpers/TransformHelper.cs:68-101 | the last node of a pre-order listing has no children |
| TransformHelpers.MoveNextFrom | TowerDefense/Assets/Scripts/Helpers/TransformHelper.cs:68-101 | the step keeps a non-empty stack of valid positions |
| TransformHelpers.MoveNextSpec | TowerDefense/Assets/Scripts/Helpers/TransformHelper.cs:68-101 | a step yields the next pre-order node and leaves the rest of the listing, or ends exactly when nothing remains |
| TransformHelpers.ChildMoveSpec | TowerDefense/Assets/Scripts/Helpers/TransformHelper.cs:73-82 | with a nested enumerator, the step yields what the nested one yields, or drops it and goes on by itself |
| TransformHelpers.ChildMovedSpec | TowerDefense/Assets/Scripts/Helpers/TransformHelper.cs:76-77 | a nested enumerator that moved is kept, and the rest of the listing is its rest followed by the later children |
| TransformHelpers.ChildDoneSpec | TowerDefense/Assets/Scripts/Helpers/TransformHelper.cs:79-82 | a finished nested enumerator is dropped with the current node, and the enumerator goes on with its later children |
| TransformHelpers.AfterChildSpec | TowerDefense/Assets/Scripts/Helpers/TransformHelper.cs:74-100 | the same for the innermost enumerator once its nested child is finished |
| TransformHelpers.NestedSpec | TowerDefense/Assets/Scripts/Helpers/TransformHelper.cs:84-90 | a node with children opens a nested enumerator that yields its first child |
| TransformHelpers.FreshNested | TowerDefense/Assets/Scripts/Helpers/TransformHelper.cs:88 | a new nested enumerator at a node is valid and has exactly that node's descendants to yield |
| TransformHelpers.AdvanceSpec | TowerDefense/Assets/Scripts/Helpers/TransformHelper.cs:92-100 | a childless node moves on to its next sibling, or past the end |
| TransformHelpers.AdvanceToNext | TowerDefense/Assets/Scripts/Helpers/TransformHelper.cs:97-100 | the next sibling becomes current and the walker's current |
| TransformHelpers.AdvancePastEnd | TowerDefense/Assets/Scripts/Helpers/TransformHelper.cs:92-95 | past the last child, `MoveNext` returns false once the position reaches the child count |
| TransformHelpers.StepSpec | TowerDefense/Assets/Scripts/Helpers/TransformHelper.cs:68-101 | any step from a valid state keeps it valid and consumes exactly the head of the pre-order listing |
| TransformHelpers.CurrentIsInnermost | TowerDefense/Assets/Scripts/Helpers/TransformHelper.cs:113-137 | `Current` reads the innermost enumerator's node, which is the walker's current |
| TransformHelpers.Walker.GetEnumerator | TowerDefense/Assets/Scripts/Helpers/TransformHelper.cs:31-34 | a new enumerator rooted at the walker's current node |
| TransformHelpers.WalkerEnum.MoveNext | TowerDefense/Assets/Scripts/Helpers/TransformHelper.cs:68-101 | follows `MoveNextFrom`, keeps the enumerator valid, and returns true iff pre-order nodes remain |
| TransformHelpers.WalkerEnum.MoveNextAt | TowerDefense/Assets/Scripts/Helpers/TransformHelper.cs:68-101 | the recursive call through the nested enumerators follows `MoveNextFrom` |
| TransformHelpers.WalkerEnum.AfterChildAt | TowerDefense/Assets/Scripts/Helpers/TransformHelper.cs:85-100 | the innermost enumerator's step follows `AfterChild` |
| TransformHelpers.WalkerEnum.Current | TowerDefense/Assets/Scripts/Helpers/TransformHelper.cs:113-137 | follows `CurrentFrom`: the source node first when requested (clearing the flag), else the innermost current |
| TransformHelpers.WalkerEnum.Reset | TowerDefense/Assets/Scripts/Helpers/TransformHelper.cs:103-106 | only the outer position goes back to -1 |
| TransformHelpers.Enumerate | TowerDefense/Assets/Scripts/Helpers/TransformHelper.cs:244-248 | a `foreach` yields the source (if requested) then its descendants in pre-order; afterwards the walker's current is the last node yielded, a leaf |
| TransformHelpers.WalkEnd | TowerDefense/Assets/Scripts/Helpers/TransformHelper.cs:33-98 | the last node a walk yields has no descendants, so a second enumeration yields nothing below it |
| TransformHelpers.GetPathInHierarchy | TowerDefense/Assets/Scripts/Helpers/TransformHelper.cs:250-260 | as written: the names below the root, then the node's own name again, joined by '/' |
| TransformHelpers.GetPathInHierarchyFromRoot | TowerDefense/Assets/Scripts/Helpers/TransformHelper.cs:250-260 | corrected: every name from the root to the node, joined by '/' |
| TransformHelpers.JoinSeparators | TowerDefense/Assets/Scripts/Helpers/TransformHelper.cs:255 | joining n slash-free names gives n − 1 slashes |
| TransformHelpers.PathSeparators | TowerDefense/Assets/Scripts/Helpers/TransformHelper.cs:250-260 | both paths hold one '/' per ancestor; a parentless node gives its own name |
| TransformHelpers.PathOfAChild | TowerDefense/Assets/Scripts/Helpers/TransformHelper.cs:250-260 | a child "Tower" of "Scene" gives "Tower/Tower" as written and "Scene/Tower" once corrected |

## Left out

- Floating point: every `float` is an exact `real`, so rounding, overflow and NaN are not modelled. `float.MaxValue` is kept as an exact constant.
- `Mathf.Sqrt` is a parameter. Lemmas that rely on it require `IsSqrt`.
- C# `int` wrap-around is not modelled: pawn health, player health, the log counter and the frame count are unbounded integers.
- Math3D.TryGetInterceptTime: the meeting-time lemmas cover the quadratic case and the linear branch with exactly equal speeds. With `0 < |a| < minimumAccuracy` the linear time is only an approximation, and the slow-target branch returns 0 without a meeting claim.
- TowerWeapons.TowerWeapon.constructor: the file that defines `SetFromPreset` is not part of this model. The copy of the attributes is modelled from the attribute record and the call site.
- Math3D.TryGetInterceptTime: requires `minimumAccuracy > 0`, which is the value every caller passes. Zero would let the quadratic branch divide by zero.
- Towers.Cadence: requires a non-zero attack interval, which the source divides by.
- MissionManagement.MissionManager.constructor: requires at least one path. The source takes `paths.Length` as a divisor.
- MissionManagement.MissionManager.StartMission: modelled only from the Init state. A second start would restart coroutines, and that depends on Unity's scheduler.
- MissionManagement.MissionManager.StartWave: modelled only as the mission routine calls it, for the next wave in order. A direct call with a duplicate index would throw in `Dictionary.Add`.
- MissionManagement.MissionManager.EndWave: modelled only as the wave routine calls it.
- Coroutine timing: `WaitForSeconds` counts Unity's scaled game time, not the mission time. The model compares each routine's wait against mission time. When and in which order routines are resumed is left to the caller; the engine's scheduler is not modelled.
- Movement: pawn movement along splines, spawn locations, projectile motion and its raycast are engine geometry. A projectile's hit is an input to its update.
- Left out entirely:
  - audio, animation, models and GUI (`OnGUI`);
  - the singletons and asset loading (`GetInstance`, `Resources.Load`);
  - `EventManager`.
- Engine queries as parameters: the enemy list, a pawn's tracking point and velocity, and a tower's positions.
- The file that declares the `MissionState` enum is not part of this model. Its three values (Init, Active, Ended) are the `MissionState` datatype, as `MissionManager.cs` uses them.
- Missions.MissionData.EnemiesAlive: the registry exists only after `StartMission`. Before that the model's registry is empty and not null.
- Pawns.Pawn.OnSpawned: the path and spawn location are not applied.
- Projectiles.Projectile.OnMissionUpdate: the movement step before the lifetime check is reduced to its hit result.
- DebugLogging.GetTimeStamp: the UTC clock is a parameter.
- The logging calls inside the game's methods are not modelled. This covers `Tower.Kill`, `OnHit` and the damage log.
- TransformHelpers.WalkerEnum: the chain of nested enumerator objects is modelled as a stack of frames, with the outermost first. Object identity of the nested enumerators is not modelled.
- TransformHelpers.WalkerEnum.Reset: resets only the outer position, as the source does. The model does not claim that the enumerator stays valid after it.
- The exception handler in `Current` is not modelled, because no path reaches it.
- Math3D: the remaining functions are left out:
  - the vertex generators;
  - the volumes;
  - `RandomDirectionWithinCone`;
  - the plane and line intersections;
  - `DistanceFromPointToSegment`.
  They rely on trigonometry, randomness or approximate comparisons.

## Findings

| source | as written | input that shows it | evidently intended | confidence | as-written member | corrected member |
|---|---|---|---|---|---|---|
| TowerDefense/Assets/Scripts/Presets/Towers/TowerPresetDatabase.cs:36-39 | the guard rejects `index > Length`, so `index == Length` reaches the array and throws | any list, index = its length | reject `index >= Length` and return null | high (not executed) | TowerPresets.GetPresetThrowsAtLength | TowerPresets.GetPresetChecked |
| TowerDefense/Assets/Scripts/Utility/Math3D.cs:43-60 | the interior case returns `Cross(ab, ap)`, a vector that is not a point on the segment | point (1,1,0), segment (0,0,0)–(2,0,0) gives (0,0,2) | return `posA + ab·(ap·ab / ab·ab)`, the perpendicular foot | high (not executed) | Math3D.ClosestPointOnLineSegmentLeavesSegment | Math3D.ClosestPointOnSegment |
| TowerDefense/Assets/Scripts/Helpers/TransformHelper.cs:250-260 | the loop prepends the current node's name before moving to the parent, so the leaf's name appears twice and the root's name never appears | child "Tower" of root "Scene" gives "Tower/Tower" | "Scene/Tower", the names from the root down | high (not executed) | TransformHelpers.PathOfAChild | TransformHelpers.GetPathInHierarchyFromRoot |
