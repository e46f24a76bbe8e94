/** The exact-algebra part of the game's Math3D helper class: the intercept
    solver used by towers for lead prediction, the point-in-shape tests, the
    closest point on a segment and the plane projections. */
module Math3D {
  import opened Basics
  import opened Vectors

  /** TryGetInterceptTime's boolean result together with its out-parameter. */
  datatype InterceptTime = InterceptTime(found: bool, timeToTarget: real)

  /** TryGetInterception's boolean result together with its two out-parameters. */
  datatype Interception = Interception(found: bool, interceptPoint: Vec3, timeToTarget: real)

  // ---------------------------------------------------------------------------
  // The quadratic behind the solver. A projectile leaving the origin at speed s
  // meets a target at relative position p moving with relative velocity v after
  // time t exactly when |p + t v|^2 = (s t)^2, that is QA t^2 + QB t + QC = 0.

  function QA(interceptSpeed: real, relVel: Vec3): real {
    SqrMagnitude(relVel) - interceptSpeed * interceptSpeed
  }

  function QB(relPos: Vec3, relVel: Vec3): real { 2.0 * Dot(relVel, relPos) }

  function QC(relPos: Vec3): real { SqrMagnitude(relPos) }

  function Discriminant(a: real, b: real, c: real): real { b * b - 4.0 * a * c }

  /** The projectile, fired from the origin at the given speed, is where the target is at time t. */
  ghost predicate Meets(interceptSpeed: real, relPos: Vec3, relVel: Vec3, t: real) {
    SqrMagnitude(Add(relPos, Scale(t, relVel))) == (interceptSpeed * t) * (interceptSpeed * t)
  }

  /** The branch of the solver that solves the full quadratic (neither the
      near-stationary nor the near-equal-speed special case). */
  ghost predicate QuadraticCase(interceptSpeed: real, relPos: Vec3, relVel: Vec3, minimumAccuracy: real) {
    SqrMagnitude(relVel) >= minimumAccuracy && Abs(QA(interceptSpeed, relVel)) >= minimumAccuracy
  }

  /** Math3D.TryGetInterceptTime. A relative speed squared below the accuracy
      gives time 0; a quadratic coefficient within the accuracy of 0 falls back
      to the linear solution; otherwise a positive discriminant picks the
      smaller positive root (0 when neither root is positive), a zero
      discriminant the double root (clamped at 0), and only a negative
      discriminant reports failure, with time -1. */
  function TryGetInterceptTime(interceptSpeed: real, relPos: Vec3, relVel: Vec3,
                               minimumAccuracy: real, sqrt: real -> real): (r: InterceptTime)
    requires 0.0 < minimumAccuracy
    ensures r.found ==> 0.0 <= r.timeToTarget
    ensures !r.found <==> (QuadraticCase(interceptSpeed, relPos, relVel, minimumAccuracy)
                           && Discriminant(QA(interceptSpeed, relVel), QB(relPos, relVel), QC(relPos)) < 0.0)
    ensures !r.found ==> r.timeToTarget == -1.0
    ensures SqrMagnitude(relVel) < minimumAccuracy ==> r == InterceptTime(true, 0.0)
  {
    var velocitySquared := SqrMagnitude(relVel);
    if velocitySquared < minimumAccuracy then
      InterceptTime(true, 0.0)
    else
      var a := QA(interceptSpeed, relVel);
      if Abs(a) < minimumAccuracy then
        // A zero denominator yields -infinity or NaN in single precision, and
        // Mathf.Max of either with 0 is 0.
        var denominator := 2.0 * Dot(relVel, relPos);
        InterceptTime(true, if denominator == 0.0 then 0.0 else Max(-SqrMagnitude(relPos) / denominator, 0.0))
      else
        SolveQuadratic(a, QB(relPos, relVel), Discriminant(a, QB(relPos, relVel), QC(relPos)), sqrt)
  }

  /** The full-quadratic branch of TryGetInterceptTime, on its coefficients a
      and b and its discriminant. */
  function SolveQuadratic(a: real, b: real, determinant: real, sqrt: real -> real): (r: InterceptTime)
    requires a != 0.0
    ensures r.found <==> 0.0 <= determinant
    ensures r.found ==> 0.0 <= r.timeToTarget
    ensures !r.found ==> r.timeToTarget == -1.0
  {
    if determinant > 0.0 then
      var t1 := (-b + sqrt(determinant)) / (2.0 * a);
      var t2 := (-b - sqrt(determinant)) / (2.0 * a);
      InterceptTime(true, PickRoot(t1, t2))
    else if determinant < 0.0 then
      InterceptTime(false, -1.0)
    else
      InterceptTime(true, Max(-b / (2.0 * a), 0.0))
  }

  /** The choice between the two roots: the smaller positive one, else 0. */
  function PickRoot(t1: real, t2: real): real {
    if t1 > 0.0 then (if t2 > 0.0 then Min(t1, t2) else t1) else Max(t2, 0.0)
  }

  /** Math3D.TryGetInterception: solves in the frame of the shooter and maps the
      time back to a point, which is the zero vector on failure. */
  function TryGetInterception(startPosition: Vec3, startVelocity: Vec3, interceptSpeed: real,
                              targetPosition: Vec3, targetVelocity: Vec3, minimumAccuracy: real,
                              sqrt: real -> real): (r: Interception)
    requires 0.0 < minimumAccuracy
    ensures r.found ==> 0.0 <= r.timeToTarget
    ensures r.found ==> r.interceptPoint == Add(targetPosition, Scale(r.timeToTarget, Sub(targetVelocity, startVelocity)))
    ensures !r.found ==> r.interceptPoint == Zero && r.timeToTarget == -1.0
    ensures SqrMagnitude(Sub(targetVelocity, startVelocity)) < minimumAccuracy ==>
              r.found && r.timeToTarget == 0.0 && r.interceptPoint == targetPosition
  {
    var targetRelativePosition := Sub(targetPosition, startPosition);
    var targetRelativeVelocity := Sub(targetVelocity, startVelocity);
    var solved := TryGetInterceptTime(interceptSpeed, targetRelativePosition, targetRelativeVelocity, minimumAccuracy, sqrt);
    if solved.found then
      Interception(true, Add(targetPosition, Scale(solved.timeToTarget, targetRelativeVelocity)), solved.timeToTarget)
    else
      Interception(false, Zero, solved.timeToTarget)
  }

  // ---------------------------------------------------------------------------
  // Correctness of the solver

  /** |p + t v|^2 - (s t)^2 is the solver's quadratic evaluated at t. */
  lemma QuadraticIdentity(interceptSpeed: real, relPos: Vec3, relVel: Vec3, t: real)
    ensures SqrMagnitude(Add(relPos, Scale(t, relVel))) - (interceptSpeed * t) * (interceptSpeed * t)
         == QA(interceptSpeed, relVel) * t * t + QB(relPos, relVel) * t + QC(relPos)
  {
    var p, v, s := relPos, relVel, interceptSpeed;
    assert (p.x + t * v.x) * (p.x + t * v.x) == p.x * p.x + 2.0 * t * (v.x * p.x) + t * t * (v.x * v.x);
    assert (p.y + t * v.y) * (p.y + t * v.y) == p.y * p.y + 2.0 * t * (v.y * p.y) + t * t * (v.y * v.y);
    assert (p.z + t * v.z) * (p.z + t * v.z) == p.z * p.z + 2.0 * t * (v.z * p.z) + t * t * (v.z * v.z);
    assert (s * t) * (s * t) == s * s * (t * t);
    assert QA(s, v) * t * t == (SqrMagnitude(v) - s * s) * (t * t);
  }

  /** Meeting at time t is being a root of the solver's quadratic. */
  lemma MeetsIsRoot(interceptSpeed: real, relPos: Vec3, relVel: Vec3, t: real)
    ensures Meets(interceptSpeed, relPos, relVel, t)
        <==> QA(interceptSpeed, relVel) * t * t + QB(relPos, relVel) * t + QC(relPos) == 0.0
  {
    QuadraticIdentity(interceptSpeed, relPos, relVel, t);
  }

  /** (2 a t + b)^2 = 4 a (a t^2 + b t + c) + b^2 - 4 a c: completing the square. */
  lemma CompletedSquare(a: real, b: real, c: real, t: real)
    ensures (2.0 * a * t + b) * (2.0 * a * t + b) == 4.0 * a * (a * t * t + b * t + c) + b * b - 4.0 * a * c
  {
    var x := 2.0 * a * t;
    assert (x + b) * (x + b) == x * x + 2.0 * x * b + b * b;
    assert x * x == 4.0 * a * (a * t * t);
    assert 2.0 * x * b == 4.0 * a * (b * t);
    assert 4.0 * a * (a * t * t + b * t + c) == 4.0 * a * (a * t * t) + 4.0 * a * (b * t) + 4.0 * a * c;
  }

  /** Both quotients of the quadratic formula are roots, given a square root of the discriminant. */
  lemma QuadraticRoot(a: real, b: real, c: real, q: real, t: real)
    requires a != 0.0
    requires q * q == b * b - 4.0 * a * c
    requires t == (-b + q) / (2.0 * a) || t == (-b - q) / (2.0 * a)
    ensures a * t * t + b * t + c == 0.0
  {
    var e := 2.0 * a * t + b;
    assert e == q || e == -q;
    assert e * e == q * q;
    CompletedSquare(a, b, c, t);
    assert 4.0 * a * (a * t * t + b * t + c) == 0.0;
  }

  /** A quadratic with a nonzero leading coefficient vanishes only at the two quotients of the formula. */
  lemma QuadraticRootsAreTheQuotients(a: real, b: real, c: real, q: real, u: real)
    requires a != 0.0
    requires q * q == b * b - 4.0 * a * c
    requires a * u * u + b * u + c == 0.0
    ensures u == (-b + q) / (2.0 * a) || u == (-b - q) / (2.0 * a)
  {
    var e := 2.0 * a * u + b;
    CompletedSquare(a, b, c, u);
    assert e * e == q * q;
    assert (e - q) * (e + q) == e * e - q * q;
    ZeroProduct(e - q, e + q);
    if e == q {
      assert u == (-b + q) / (2.0 * a);
    } else {
      assert u == (-b - q) / (2.0 * a);
    }
  }

  lemma ZeroProduct(x: real, y: real)
    requires x * y == 0.0
    ensures x == 0.0 || y == 0.0
  {
    if x != 0.0 {
      assert y == (x * y) / x;
    }
  }

  lemma SquareNonNegative(x: real)
    ensures 0.0 <= x * x
  {
    if x < 0.0 {
      assert x * x == (-x) * (-x);
    }
  }

  lemma MulMonotone(k: real, x: real, y: real)
    requires 0.0 <= k && x <= y
    ensures k * x <= k * y
  {
    assert k * y - k * x == k * (y - x);
  }

  lemma MulPositive(x: real, y: real)
    requires 0.0 < x && 0.0 < y
    ensures 0.0 < x * y
  {
  }

  lemma SquareStrict(r: real, m: real)
    requires 0.0 <= r && r < m
    ensures r * r < m * m
  {
    MulPositive(m - r, m + r);
    assert m * m - r * r == (m - r) * (m + r);
  }

  /** Non-negative reals compare as their squares do. */
  lemma SquareMonotone(m: real, r: real)
    requires 0.0 <= m && 0.0 <= r
    ensures m <= r <==> m * m <= r * r
  {
    if m <= r {
      MulMonotone(m, m, r);
      MulMonotone(r, m, r);
    } else {
      SquareStrict(r, m);
    }
  }

  /** A positive time from the quadratic branch is a root of the quadratic. */
  lemma SolveQuadraticGivesRoot(a: real, b: real, c: real, sqrt: real -> real, t: real)
    requires a != 0.0 && IsSqrt(sqrt)
    requires t == SolveQuadratic(a, b, Discriminant(a, b, c), sqrt).timeToTarget && 0.0 < t
    ensures a * t * t + b * t + c == 0.0
  {
    var d := Discriminant(a, b, c);
    if d > 0.0 {
      var q := sqrt(d);
      assert q * q == d;
      var t1, t2 := (-b + q) / (2.0 * a), (-b - q) / (2.0 * a);
      assert t == PickRoot(t1, t2);
      assert t == t1 || t == t2;
      QuadraticRoot(a, b, c, q, t);
    } else {
      assert d == 0.0;
      assert t == -b / (2.0 * a);
      assert t == (-b + 0.0) / (2.0 * a);
      QuadraticRoot(a, b, c, 0.0, t);
    }
  }

  /** A quadratic with a root u has the discriminant (2 a u + b)^2. */
  lemma RootDiscriminant(a: real, b: real, c: real, u: real)
    requires a * u * u + b * u + c == 0.0
    ensures Discriminant(a, b, c) == (2.0 * a * u + b) * (2.0 * a * u + b)
  {
    CompletedSquare(a, b, c, u);
    assert 4.0 * a * (a * u * u + b * u + c) == 0.0;
  }

  /** The quadratic branch reports every positive root, and none earlier than it. */
  lemma SolveQuadraticIsEarliest(a: real, b: real, c: real, sqrt: real -> real, u: real, r: InterceptTime)
    requires a != 0.0 && IsSqrt(sqrt) && r == SolveQuadratic(a, b, Discriminant(a, b, c), sqrt)
    requires 0.0 < u && a * u * u + b * u + c == 0.0
    ensures r.found && r.timeToTarget <= u
  {
    var d := Discriminant(a, b, c);
    RootDiscriminant(a, b, c, u);
    SquareNonNegative(2.0 * a * u + b);
    if d > 0.0 {
      var q := sqrt(d);
      assert 0.0 <= q && q * q == d;
      QuadraticRootsAreTheQuotients(a, b, c, q, u);
    } else {
      assert d == 0.0;
      assert 0.0 * 0.0 == d;
      QuadraticRootsAreTheQuotients(a, b, c, 0.0, u);
      assert u == -b / (2.0 * a);
    }
  }

  /** In the full quadratic case TryGetInterceptTime is the quadratic branch
      applied to the coefficients of the meeting equation. */
  lemma QuadraticCaseSolves(interceptSpeed: real, relPos: Vec3, relVel: Vec3,
                            minimumAccuracy: real, sqrt: real -> real)
    requires 0.0 < minimumAccuracy
    requires QuadraticCase(interceptSpeed, relPos, relVel, minimumAccuracy)
    ensures QA(interceptSpeed, relVel) != 0.0
    ensures TryGetInterceptTime(interceptSpeed, relPos, relVel, minimumAccuracy, sqrt)
         == SolveQuadratic(QA(interceptSpeed, relVel), QB(relPos, relVel),
                           Discriminant(QA(interceptSpeed, relVel), QB(relPos, relVel), QC(relPos)), sqrt)
  {
  }

  /** When the full quadratic is solved and the returned time is positive, the
      projectile fired now at the given speed is exactly where the target is. */
  lemma InterceptTimeMeetsTarget(interceptSpeed: real, relPos: Vec3, relVel: Vec3,
                                 minimumAccuracy: real, sqrt: real -> real)
    requires 0.0 < minimumAccuracy && IsSqrt(sqrt)
    requires QuadraticCase(interceptSpeed, relPos, relVel, minimumAccuracy)
    requires 0.0 < TryGetInterceptTime(interceptSpeed, relPos, relVel, minimumAccuracy, sqrt).timeToTarget
    ensures Meets(interceptSpeed, relPos, relVel,
                  TryGetInterceptTime(interceptSpeed, relPos, relVel, minimumAccuracy, sqrt).timeToTarget)
  {
    var t := TryGetInterceptTime(interceptSpeed, relPos, relVel, minimumAccuracy, sqrt).timeToTarget;
    InterceptTimeIsRoot(interceptSpeed, relPos, relVel, minimumAccuracy, sqrt, t);
    MeetsIsRoot(interceptSpeed, relPos, relVel, t);
  }

  /** A positive time returned in the full quadratic case is a root of the meeting quadratic. */
  lemma InterceptTimeIsRoot(interceptSpeed: real, relPos: Vec3, relVel: Vec3,
                            minimumAccuracy: real, sqrt: real -> real, t: real)
    requires 0.0 < minimumAccuracy && IsSqrt(sqrt)
    requires QuadraticCase(interceptSpeed, relPos, relVel, minimumAccuracy)
    requires t == TryGetInterceptTime(interceptSpeed, relPos, relVel, minimumAccuracy, sqrt).timeToTarget && 0.0 < t
    ensures QA(interceptSpeed, relVel) * t * t + QB(relPos, relVel) * t + QC(relPos) == 0.0
  {
    QuadraticCaseSolves(interceptSpeed, relPos, relVel, minimumAccuracy, sqrt);
    SolveQuadraticGivesRoot(QA(interceptSpeed, relVel), QB(relPos, relVel), QC(relPos), sqrt, t);
  }

  /** The near-equal-speed branch solves the linear equation b·t + c = 0, so
      when the speeds are exactly equal (a = 0) a positive time it returns
      is one at which the shot meets the target. */
  lemma LinearCaseMeetsTarget(interceptSpeed: real, relPos: Vec3, relVel: Vec3,
                              minimumAccuracy: real, sqrt: real -> real, t: real)
    requires 0.0 < minimumAccuracy && SqrMagnitude(relVel) >= minimumAccuracy
    requires QA(interceptSpeed, relVel) == 0.0
    requires t == TryGetInterceptTime(interceptSpeed, relPos, relVel, minimumAccuracy, sqrt).timeToTarget && 0.0 < t
    ensures Meets(interceptSpeed, relPos, relVel, t)
  {
    var b, c := QB(relPos, relVel), QC(relPos);
    assert b != 0.0 && t == -c / b;
    assert b * t + c == 0.0;
    assert QA(interceptSpeed, relVel) * t * t + b * t + c == 0.0;
    MeetsIsRoot(interceptSpeed, relPos, relVel, t);
  }

  /** In the full quadratic case the solver picks the earliest meeting time:
      no positive time at which the projectile meets the target comes before it. */
  lemma InterceptTimeIsEarliest(interceptSpeed: real, relPos: Vec3, relVel: Vec3,
                                minimumAccuracy: real, sqrt: real -> real, u: real)
    requires 0.0 < minimumAccuracy && IsSqrt(sqrt)
    requires QuadraticCase(interceptSpeed, relPos, relVel, minimumAccuracy)
    requires 0.0 < u && Meets(interceptSpeed, relPos, relVel, u)
    ensures TryGetInterceptTime(interceptSpeed, relPos, relVel, minimumAccuracy, sqrt).found
    ensures TryGetInterceptTime(interceptSpeed, relPos, relVel, minimumAccuracy, sqrt).timeToTarget <= u
  {
    MeetsIsRoot(interceptSpeed, relPos, relVel, u);
    EarliestRoot(interceptSpeed, relPos, relVel, minimumAccuracy, sqrt, u);
  }

  lemma EarliestRoot(interceptSpeed: real, relPos: Vec3, relVel: Vec3,
                     minimumAccuracy: real, sqrt: real -> real, u: real)
    requires 0.0 < minimumAccuracy && IsSqrt(sqrt)
    requires QuadraticCase(interceptSpeed, relPos, relVel, minimumAccuracy)
    requires 0.0 < u && QA(interceptSpeed, relVel) * u * u + QB(relPos, relVel) * u + QC(relPos) == 0.0
    ensures TryGetInterceptTime(interceptSpeed, relPos, relVel, minimumAccuracy, sqrt).found
    ensures TryGetInterceptTime(interceptSpeed, relPos, relVel, minimumAccuracy, sqrt).timeToTarget <= u
  {
    QuadraticCaseSolves(interceptSpeed, relPos, relVel, minimumAccuracy, sqrt);
    SolveQuadraticIsEarliest(QA(interceptSpeed, relVel), QB(relPos, relVel), QC(relPos), sqrt, u,
                             TryGetInterceptTime(interceptSpeed, relPos, relVel, minimumAccuracy, sqrt));
  }

  /** With a shooter at rest (the towers pass a zero start velocity) a returned
      positive time puts the intercept point where the target will be after
      that time, at exactly the distance the projectile travels in it. */
  lemma InterceptionReachesTarget(startPosition: Vec3, interceptSpeed: real,
                                   targetPosition: Vec3, targetVelocity: Vec3,
                                   minimumAccuracy: real, sqrt: real -> real, r: Interception)
    requires 0.0 < minimumAccuracy && IsSqrt(sqrt)
    requires QuadraticCase(interceptSpeed, Sub(targetPosition, startPosition), targetVelocity, minimumAccuracy)
    requires r == TryGetInterception(startPosition, Zero, interceptSpeed, targetPosition, targetVelocity,
                                     minimumAccuracy, sqrt)
    requires 0.0 < r.timeToTarget
    ensures r.found
    ensures r.interceptPoint == Add(targetPosition, Scale(r.timeToTarget, targetVelocity))
    ensures SqrMagnitude(Sub(r.interceptPoint, startPosition))
            == (interceptSpeed * r.timeToTarget) * (interceptSpeed * r.timeToTarget)
  {
    var p := Sub(targetPosition, startPosition);
    assert Sub(targetVelocity, Zero) == targetVelocity;
    InterceptTimeMeetsTarget(interceptSpeed, p, targetVelocity, minimumAccuracy, sqrt);
    assert Sub(r.interceptPoint, startPosition) == Add(p, Scale(r.timeToTarget, targetVelocity));
  }

  // ---------------------------------------------------------------------------
  // Point-in-shape tests

  /** Math3D.IsPointWithinSphere */
  predicate IsPointWithinSphere(point: Vec3, center: Vec3, radius: real) {
    SqrMagnitude(Sub(point, center)) <= radius * radius
  }

  /** The sphere test is the distance test against |radius|, boundary included. */
  lemma SphereIsDistanceTest(point: Vec3, center: Vec3, radius: real, sqrt: real -> real)
    requires IsSqrt(sqrt)
    ensures IsPointWithinSphere(point, center, radius) <==> Magnitude(Sub(point, center), sqrt) <= Abs(radius)
  {
    var x := SqrMagnitude(Sub(point, center));
    SqrMagnitudeNonNegative(Sub(point, center));
    var r := Abs(radius);
    assert r * r == radius * radius;
    SquareMonotone(sqrt(x), r);
  }

  /** Math3D.IsPointWithinBox: the doubled offset against the size, axis by axis. */
  predicate IsPointWithinBox(point: Vec3, center: Vec3, size: Vec3) {
    var offsetDoubled := Scale(2.0, Sub(point, center));
    Abs(offsetDoubled.x) <= Abs(size.x) && Abs(offsetDoubled.y) <= Abs(size.y) && Abs(offsetDoubled.z) <= Abs(size.z)
  }

  /** The box test reads the size through its absolute value: mirroring the
      size on any axis does not change the answer, and the boundary counts. */
  lemma BoxIgnoresSizeSign(point: Vec3, center: Vec3, size: Vec3, mirrored: Vec3)
    requires Abs(mirrored.x) == Abs(size.x) && Abs(mirrored.y) == Abs(size.y) && Abs(mirrored.z) == Abs(size.z)
    ensures IsPointWithinBox(point, center, size) == IsPointWithinBox(point, center, mirrored)
    ensures IsPointWithinBox(Add(center, Scale(0.5, size)), center, size)
  {
  }

  // ---------------------------------------------------------------------------
  // Closest point on a segment

  /** Math3D.ClosestPointOnLineSegment as written: the interior case returns
      the cross product of the segment vector and the offset, not a point. */
  function ClosestPointOnLineSegment(point: Vec3, posA: Vec3, posB: Vec3): Vec3 {
    if Dot(Sub(point, posA), Sub(posB, posA)) <= 0.0 then posA
    else if Dot(Sub(point, posB), Sub(posB, posA)) >= 0.0 then posB
    else Cross(Sub(posB, posA), Sub(point, posA))
  }

  /** The point lies on the segment from posA to posB. */
  ghost predicate OnSegment(q: Vec3, posA: Vec3, posB: Vec3) {
    exists s: real {:trigger Scale(s, Sub(posB, posA))} ::
      0.0 <= s <= 1.0 && q == Add(posA, Scale(s, Sub(posB, posA)))
  }

  /** A point halfway along the segment and one unit off it gets back a point
      that is not on the segment. */
  lemma ClosestPointOnLineSegmentLeavesSegment(p: Vec3, a: Vec3, b: Vec3)
    requires p == Vec3(1.0, 1.0, 0.0) && a == Vec3(0.0, 0.0, 0.0) && b == Vec3(2.0, 0.0, 0.0)
    ensures ClosestPointOnLineSegment(p, a, b) == Vec3(0.0, 0.0, 2.0)
    ensures !OnSegment(ClosestPointOnLineSegment(p, a, b), a, b)
  {
    var ab, ap, bp := Vec3(2.0, 0.0, 0.0), Vec3(1.0, 1.0, 0.0), Vec3(-1.0, 1.0, 0.0);
    assert Sub(b, a) == ab && Sub(p, a) == ap && Sub(p, b) == bp;
    assert Dot(ap, ab) == 2.0;
    assert Dot(bp, ab) == -2.0;
    assert Cross(ab, ap) == Vec3(0.0, 0.0, 2.0);
    InteriorResultLeavesSegment(p, a, b);
  }

  /** For a segment and a point in the plane z = 0, an interior-case result
      with a nonzero z component is off the segment. */
  lemma InteriorResultLeavesSegment(p: Vec3, a: Vec3, b: Vec3)
    requires a.z == 0.0 && b.z == 0.0
    requires Dot(Sub(p, a), Sub(b, a)) > 0.0 && Dot(Sub(p, b), Sub(b, a)) < 0.0
    requires Cross(Sub(b, a), Sub(p, a)).z != 0.0
    ensures !OnSegment(ClosestPointOnLineSegment(p, a, b), a, b)
  {
    OffTheLine(ClosestPointOnLineSegment(p, a, b), a, b);
  }

  /** A point off the segment's line in the z direction, for a segment in the plane z = 0. */
  lemma OffTheLine(q: Vec3, posA: Vec3, posB: Vec3)
    requires posA.z == 0.0 && posB.z == 0.0 && q.z != 0.0
    ensures !OnSegment(q, posA, posB)
  {
  }

  /** The evident intent of ClosestPointOnLineSegment: the foot of the
      perpendicular from the point in the interior case. */
  function ClosestPointOnSegment(point: Vec3, posA: Vec3, posB: Vec3): (q: Vec3)
    ensures OnSegment(q, posA, posB)
    ensures Dot(Sub(point, posA), Sub(posB, posA)) <= 0.0 ==> q == posA
    ensures Dot(Sub(point, posA), Sub(posB, posA)) > 0.0 && Dot(Sub(point, posB), Sub(posB, posA)) >= 0.0 ==> q == posB
    ensures var ab := Sub(posB, posA);
            Dot(Sub(point, posA), ab) > 0.0 && Dot(Sub(point, posB), ab) < 0.0 ==>
              Dot(Sub(point, q), ab) == 0.0
  {
    var ab := Sub(posB, posA);
    var ap := Sub(point, posA);
    if Dot(ap, ab) <= 0.0 then
      assert posA == Add(posA, Scale(0.0, ab));
      posA
    else
      var bp := Sub(point, posB);
      if Dot(bp, ab) >= 0.0 then
        assert posB == Add(posA, Scale(1.0, ab));
        posB
      else
        InteriorParameter(ap, ab, bp);
        var s := Dot(ap, ab) / Dot(ab, ab);
        var q := Add(posA, Scale(s, ab));
        PerpendicularFoot(point, posA, ab, s);
        q
  }

  /** No point of the segment is nearer to the point than the corrected
      closest point. */
  lemma ClosestPointOnSegmentIsNearest(point: Vec3, posA: Vec3, posB: Vec3, s: real)
    requires 0.0 <= s <= 1.0
    ensures var q := ClosestPointOnSegment(point, posA, posB);
            var d := Sub(point, Add(posA, Scale(s, Sub(posB, posA))));
            Dot(Sub(point, q), Sub(point, q)) <= Dot(d, d)
  {
    var ab := Sub(posB, posA);
    var ap := Sub(point, posA);
    var n, k := Dot(ab, ab), Dot(ap, ab);
    var t: real;
    if k <= 0.0 {
      t := 0.0;
      assert ClosestPointOnSegment(point, posA, posB) == Add(posA, Scale(t, ab));
      DotSelfNonNegative(ab);
      AtStartIsNearest(n, k, s);
    } else if Dot(Sub(point, posB), ab) >= 0.0 {
      t := 1.0;
      assert ClosestPointOnSegment(point, posA, posB) == Add(posA, Scale(t, ab));
      assert Dot(Sub(point, posB), ab) == k - n;
      DotSelfNonNegative(ab);
      AtEndIsNearest(n, k, s);
    } else {
      InteriorParameter(ap, ab, Sub(point, posB));
      t := k / n;
      assert ClosestPointOnSegment(point, posA, posB) == Add(posA, Scale(t, ab));
      FootIsNearest(n, k, s, t);
    }
    NearerAlong(point, posA, ab, s, t);
  }

  /** Comparing two points of the segment's line by their parameters. */
  lemma NearerAlong(point: Vec3, posA: Vec3, ab: Vec3, s: real, t: real)
    requires var k, n := Dot(Sub(point, posA), ab), Dot(ab, ab);
             -2.0 * t * k + t * t * n <= -2.0 * s * k + s * s * n
    ensures var dt := Sub(point, Add(posA, Scale(t, ab)));
            var ds := Sub(point, Add(posA, Scale(s, ab)));
            Dot(dt, dt) <= Dot(ds, ds)
  {
    SquaredDistanceAlong(point, posA, ab, s);
    SquaredDistanceAlong(point, posA, ab, t);
  }

  /** The squared distance from the point to posA + s·ab, as a quadratic in s. */
  lemma SquaredDistanceAlong(point: Vec3, posA: Vec3, ab: Vec3, s: real)
    ensures var d := Sub(point, Add(posA, Scale(s, ab)));
            Dot(d, d) == Dot(Sub(point, posA), Sub(point, posA)) - 2.0 * s * Dot(Sub(point, posA), ab)
                         + s * s * Dot(ab, ab)
  {
    var ap := Sub(point, posA);
    assert Sub(point, Add(posA, Scale(s, ab))) == Sub(ap, Scale(s, ab));
    assert (ap.x - s * ab.x) * (ap.x - s * ab.x) == ap.x * ap.x - 2.0 * s * (ap.x * ab.x) + s * s * (ab.x * ab.x);
    assert (ap.y - s * ab.y) * (ap.y - s * ab.y) == ap.y * ap.y - 2.0 * s * (ap.y * ab.y) + s * s * (ab.y * ab.y);
    assert (ap.z - s * ab.z) * (ap.z - s * ab.z) == ap.z * ap.z - 2.0 * s * (ap.z * ab.z) + s * s * (ab.z * ab.z);
  }

  lemma DotSelfNonNegative(v: Vec3)
    ensures Dot(v, v) >= 0.0
  {
    SquareNonNegative(v.x);
    SquareNonNegative(v.y);
    SquareNonNegative(v.z);
  }

  /** With k <= 0, s = 0 minimizes -2·s·k + s²·n over [0, 1]. */
  lemma AtStartIsNearest(n: real, k: real, s: real)
    requires 0.0 <= n && k <= 0.0 && 0.0 <= s
    ensures 0.0 <= -2.0 * s * k + s * s * n
  {
    MulMonotone(s, 0.0, -k);
    SquareNonNegative(s);
    MulMonotone(s * s, 0.0, n);
  }

  /** With k >= n >= 0, s = 1 minimizes -2·s·k + s²·n over [0, 1]. */
  lemma AtEndIsNearest(n: real, k: real, s: real)
    requires 0.0 <= n <= k && s <= 1.0
    ensures -2.0 * 1.0 * k + 1.0 * 1.0 * n <= -2.0 * s * k + s * s * n
  {
    var e := 1.0 - s;
    assert -2.0 * s * k + s * s * n - (-2.0 * k + n) == e * (2.0 * k - n) - e * (s * n);
    assert e * (2.0 * k - n) - e * (s * n) == e * ((k - n) + (k - s * n));
    assert 0.0 <= e;
    MulMonotone(n, s, 1.0);
    assert 0.0 <= (k - n) + (k - s * n);
    MulMonotone(e, 0.0, (k - n) + (k - s * n));
  }

  /** With n > 0 and t = k / n, s = t minimizes -2·s·k + s²·n. */
  lemma FootIsNearest(n: real, k: real, s: real, t: real)
    requires 0.0 < n && t == k / n
    ensures -2.0 * t * k + t * t * n <= -2.0 * s * k + s * s * n
  {
    assert k == t * n;
    assert -2.0 * s * k + s * s * n - (-2.0 * t * k + t * t * n) == n * ((s - t) * (s - t));
    SquareNonNegative(s - t);
    MulMonotone(n, 0.0, (s - t) * (s - t));
  }

  lemma InteriorParameter(ap: Vec3, ab: Vec3, bp: Vec3)
    requires Dot(ap, ab) > 0.0 && Dot(bp, ab) < 0.0
    requires bp == Sub(ap, ab)
    ensures Dot(ab, ab) > 0.0
    ensures 0.0 <= Dot(ap, ab) / Dot(ab, ab) <= 1.0
  {
    assert Dot(bp, ab) == Dot(ap, ab) - Dot(ab, ab);
    var n := Dot(ab, ab);
    var s := Dot(ap, ab) / n;
    assert s * n == Dot(ap, ab);
  }

  lemma PerpendicularFoot(point: Vec3, posA: Vec3, ab: Vec3, s: real)
    requires Dot(ab, ab) != 0.0 && s == Dot(Sub(point, posA), ab) / Dot(ab, ab)
    ensures Dot(Sub(point, Add(posA, Scale(s, ab))), ab) == 0.0
  {
    var ap := Sub(point, posA);
    assert Sub(point, Add(posA, Scale(s, ab))) == Sub(ap, Scale(s, ab));
    assert Dot(Sub(ap, Scale(s, ab)), ab) == Dot(ap, ab) - s * Dot(ab, ab);
    assert s * Dot(ab, ab) == Dot(ap, ab);
  }

  // ---------------------------------------------------------------------------
  // Planes

  /** Math3D.ProjectVectorOntoPlane */
  function ProjectVectorOntoPlane(vector: Vec3, planeNormal: Vec3): Vec3 {
    Sub(vector, Scale(Dot(vector, planeNormal), planeNormal))
  }

  /** Math3D.ClosestPointOnPlane */
  function ClosestPointOnPlane(point: Vec3, planePosition: Vec3, planeNormal: Vec3): Vec3 {
    Sub(point, Scale(Dot(planeNormal, Sub(point, planePosition)), planeNormal))
  }

  /** For a unit normal the projection has no component along the normal, and
      projecting twice changes nothing. */
  lemma ProjectionIsOrthogonal(vector: Vec3, planeNormal: Vec3)
    requires SqrMagnitude(planeNormal) == 1.0
    ensures Dot(ProjectVectorOntoPlane(vector, planeNormal), planeNormal) == 0.0
    ensures ProjectVectorOntoPlane(ProjectVectorOntoPlane(vector, planeNormal), planeNormal)
         == ProjectVectorOntoPlane(vector, planeNormal)
  {
    var n, k := planeNormal, Dot(vector, planeNormal);
    assert Dot(Sub(vector, Scale(k, n)), n) == k - k * Dot(n, n);
  }

  /** For a unit normal the closest point lies on the plane and is reached from
      the point along the normal. */
  lemma ClosestPointIsOnPlane(point: Vec3, planePosition: Vec3, planeNormal: Vec3)
    requires SqrMagnitude(planeNormal) == 1.0
    ensures Dot(Sub(ClosestPointOnPlane(point, planePosition, planeNormal), planePosition), planeNormal) == 0.0
    ensures Cross(Sub(point, ClosestPointOnPlane(point, planePosition, planeNormal)), planeNormal) == Zero
  {
    var n, d := planeNormal, Sub(point, planePosition);
    var k := Dot(n, d);
    assert Sub(ClosestPointOnPlane(point, planePosition, n), planePosition) == Sub(d, Scale(k, n));
    assert Dot(Sub(d, Scale(k, n)), n) == Dot(d, n) - k * Dot(n, n);
    assert Sub(point, ClosestPointOnPlane(point, planePosition, n)) == Scale(k, n);
  }
}
