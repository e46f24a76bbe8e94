/** SpatialSearch: the nearest-target query towers use to pick a pawn. The
    engine's transform lookup is the parameter `positionOf`, and Mathf.Sqrt is
    the square-root parameter. */
module SpatialSearch {
  import opened Basics
  import opened Vectors
  import Math3D

  /** SpatialSearch.Result<T>: a default (null) item is None. */
  datatype Result<T> = Result(item: Option<T>, distance: real, totalObjectsInRange: int)

  /** Result<T>.Empty: no item, distance float.MaxValue, nothing counted. */
  function Empty<T>(): Result<T> {
    Result(None, FloatMax, 0)
  }

  /** The squared distance from the search position to an element. */
  function DistSqr<T>(element: T, position: Vec3, positionOf: T -> Vec3): real {
    SqrMagnitude(Sub(positionOf(element), position))
  }

  /** The best candidate found so far: its index in the collection and its
      squared distance (float.MaxValue before any candidate was taken). */
  datatype Choice = Choice(index: Option<nat>, distSqr: real)

  /** What the foreach loop holds after visiting the elements of `collection`:
      an element is taken when it is within range, boundary included, and
      strictly closer than the best so far. */
  function Closest<T>(collection: seq<T>, position: Vec3, rangeSqr: real, positionOf: T -> Vec3): (c: Choice)
    ensures c.index.Some? ==> c.index.value < |collection|
  {
    if |collection| == 0 then Choice(None, FloatMax)
    else
      var before := Closest(collection[..|collection| - 1], position, rangeSqr, positionOf);
      var d := DistSqr(collection[|collection| - 1], position, positionOf);
      if d <= rangeSqr && d < before.distSqr then Choice(Some(|collection| - 1), d) else before
  }

  /** An element the search can pick: within range and below the initial
      float.MaxValue distance. */
  predicate Eligible<T>(element: T, position: Vec3, rangeSqr: real, positionOf: T -> Vec3) {
    DistSqr(element, position, positionOf) <= rangeSqr && DistSqr(element, position, positionOf) < FloatMax
  }

  /** SpatialSearch.FindClosest: one pass over the collection keeping the
      nearest element within range; the distance reported is the square root
      of the winner's squared distance, or of float.MaxValue when none. */
  method FindClosest<T>(position: Vec3, range: real, collection: seq<T>, positionOf: T -> Vec3,
                        sqrt: real -> real) returns (result: Result<T>)
    ensures var c := Closest(collection, position, range * range, positionOf);
            && result.item == (if c.index.Some? then Some(collection[c.index.value]) else None)
            && result.distance == sqrt(c.distSqr)
    ensures result.totalObjectsInRange == 0
  {
    result := Empty();
    var rangeSqr := range * range;
    ghost var chosen: Option<nat> := None;
    var i := 0;
    while i < |collection|
      invariant 0 <= i <= |collection|
      invariant chosen == Closest(collection[..i], position, rangeSqr, positionOf).index
      invariant result.distance == Closest(collection[..i], position, rangeSqr, positionOf).distSqr
      invariant chosen.Some? ==> chosen.value < i && result.item == Some(collection[chosen.value])
      invariant chosen.None? ==> result.item == None
      invariant result.totalObjectsInRange == 0
    {
      var element := collection[i];
      var distSqr := SqrMagnitude(Sub(positionOf(element), position));
      assert collection[..i + 1][..i] == collection[..i];
      if distSqr <= rangeSqr {
        if distSqr < result.distance {
          result := result.(item := Some(element), distance := distSqr);
          chosen := Some(i);
        }
      }
      i := i + 1;
    }
    assert collection[..i] == collection;
    result := result.(distance := sqrt(result.distance));
  }

  // ---------------------------------------------------------------------------
  // What the search promises

  /** The chosen element is eligible, its squared distance is the one
      recorded, and no eligible element is strictly closer; elements before it
      are strictly farther (ties keep the first one met). */
  lemma {:induction false} ClosestIsNearest<T>(collection: seq<T>, position: Vec3, rangeSqr: real,
                                              positionOf: T -> Vec3)
    ensures var c := Closest(collection, position, rangeSqr, positionOf);
            c.index.Some? ==>
              && c.index.value < |collection|
              && Eligible(collection[c.index.value], position, rangeSqr, positionOf)
              && c.distSqr == DistSqr(collection[c.index.value], position, positionOf)
              && (forall j :: 0 <= j < |collection| && Eligible(collection[j], position, rangeSqr, positionOf) ==>
                    c.distSqr <= DistSqr(collection[j], position, positionOf))
              && (forall j :: 0 <= j < c.index.value && Eligible(collection[j], position, rangeSqr, positionOf) ==>
                    c.distSqr < DistSqr(collection[j], position, positionOf))
    ensures var c := Closest(collection, position, rangeSqr, positionOf);
            c.index.None? ==> c.distSqr == FloatMax
    ensures var c := Closest(collection, position, rangeSqr, positionOf);
            forall j :: 0 <= j < |collection| && Eligible(collection[j], position, rangeSqr, positionOf) ==>
              c.distSqr <= DistSqr(collection[j], position, positionOf)
  {
    if |collection| > 0 {
      var n := |collection| - 1;
      var prefix := collection[..n];
      ClosestIsNearest(prefix, position, rangeSqr, positionOf);
      assert forall j :: 0 <= j < n ==> collection[j] == prefix[j];
    }
  }

  /** Nothing is found exactly when no element is eligible. */
  lemma {:induction false} NothingFoundIffNoneEligible<T>(collection: seq<T>, position: Vec3, rangeSqr: real,
                                                         positionOf: T -> Vec3)
    ensures Closest(collection, position, rangeSqr, positionOf).index.None?
        <==> forall j :: 0 <= j < |collection| ==> !Eligible(collection[j], position, rangeSqr, positionOf)
  {
    if |collection| > 0 {
      var n := |collection| - 1;
      var prefix := collection[..n];
      NothingFoundIffNoneEligible(prefix, position, rangeSqr, positionOf);
      ClosestIsNearest(prefix, position, rangeSqr, positionOf);
      assert forall j :: 0 <= j < n ==> collection[j] == prefix[j];
    }
  }

  /** The range test is the inclusive sphere test of Math3D, which depends on
      the range only through its absolute value. */
  lemma RangeTestIsSphereTest<T>(element: T, position: Vec3, range: real, positionOf: T -> Vec3,
                                 sqrt: real -> real)
    requires IsSqrt(sqrt)
    ensures DistSqr(element, position, positionOf) <= range * range
        <==> Magnitude(Sub(positionOf(element), position), sqrt) <= Abs(range)
  {
    Math3D.SphereIsDistanceTest(positionOf(element), position, range, sqrt);
  }
}
