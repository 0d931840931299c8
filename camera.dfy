/** The camera of the simulation: a view state that follows either one body
    or the mass-weighted centre of the inliers, and zooms to fit them.
    Per-frame smoothing factors are given to `Update` as numbers in [0, 1]. */
module Cameras {
  import opened Vectors
  import opened Scalars
  import opened Planets
  import opened Framing

  const MinZoom: real := 0.0005
  const MaxZoom: real := 100.0
  const MinZoomOffset: real := 0.1
  const MaxZoomOffset: real := 10.0

  /** The zoom `update` aims at: the fitted zoom times the user's offset. */
  function TargetZoom(optimal: real, offset: real): real
  {
    optimal * offset
  }

  /** `a + (b - a) * f`. */
  function Lerp(a: real, b: real, f: real): real
  {
    a + (b - a) * f
  }

  /** `a += (b - a) * f` on vectors. */
  function LerpVector(a: Vector2, b: Vector2, f: real): Vector2
  {
    Add(a, Scale(Sub(b, a), f))
  }

  /** A factor in [0, 1] moves a value toward the target without passing
      it. */
  lemma LerpStaysBetween(a: real, b: real, f: real)
    requires 0.0 <= f <= 1.0
    ensures Min(a, b) <= Lerp(a, b, f) <= Max(a, b)
  {
    var d := (b - a) * f;
    if a <= b {
      UnitScale(b - a, f);
      assert a <= a + d <= b;
    } else {
      UnitScale(a - b, f);
      assert d == -((a - b) * f);
      assert b <= a + d <= a;
    }
  }

  /** Factor 0 keeps the value, factor 1 reaches the target. */
  lemma LerpEndpoints(a: real, b: real)
    ensures Lerp(a, b, 0.0) == a && Lerp(a, b, 1.0) == b
  {
  }

  lemma UnitScale(x: real, f: real)
    requires x >= 0.0 && 0.0 <= f <= 1.0
    ensures 0.0 <= x * f <= x
  {
    MulMonotone(f, 1.0, x);
    assert f * x == x * f;
  }

  /** The vector version moves each coordinate between start and target. */
  lemma LerpVectorStaysBetween(a: Vector2, b: Vector2, f: real)
    requires 0.0 <= f <= 1.0
    ensures var r := LerpVector(a, b, f);
      Min(a.x, b.x) <= r.x <= Max(a.x, b.x) && Min(a.y, b.y) <= r.y <= Max(a.y, b.y)
  {
    LerpStaysBetween(a.x, b.x, f);
    LerpStaysBetween(a.y, b.y, f);
  }

  lemma ScaledZoomBounds(optimal: real, offset: real)
    requires MinZoom <= optimal <= MaxZoom && MinZoomOffset <= offset <= MaxZoomOffset
    ensures 0.0 < TargetZoom(optimal, offset) <= MaxZoom * MaxZoomOffset
  {
    var p := optimal * offset;
    MulMonotone(0.0005, optimal, offset);
    MulMonotone(optimal, 100.0, offset);
    assert 0.0005 * offset <= p <= 100.0 * offset;
    assert TargetZoom(optimal, offset) == p;
  }

  class Camera {
    var position: Vector2
    var target: Vector2
    var zoom: real
    var zoomOffset: real
    var followedPlanetIndex: int
    var initialized: bool
    var outlierMultiplier: real

    /** The user's zoom offset stays in its range, the zoom stays
        positive and below the largest fitted zoom times the largest
        offset, and the outlier multiplier is at least 1 (the least value
        of the multiplier slider). */
    ghost predicate Valid()
      reads this
    {
      MinZoomOffset <= zoomOffset <= MaxZoomOffset && 0.0 < zoom <= MaxZoom * MaxZoomOffset &&
      1.0 <= outlierMultiplier
    }

    constructor (outlierMultiplier: real)
      requires 1.0 <= outlierMultiplier
      ensures Valid()
      ensures position == Zero() && target == Zero() && zoom == 1.0
      ensures zoomOffset == 1.0 && followedPlanetIndex == -1 && !initialized
      ensures this.outlierMultiplier == outlierMultiplier
    {
      position := Zero();
      target := Zero();
      zoom := 1.0;
      zoomOffset := 1.0;
      followedPlanetIndex := -1;
      initialized := false;
      this.outlierMultiplier := outlierMultiplier;
    }

    /** `setZoom`: the zoom is clamped to [0.0005, 100]. */
    method SetZoom(z: real)
      requires Valid()
      modifies this
      ensures Valid()
      ensures zoom == Clamp(z, MinZoom, MaxZoom)
      ensures position == old(position) && target == old(target) && zoomOffset == old(zoomOffset)
      ensures followedPlanetIndex == old(followedPlanetIndex) && initialized == old(initialized)
      ensures outlierMultiplier == old(outlierMultiplier)
    {
      zoom := Clamp(z, MinZoom, MaxZoom);
    }

    /** `zoomBy`: the offset is multiplied by the factor, then clamped to
        [0.1, 10]. */
    method ZoomBy(factor: real)
      requires Valid()
      modifies this
      ensures Valid()
      ensures zoomOffset == Clamp(old(zoomOffset) * factor, MinZoomOffset, MaxZoomOffset)
      ensures position == old(position) && target == old(target) && zoom == old(zoom)
      ensures followedPlanetIndex == old(followedPlanetIndex) && initialized == old(initialized)
      ensures outlierMultiplier == old(outlierMultiplier)
    {
      zoomOffset := zoomOffset * factor;
      zoomOffset := Clamp(zoomOffset, MinZoomOffset, MaxZoomOffset);
    }

    /** `pan`: the position moves by the offset in world units. */
    method Pan(dx: real, dy: real)
      requires Valid()
      modifies this
      ensures Valid()
      ensures position == Add(old(position), Vector2(dx, dy))
      ensures target == old(target) && zoom == old(zoom) && zoomOffset == old(zoomOffset)
      ensures followedPlanetIndex == old(followedPlanetIndex) && initialized == old(initialized)
      ensures outlierMultiplier == old(outlierMultiplier)
    {
      position := Add(position, Vector2(dx, dy));
    }

    /** `setOutlierMultiplier`: the multiplier slider hands over values in
        [1, 10]; only the multiplier changes. */
    method SetOutlierMultiplier(multiplier: real)
      requires Valid()
      requires 1.0 <= multiplier
      modifies this
      ensures Valid()
      ensures outlierMultiplier == multiplier
      ensures position == old(position) && target == old(target) && zoom == old(zoom)
      ensures zoomOffset == old(zoomOffset) && followedPlanetIndex == old(followedPlanetIndex)
      ensures initialized == old(initialized)
    {
      outlierMultiplier := multiplier;
    }

    /** `reset`: back to the origin at zoom 1, following the centre, and
        snapping again on the next update. */
    method Reset()
      requires Valid()
      modifies this
      ensures Valid()
      ensures position == Zero() && target == Zero() && zoom == 1.0
      ensures zoomOffset == 1.0 && followedPlanetIndex == -1 && !initialized
      ensures outlierMultiplier == old(outlierMultiplier)
    {
      position := Zero();
      target := Zero();
      zoom := 1.0;
      zoomOffset := 1.0;
      followedPlanetIndex := -1;
      initialized := false;
    }

    /** `computeCenterOfMass`, accumulating over the bodies of positive mass. */
    method ComputeCenterOfMass(planets: seq<Planet>) returns (com: Vector2)
      ensures com == CenterOfMass(planets)
    {
      if planets == [] {
        return Zero();
      }
      var weightedSum := Zero();
      var totalMass := 0.0;
      var i := 0;
      while i < |planets|
        invariant 0 <= i <= |planets|
        invariant weightedSum == TotalMoment(planets[..i], true)
        invariant totalMass == TotalMass(planets[..i], true)
      {
        TotalsSnoc(planets[..i], planets[i], true);
        assert planets[..i + 1] == planets[..i] + [planets[i]];
        var mass := planets[i].mass;
        if mass <= 0.0 {
          i := i + 1;
          continue;
        }
        weightedSum := Add(weightedSum, Scale(planets[i].position, mass));
        totalMass := totalMass + mass;
        i := i + 1;
      }
      assert planets[..i] == planets;
      if totalMass == 0.0 {
        return Zero();
      }
      com := Div(weightedSum, totalMass);
    }

    /** `computeInliers`: the ascending indices of the bodies within
        `outlierMultiplier` times the median distance of the all-body centre. */
    method ComputeInliers(planets: seq<Planet>, length: Vector2 -> real) returns (indices: seq<nat>)
      ensures indices == Inliers(planets, outlierMultiplier, length)
      ensures Valid() && planets != [] ==> |indices| >= |planets| / 2 + 1
    {
      if Valid() && planets != [] {
        InliersAreMajority(planets, outlierMultiplier, length);
      }
      indices := [];
      if planets == [] {
        return;
      }
      var weightedSum, totalMass := SumOverAll(planets);
      var com := if totalMass > 0.0 then Div(weightedSum, totalMass) else Zero();
      var dists := DistancesTo(planets, com, length);
      var sorted := SortedCopy(dists);
      var mid := |sorted| / 2;
      var median := sorted[mid];
      if median <= 0.0 {
        median := 0.0001;
      }
      var threshold := outlierMultiplier * median;
      assert threshold == InlierThreshold(dists, outlierMultiplier);
      indices := IndicesAtMost(dists, threshold);
    }

    /** The preliminary sums of `computeInliers`: every body, any mass. */
    static method SumOverAll(planets: seq<Planet>) returns (weightedSum: Vector2, totalMass: real)
      ensures weightedSum == TotalMoment(planets, false) && totalMass == TotalMass(planets, false)
    {
      weightedSum := Zero();
      totalMass := 0.0;
      var i := 0;
      while i < |planets|
        invariant 0 <= i <= |planets|
        invariant weightedSum == TotalMoment(planets[..i], false)
        invariant totalMass == TotalMass(planets[..i], false)
      {
        TotalsSnoc(planets[..i], planets[i], false);
        assert planets[..i + 1] == planets[..i] + [planets[i]];
        weightedSum := Add(weightedSum, Scale(planets[i].position, planets[i].mass));
        totalMass := totalMass + planets[i].mass;
        i := i + 1;
      }
      assert planets[..i] == planets;
    }

    /** The distance of every body to `com`, in body order. */
    static method DistancesTo(planets: seq<Planet>, com: Vector2, length: Vector2 -> real) returns (dists: seq<real>)
      ensures dists == Distances(planets, com, length)
    {
      dists := [];
      var i := 0;
      while i < |planets|
        invariant 0 <= i <= |planets|
        invariant dists == Distances(planets[..i], com, length)
      {
        dists := dists + [length(Sub(planets[i].position, com))];
        i := i + 1;
        assert planets[..i][..i - 1] == planets[..i - 1];
      }
      assert planets[..i] == planets;
    }

    /** The indices of the distances at most `threshold`, in order. */
    static method IndicesAtMost(dists: seq<real>, threshold: real) returns (indices: seq<nat>)
      ensures indices == IndicesWithin(dists, threshold)
    {
      indices := [];
      var i := 0;
      while i < |dists|
        invariant 0 <= i <= |dists|
        invariant indices == IndicesWithin(dists[..i], threshold)
      {
        assert dists[..i + 1][..i] == dists[..i];
        if dists[i] <= threshold {
          indices := indices + [i];
        }
        i := i + 1;
      }
      assert dists[..i] == dists;
    }

    /** The box over the framed bodies: every body when `inliers` is empty,
        the listed ones otherwise. */
    method BoundingBox(planets: seq<Planet>, inliers: seq<nat>) returns (box: Box)
      requires forall k :: 0 <= k < |inliers| ==> inliers[k] < |planets|
      ensures inliers == [] ==> box == BoxOf(planets)
      ensures inliers != [] ==> box == BoxOf(Select(planets, inliers))
    {
      box := EmptyBox;
      if inliers == [] {
        var i := 0;
        while i < |planets|
          invariant 0 <= i <= |planets|
          invariant box == BoxOf(planets[..i])
        {
          assert planets[..i + 1][..i] == planets[..i];
          box := Extend(box, planets[i]);
          i := i + 1;
        }
        assert planets[..i] == planets;
      } else {
        var k := 0;
        while k < |inliers|
          invariant 0 <= k <= |inliers|
          invariant box == BoxOf(Select(planets, inliers[..k]))
        {
          assert Select(planets, inliers[..k + 1])[..k] == Select(planets, inliers[..k]);
          box := Extend(box, planets[inliers[k]]);
          k := k + 1;
        }
        assert inliers[..k] == inliers;
      }
    }

    /** `computeOptimalZoom`: the zoom fitting the box of the inliers, or of
        every body when there are no inliers; 1 for no bodies. */
    method ComputeOptimalZoom(planets: seq<Planet>, length: Vector2 -> real) returns (z: real)
      ensures z == OptimalZoom(planets, outlierMultiplier, length)
    {
      if planets == [] {
        return 1.0;
      }
      var inliers := ComputeInliers(planets, length);
      InliersAreTheCloseBodies(planets, outlierMultiplier, length);
      var box := BoundingBox(planets, inliers);
      assert box == BoxOf(FramedBodies(planets, outlierMultiplier, length));
      z := ZoomToFit(box);
    }

    /** The size-to-zoom step of `computeOptimalZoom`. */
    static method ZoomToFit(box: Box) returns (z: real)
      ensures z == FitZoom(box)
    {
      var width := box.maxX - box.minX;
      var height := box.maxY - box.minY;
      width := width * 1.2;
      height := height * 1.2;
      width := Max(width, 0.0001);
      height := Max(height, 0.0001);
      var zoomX := 2.0 / width;
      var zoomY := 2.0 / height;
      var optimalZoom := Min(zoomX, zoomY);
      z := Clamp(optimalZoom, MinZoom, MaxZoom);
    }

    /** The mass-weighted centre of the listed bodies, as `update` sums it:
        every mass counts, and the sum is left to the caller to divide. */
    method SumOverInliers(planets: seq<Planet>, inliers: seq<nat>) returns (weightedSum: Vector2, totalMass: real)
      requires forall k :: 0 <= k < |inliers| ==> inliers[k] < |planets|
      ensures weightedSum == TotalMoment(Select(planets, inliers), false)
      ensures totalMass == TotalMass(Select(planets, inliers), false)
    {
      weightedSum := Zero();
      totalMass := 0.0;
      var k := 0;
      while k < |inliers|
        invariant 0 <= k <= |inliers|
        invariant weightedSum == TotalMoment(Select(planets, inliers[..k]), false)
        invariant totalMass == TotalMass(Select(planets, inliers[..k]), false)
      {
        var pl := planets[inliers[k]];
        TotalsSnoc(Select(planets, inliers[..k]), pl, false);
        assert Select(planets, inliers[..k + 1]) == Select(planets, inliers[..k]) + [pl];
        weightedSum := Add(weightedSum, Scale(pl.position, pl.mass));
        totalMass := totalMass + pl.mass;
        k := k + 1;
      }
      assert inliers[..k] == inliers;
    }

    /** The target selection of `update`: the followed body if the index is
        in range, else (resetting the index) the inlier centre. */
    method ChooseTarget(planets: seq<Planet>, length: Vector2 -> real)
      requires planets != []
      modifies this
      ensures target == FollowTarget(planets, old(followedPlanetIndex), outlierMultiplier, length)
      ensures followedPlanetIndex == (if 0 <= old(followedPlanetIndex) < |planets| then old(followedPlanetIndex) else -1)
      ensures position == old(position) && zoom == old(zoom) && zoomOffset == old(zoomOffset)
      ensures initialized == old(initialized) && outlierMultiplier == old(outlierMultiplier)
    {
      if 0 <= followedPlanetIndex < |planets| {
        target := planets[followedPlanetIndex].position;
      } else {
        followedPlanetIndex := -1;
        var inliers := ComputeInliers(planets, length);
        InliersAreTheCloseBodies(planets, outlierMultiplier, length);
        if inliers != [] {
          var weightedSum, totalMass := SumOverInliers(planets, inliers);
          if totalMass > 0.0 {
            target := Div(weightedSum, totalMass);
          } else {
            target := ComputeCenterOfMass(planets);
          }
        } else {
          target := ComputeCenterOfMass(planets);
        }
      }
    }

    /** `update`: nothing happens without bodies. Otherwise the target is
        chosen; the first update snaps to it at the fitted zoom times the
        user's offset, later updates move position and zoom toward them by
        the given factors. */
    method Update(planets: seq<Planet>, length: Vector2 -> real, lerpFactor: real, zoomLerpFactor: real)
      requires Valid()
      requires 0.0 <= lerpFactor <= 1.0 && 0.0 <= zoomLerpFactor <= 1.0
      modifies this
      ensures Valid()
      ensures zoomOffset == old(zoomOffset) && outlierMultiplier == old(outlierMultiplier)
      ensures planets == [] ==>
        position == old(position) && target == old(target) && zoom == old(zoom) &&
        followedPlanetIndex == old(followedPlanetIndex) && initialized == old(initialized)
      ensures planets != [] ==>
        target == FollowTarget(planets, old(followedPlanetIndex), outlierMultiplier, length) &&
        followedPlanetIndex == (if 0 <= old(followedPlanetIndex) < |planets| then old(followedPlanetIndex) else -1) &&
        initialized
      ensures planets != [] && !old(initialized) ==>
        position == target && zoom == TargetZoom(OptimalZoom(planets, outlierMultiplier, length), zoomOffset)
      ensures planets != [] && old(initialized) ==>
        position == LerpVector(old(position), target, lerpFactor) &&
        zoom == Lerp(old(zoom), TargetZoom(OptimalZoom(planets, outlierMultiplier, length), zoomOffset), zoomLerpFactor)
    {
      if planets == [] {
        return;
      }
      ChooseTarget(planets, length);
      if !initialized {
        SnapToTarget(planets, length);
        return;
      }
      MoveTowardTarget(planets, length, lerpFactor, zoomLerpFactor);
    }

    /** The first frame: jump to the target at the fitted zoom times the
        user's offset. */
    method SnapToTarget(planets: seq<Planet>, length: Vector2 -> real)
      requires Valid()
      modifies this
      ensures Valid()
      ensures position == old(target) && zoom == TargetZoom(OptimalZoom(planets, outlierMultiplier, length), old(zoomOffset))
      ensures initialized
      ensures target == old(target) && zoomOffset == old(zoomOffset) && followedPlanetIndex == old(followedPlanetIndex)
      ensures outlierMultiplier == old(outlierMultiplier)
    {
      var offset := zoomOffset;
      var optimalZoom := ComputeOptimalZoom(planets, length);
      ScaledZoomBounds(optimalZoom, offset);
      var snapped := TargetZoom(optimalZoom, offset);
      position := target;
      zoom := snapped;
      initialized := true;
    }

    /** Later frames: move position and zoom part of the way toward the
        target and the fitted zoom times the user's offset. */
    method MoveTowardTarget(planets: seq<Planet>, length: Vector2 -> real, lerpFactor: real, zoomLerpFactor: real)
      requires Valid()
      requires 0.0 <= lerpFactor <= 1.0 && 0.0 <= zoomLerpFactor <= 1.0
      modifies this
      ensures Valid()
      ensures position == LerpVector(old(position), old(target), lerpFactor)
      ensures zoom == Lerp(old(zoom), TargetZoom(OptimalZoom(planets, outlierMultiplier, length), old(zoomOffset)), zoomLerpFactor)
      ensures target == old(target) && zoomOffset == old(zoomOffset)
      ensures followedPlanetIndex == old(followedPlanetIndex) && initialized == old(initialized)
      ensures outlierMultiplier == old(outlierMultiplier)
    {
      var offset, current := zoomOffset, zoom;
      var optimalZoom := ComputeOptimalZoom(planets, length);
      var targetZoom := TargetZoom(optimalZoom, offset);
      ScaledZoomBounds(optimalZoom, offset);
      LerpStaysBetween(current, targetZoom, zoomLerpFactor);
      var next := Lerp(current, targetZoom, zoomLerpFactor);
      position := LerpVector(position, target, lerpFactor);
      zoom := next;
    }
  }
}
