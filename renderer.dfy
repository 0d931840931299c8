/** The renderer's state that is not OpenGL: its own camera (position and
    zoom), the per-body trail history, the trail switch and the T-key latch.
    Window, shader and buffer handles are foreign state and are left out. */
module Rendering {
  import opened Vectors
  import opened Planets
  import opened TrailBuffer
  import opened ViewControls

  /** The sample data `drawTrails` uploads for one trail: each sample with
      its age `j / (n - 1)`, built by appending in sample order. */
  method BuildTrailData(t: Trail) returns (data: seq<TrailVertex>)
    requires |t| >= 2
    ensures data == TrailVertices(t)
  {
    var maxAge := (|t| - 1) as real;
    data := [];
    var j := 0;
    while j < |t|
      invariant 0 <= j <= |t|
      invariant data == TrailVertices(t)[..j]
    {
      data := data + [TrailVertex(t[j].x, t[j].y, j as real / maxAge)];
      j := j + 1;
    }
  }

  class Renderer {
    var cameraPosition: Vector2
    var cameraZoom: real
    /** One deque of past positions per body, oldest first. */
    var trails: seq<Trail>
    var trailsEnabled: bool
    /** A C++ `int` that the constructor sets to 500 and nothing changes. */
    const maxTrailLength: nat
    /** The function-local `static bool tKeyPressed` of `handleInput`. */
    var tKeyPressed: bool

    /** The zoom stays in [0.1, 10] and no trail exceeds its capacity. */
    ghost predicate Valid()
      reads this
    {
      MinViewZoom <= cameraZoom <= MaxViewZoom && Bounded(trails, maxTrailLength)
    }

    constructor ()
      ensures Valid()
      ensures cameraPosition == Zero() && cameraZoom == 1.0
      ensures trails == [] && trailsEnabled && !tKeyPressed
      ensures maxTrailLength == 500
    {
      cameraPosition := Vector2(0.0, 0.0);
      cameraZoom := 1.0;
      trails := [];
      trailsEnabled := true;
      maxTrailLength := 500;
      tKeyPressed := false;
    }

    method SetZoom(zoom: real)
      requires Valid()
      modifies this
      ensures Valid()
      ensures cameraZoom == ClampedViewZoom(zoom)
      ensures cameraPosition == old(cameraPosition) && trails == old(trails)
      ensures trailsEnabled == old(trailsEnabled) && tKeyPressed == old(tKeyPressed)
    {
      ClampedViewZoomRange(zoom);
      cameraZoom := ClampedViewZoom(zoom);
    }

    method Pan(dx: real, dy: real)
      requires Valid()
      modifies this
      ensures Valid()
      ensures cameraPosition == Panned(old(cameraPosition), dx, dy, cameraZoom)
      ensures cameraZoom == old(cameraZoom) && trails == old(trails)
      ensures trailsEnabled == old(trailsEnabled) && tKeyPressed == old(tKeyPressed)
    {
      cameraPosition := Vector2(cameraPosition.x + dx / cameraZoom, cameraPosition.y + dy / cameraZoom);
    }

    /** `updateTrails`: resize to the body count, then push each body's
        position and pop the front of its trail while it is too long. */
    method UpdateTrails(planets: seq<Planet>)
      requires Valid()
      modifies this
      ensures Valid()
      ensures trails == UpdatedTrails(old(trails), Positions(planets), maxTrailLength)
      ensures cameraPosition == old(cameraPosition) && cameraZoom == old(cameraZoom)
      ensures trailsEnabled == old(trailsEnabled) && tKeyPressed == old(tKeyPressed)
    {
      ghost var goal := UpdatedTrails(old(trails), Positions(planets), maxTrailLength);
      ghost var start := Resized(old(trails), |planets|);
      var n := |planets|;
      if |trails| != n {
        trails := Resized(trails, n);
      }
      var i := 0;
      while i < n
        invariant 0 <= i <= n && |trails| == n
        invariant forall k :: 0 <= k < i ==> trails[k] == goal[k]
        invariant forall k :: i <= k < n ==> trails[k] == start[k]
        invariant cameraPosition == old(cameraPosition) && cameraZoom == old(cameraZoom)
        invariant trailsEnabled == old(trailsEnabled) && tKeyPressed == old(tKeyPressed)
      {
        trails := trails[i := trails[i] + [planets[i].position]];
        while |trails[i]| > maxTrailLength
          invariant |trails| == n
          invariant Evict(trails[i], maxTrailLength) == goal[i]
          invariant forall k :: 0 <= k < i ==> trails[k] == goal[k]
          invariant forall k :: i < k < n ==> trails[k] == start[k]
          invariant cameraPosition == old(cameraPosition) && cameraZoom == old(cameraZoom)
          invariant trailsEnabled == old(trailsEnabled) && tKeyPressed == old(tKeyPressed)
          decreases |trails[i]|
        {
          trails := trails[i := trails[i][1..]];
        }
        i := i + 1;
      }
      forall k | 0 <= k < n
        ensures |trails[k]| <= maxTrailLength
      {
        UpdatedTrailsShape(old(trails), Positions(planets), maxTrailLength, k);
      }
    }

    /** `drawTrails`: nothing happens while trails are off or there are no
        bodies; otherwise the trails are updated and every trail with at
        least two samples is uploaded with its age ramp. The returned batches
        stand for the uploads; the draw calls themselves are not modelled. */
    method DrawTrails(planets: seq<Planet>) returns (batches: seq<TrailBatch>)
      requires Valid()
      modifies this
      ensures Valid()
      ensures !old(trailsEnabled) || planets == [] ==> trails == old(trails) && batches == []
      ensures old(trailsEnabled) && planets != [] ==>
        trails == UpdatedTrails(old(trails), Positions(planets), maxTrailLength) &&
        batches == Batches(trails, |trails|)
      ensures cameraPosition == old(cameraPosition) && cameraZoom == old(cameraZoom)
      ensures trailsEnabled == old(trailsEnabled) && tKeyPressed == old(tKeyPressed)
    {
      if !trailsEnabled || |planets| == 0 {
        return [];
      }
      UpdateTrails(planets);
      ghost var updated := trails;
      batches := [];
      var i := 0;
      while i < |trails| && i < |planets|
        invariant trails == updated && |trails| == |planets|
        invariant 0 <= i <= |trails|
        invariant batches == Batches(trails, i)
        invariant cameraPosition == old(cameraPosition) && cameraZoom == old(cameraZoom)
        invariant trailsEnabled == old(trailsEnabled) && tKeyPressed == old(tKeyPressed)
      {
        if |trails[i]| >= 2 {
          var data := BuildTrailData(trails[i]);
          batches := batches + [TrailBatch(i, data)];
        }
        i := i + 1;
      }
    }

    /** `clearTrails`: every trail emptied, their number unchanged. */
    method ClearTrails()
      requires Valid()
      modifies this
      ensures Valid()
      ensures trails == Cleared(old(trails))
      ensures cameraPosition == old(cameraPosition) && cameraZoom == old(cameraZoom)
      ensures trailsEnabled == old(trailsEnabled) && tKeyPressed == old(tKeyPressed)
    {
      var i := 0;
      while i < |trails|
        invariant 0 <= i <= |trails| == |old(trails)|
        invariant forall k :: 0 <= k < i ==> trails[k] == []
        invariant forall k :: i <= k < |trails| ==> trails[k] == old(trails)[k]
        invariant cameraPosition == old(cameraPosition) && cameraZoom == old(cameraZoom)
        invariant trailsEnabled == old(trailsEnabled) && tKeyPressed == old(tKeyPressed)
      {
        trails := trails[i := []];
        i := i + 1;
      }
    }

    /** `handleInput` for one frame of polled keys: Escape asks the window to
        close (returned), the arrows pan, `=` and `-` zoom through `setZoom`,
        and the T key goes through the latch. */
    method HandleInput(keys: Keys) returns (closeRequested: bool)
      requires Valid()
      modifies this
      ensures Valid()
      ensures closeRequested == keys.escape
      ensures cameraPosition == ArrowPanned(old(cameraPosition), keys, old(cameraZoom))
      ensures cameraZoom == KeyZoomed(old(cameraZoom), keys)
      ensures Toggle(trailsEnabled, tKeyPressed) == TStep(Toggle(old(trailsEnabled), old(tKeyPressed)), keys.t)
      ensures trails == old(trails)
    {
      closeRequested := keys.escape;
      PanArrowKeys(keys);
      ZoomKeys(keys);
      PollTKey(keys.t);
    }

    /** The arrow-key part of `handleInput`. */
    method PanArrowKeys(keys: Keys)
      requires Valid()
      modifies this
      ensures Valid()
      ensures cameraPosition == ArrowPanned(old(cameraPosition), keys, old(cameraZoom))
      ensures cameraZoom == old(cameraZoom) && trails == old(trails)
      ensures trailsEnabled == old(trailsEnabled) && tKeyPressed == old(tKeyPressed)
    {
      ghost var pos0 := cameraPosition;
      var panSpeed := 0.01 / cameraZoom;
      if keys.left {
        Pan(-panSpeed, 0.0);
      }
      ghost var pos1 := cameraPosition;
      if keys.right {
        Pan(panSpeed, 0.0);
      }
      ghost var pos2 := cameraPosition;
      assert pos2 == if keys.right then Panned(pos1, panSpeed, 0.0, cameraZoom) else pos1;
      if keys.up {
        Pan(0.0, panSpeed);
      }
      ghost var pos3 := cameraPosition;
      assert pos3 == if keys.up then Panned(pos2, 0.0, panSpeed, cameraZoom) else pos2;
      if keys.down {
        Pan(0.0, -panSpeed);
      }
    }

    /** The `=` and `-` part of `handleInput`. */
    method ZoomKeys(keys: Keys)
      requires Valid()
      modifies this
      ensures Valid()
      ensures cameraZoom == KeyZoomed(old(cameraZoom), keys)
      ensures cameraPosition == old(cameraPosition) && trails == old(trails)
      ensures trailsEnabled == old(trailsEnabled) && tKeyPressed == old(tKeyPressed)
    {
      if keys.equal {
        SetZoom(cameraZoom * 1.05);
      }
      if keys.minus {
        SetZoom(cameraZoom * 0.95);
      }
    }

    /** The T-key latch of `handleInput`. */
    method PollTKey(tDown: bool)
      requires Valid()
      modifies this
      ensures Valid()
      ensures Toggle(trailsEnabled, tKeyPressed) == TStep(Toggle(old(trailsEnabled), old(tKeyPressed)), tDown)
      ensures cameraPosition == old(cameraPosition) && cameraZoom == old(cameraZoom)
      ensures trails == old(trails)
    {
      if tDown && !tKeyPressed {
        trailsEnabled := !trailsEnabled;
        tKeyPressed := true;
      } else if !tDown {
        tKeyPressed := false;
      }
    }
  }
}
