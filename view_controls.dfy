/** The renderer's own view controls and its trail toggle, as values: the
    zoom clamp, the zoom-relative pan, the keyboard step of `handleInput`
    and the edge-triggered latch of the T key. */
module ViewControls {
  import opened Vectors
  import opened Scalars

  const MinViewZoom: real := 0.1
  const MaxViewZoom: real := 10.0

  /** `setZoom`: `max(0.1, min(10, z))`. */
  function ClampedViewZoom(z: real): real
  {
    Max(MinViewZoom, Min(MaxViewZoom, z))
  }

  /** The zoom always lands in [0.1, 10], a zoom already inside is kept, and
      one outside is moved to the nearer bound. */
  lemma ClampedViewZoomRange(z: real)
    ensures MinViewZoom <= ClampedViewZoom(z) <= MaxViewZoom
    ensures MinViewZoom <= z <= MaxViewZoom ==> ClampedViewZoom(z) == z
    ensures z < MinViewZoom ==> ClampedViewZoom(z) == MinViewZoom
    ensures z > MaxViewZoom ==> ClampedViewZoom(z) == MaxViewZoom
  {
  }

  /** `pan(dx, dy)`: the offset is divided by the zoom before it is added. */
  function Panned(pos: Vector2, dx: real, dy: real, zoom: real): Vector2
    requires zoom != 0.0
  {
    Add(pos, Div(Vector2(dx, dy), zoom))
  }

  /** Panning back by the opposite offset at the same zoom restores the
      position, and a pan by (dx, dy) at zoom 1 moves by exactly (dx, dy). */
  lemma PannedIsInvertible(pos: Vector2, dx: real, dy: real, zoom: real)
    requires zoom != 0.0
    ensures Panned(Panned(pos, dx, dy, zoom), -dx, -dy, zoom) == pos
    ensures Panned(pos, dx, dy, 1.0) == Vector2(pos.x + dx, pos.y + dy)
  {
    assert -dx / zoom == -(dx / zoom);
    assert -dy / zoom == -(dy / zoom);
  }

  /** The keys `handleInput` polls in one frame (`true` means pressed). */
  datatype Keys = Keys(escape: bool, left: bool, right: bool, up: bool, down: bool,
                       equal: bool, minus: bool, t: bool)

  /** The arrow-key pans of one frame: the speed `0.01 / zoom` is computed
      once, and each pressed arrow then pans by it. */
  function ArrowPanned(pos: Vector2, keys: Keys, zoom: real): Vector2
    requires zoom != 0.0
  {
    var speed := 0.01 / zoom;
    var p1 := if keys.left then Panned(pos, -speed, 0.0, zoom) else pos;
    var p2 := if keys.right then Panned(p1, speed, 0.0, zoom) else p1;
    var p3 := if keys.up then Panned(p2, 0.0, speed, zoom) else p2;
    if keys.down then Panned(p3, 0.0, -speed, zoom) else p3
  }

  /** The net move along one axis: `step` for the positive key, minus
      `step` for the negative one. */
  function Along(positive: bool, negative: bool, step: real): real
  {
    (if positive then step else 0.0) - (if negative then step else 0.0)
  }

  /** Because `pan` divides by the zoom again, an arrow key moves the view by
      `0.01 / zoom / zoom` world units per frame along its axis; opposite
      arrows cancel. */
  lemma ArrowPanDividesTwice(pos: Vector2, keys: Keys, zoom: real)
    requires zoom != 0.0
    ensures ArrowPanned(pos, keys, zoom) ==
      Vector2(pos.x + Along(keys.right, keys.left, 0.01 / zoom / zoom),
              pos.y + Along(keys.up, keys.down, 0.01 / zoom / zoom))
  {
    var step := 0.01 / zoom / zoom;
    assert -(0.01 / zoom) / zoom == -step;
  }

  /** The zoom keys of one frame: `=` multiplies by 1.05, then `-` by 0.95,
      each through `setZoom`. */
  function KeyZoomed(zoom: real, keys: Keys): real
  {
    var z1 := if keys.equal then ClampedViewZoom(zoom * 1.05) else zoom;
    if keys.minus then ClampedViewZoom(z1 * 0.95) else z1
  }

  /** The zoom keys keep a zoom in [0.1, 10] there. */
  lemma KeyZoomedRange(zoom: real, keys: Keys)
    requires MinViewZoom <= zoom <= MaxViewZoom
    ensures MinViewZoom <= KeyZoomed(zoom, keys) <= MaxViewZoom
    ensures !keys.equal && !keys.minus ==> KeyZoomed(zoom, keys) == zoom
  {
    ClampedViewZoomRange(zoom * 1.05);
    var z1 := if keys.equal then ClampedViewZoom(zoom * 1.05) else zoom;
    ClampedViewZoomRange(z1 * 0.95);
  }

  /** The trail switch and the static latch of the T key. */
  datatype Toggle = Toggle(trailsEnabled: bool, tKeyPressed: bool)

  /** One poll of the T key: a press while unlatched flips the switch and
      latches; a release unlatches; a press while latched does nothing. */
  function TStep(s: Toggle, tDown: bool): Toggle
  {
    if tDown && !s.tKeyPressed then Toggle(!s.trailsEnabled, true)
    else if !tDown then Toggle(s.trailsEnabled, false)
    else s
  }

  /** The toggle state after polling the key states `keys`, oldest first. */
  function TRun(s: Toggle, keys: seq<bool>): Toggle
  {
    if keys == [] then s else TStep(TRun(s, keys[..|keys| - 1]), keys[|keys| - 1])
  }

  /** The number of presses in `keys`: polls where the key is down and was up
      at the previous poll (`wasDown` is the state before the first one). */
  function Presses(wasDown: bool, keys: seq<bool>): nat
  {
    if keys == [] then 0
    else
      var n := |keys|;
      var before := if n == 1 then wasDown else keys[n - 2];
      Presses(wasDown, keys[..n - 1]) + (if keys[n - 1] && !before then 1 else 0)
  }

  /** The latch always holds the last polled key state, and the switch has
      flipped once per press: a held key does not flip it again, a release
      re-arms it. */
  lemma {:induction false} TRunFlipsOncePerPress(s: Toggle, keys: seq<bool>)
    ensures TRun(s, keys).tKeyPressed == (if keys == [] then s.tKeyPressed else keys[|keys| - 1])
    ensures TRun(s, keys).trailsEnabled == (s.trailsEnabled != (Presses(s.tKeyPressed, keys) % 2 == 1))
  {
    if keys != [] {
      var init := keys[..|keys| - 1];
      TRunFlipsOncePerPress(s, init);
      if |keys| >= 2 {
        assert init[|init| - 1] == keys[|keys| - 2];
      }
    }
  }

  /** Holding T down for any number of frames from the released state flips
      the switch exactly once. */
  lemma HeldKeyFlipsOnce(s: Toggle, frames: nat)
    requires !s.tKeyPressed && frames >= 1
    ensures TRun(s, seq(frames, _ => true)).trailsEnabled == !s.trailsEnabled
  {
    HeldPressesCountOne(frames);
    TRunFlipsOncePerPress(s, seq(frames, _ => true));
  }

  lemma {:induction false} HeldPressesCountOne(frames: nat)
    requires frames >= 1
    ensures Presses(false, seq(frames, _ => true)) == 1
  {
    if frames > 1 {
      HeldPressesCountOne(frames - 1);
      assert seq(frames, _ => true)[..frames - 1] == seq(frames - 1, _ => true);
    } else {
      assert seq(frames, _ => true)[..0] == [];
    }
  }
}
