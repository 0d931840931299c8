/** The per-body trail history of the renderer: a vector of bounded FIFO
    deques of positions, oldest sample first. This module states what one
    update, a clear and the age ramp of a drawn trail produce; the renderer
    class reaches these values by mutating its `trails` field step by step. */
module TrailBuffer {
  import opened Vectors

  /** One body's history, oldest sample first. */
  type Trail = seq<Vector2>

  /** How many of `n` samples a trail of capacity `cap` retains: `min(n, cap)`. */
  function Retained(n: nat, cap: nat): nat
  {
    if n <= cap then n else cap
  }

  /** The `pop_front` loop: drop the oldest sample while the trail is longer than `cap`. */
  function Evict(t: Trail, cap: nat): Trail
    decreases |t|
  {
    if |t| <= cap then t else Evict(t[1..], cap)
  }

  /** `push_back(p)` followed by the eviction loop. */
  function Pushed(t: Trail, p: Vector2, cap: nat): Trail
  {
    Evict(t + [p], cap)
  }

  /** Eviction keeps exactly the newest `min(|t|, cap)` samples, in order. */
  lemma {:induction false} EvictKeepsNewest(t: Trail, cap: nat)
    ensures |Evict(t, cap)| == Retained(|t|, cap)
    ensures Evict(t, cap) == t[|t| - Retained(|t|, cap)..]
    decreases |t|
  {
    if |t| > cap {
      var rest := t[1..];
      EvictKeepsNewest(rest, cap);
      assert Evict(t, cap) == Evict(rest, cap);
      assert Retained(|rest|, cap) == cap && Retained(|t|, cap) == cap;
      assert rest[|rest| - cap..] == t[|t| - cap..];
    }
  }

  /** After one push the trail is the newest `min(|t| + 1, cap)` samples of
      `t + [p]`: never longer than `cap`, ending with `p` when `cap > 0`, and
      what was dropped is taken from the front (the oldest samples). */
  lemma PushedKeepsNewest(t: Trail, p: Vector2, cap: nat)
    ensures |Pushed(t, p, cap)| == Retained(|t| + 1, cap) <= cap
    ensures Pushed(t, p, cap) == (t + [p])[|t| + 1 - Retained(|t| + 1, cap)..]
    ensures cap > 0 ==> Pushed(t, p, cap)[|Pushed(t, p, cap)| - 1] == p
    ensures cap > 0 ==> Pushed(t, p, cap)[..|Pushed(t, p, cap)| - 1] == t[|t| + 1 - Retained(|t| + 1, cap)..]
  {
    EvictKeepsNewest(t + [p], cap);
  }

  /** The trail a body accumulates when its positions `samples` are pushed one
      after another into an empty trail. */
  function Recorded(samples: seq<Vector2>, cap: nat): Trail
  {
    if samples == [] then [] else Pushed(Recorded(samples[..|samples| - 1], cap), samples[|samples| - 1], cap)
  }

  /** After N recordings the trail holds the last `min(N, cap)` samples in
      recording order; once N >= cap > 0 its length is exactly `cap` and its
      oldest entry is sample `N - cap`. */
  lemma {:induction false} RecordedKeepsLatest(samples: seq<Vector2>, cap: nat)
    ensures Recorded(samples, cap) == samples[|samples| - Retained(|samples|, cap)..]
    ensures |samples| >= cap > 0 ==>
      |Recorded(samples, cap)| == cap && Recorded(samples, cap)[0] == samples[|samples| - cap]
  {
    if samples != [] {
      var n := |samples|;
      var init, last := samples[..n - 1], samples[n - 1];
      RecordedKeepsLatest(init, cap);
      var kept := Recorded(init, cap);
      assert init + [last] == samples;
      EvictKeepsNewest(kept + [last], cap);
      if n <= cap {
        assert kept == init;
        assert kept + [last] == samples;
      } else {
        assert kept == init[n - 1 - cap..];
        assert (kept + [last])[|kept| + 1 - cap..] == samples[n - cap..];
      }
    }
  }

  /** `trails.resize(n)`: surplus trails are dropped from the end, new trails start empty. */
  function Resized(trails: seq<Trail>, n: nat): (r: seq<Trail>)
    ensures |r| == n
  {
    if n <= |trails| then trails[..n] else trails + seq(n - |trails|, _ => [])
  }

  /** The trail history after one `updateTrails` with the bodies at `positions`. */
  function UpdatedTrails(trails: seq<Trail>, positions: seq<Vector2>, cap: nat): seq<Trail>
  {
    var r := Resized(trails, |positions|);
    seq(|positions|, i requires 0 <= i < |positions| => Pushed(r[i], positions[i], cap))
  }

  /** One update leaves one trail per body. A body that already had a trail
      keeps its history and gains its current position at the back; a new body
      starts from an empty trail; no trail is longer than `cap`. */
  lemma UpdatedTrailsShape(trails: seq<Trail>, positions: seq<Vector2>, cap: nat, i: nat)
    requires i < |positions|
    ensures |UpdatedTrails(trails, positions, cap)| == |positions|
    ensures i < |trails| ==> UpdatedTrails(trails, positions, cap)[i] == Pushed(trails[i], positions[i], cap)
    ensures i >= |trails| ==> UpdatedTrails(trails, positions, cap)[i] == Pushed([], positions[i], cap)
    ensures |UpdatedTrails(trails, positions, cap)[i]| <= cap
  {
    var r := Resized(trails, |positions|);
    assert i < |trails| ==> r[i] == trails[i];
    assert i >= |trails| ==> r[i] == [];
    PushedKeepsNewest(r[i], positions[i], cap);
  }

  /** Every trail of `trails` has at most `cap` samples. */
  ghost predicate Bounded(trails: seq<Trail>, cap: nat)
  {
    forall i :: 0 <= i < |trails| ==> |trails[i]| <= cap
  }

  /** `clearTrails`: every trail emptied, the number of trails unchanged. */
  function Cleared(trails: seq<Trail>): (r: seq<Trail>)
    ensures |r| == |trails|
    ensures forall i :: 0 <= i < |r| ==> r[i] == []
  {
    seq(|trails|, _ => [])
  }

  /** One vertex uploaded for a drawn trail: the sample and its age. */
  datatype TrailVertex = TrailVertex(x: real, y: real, age: real)

  /** The age of sample `j` of an `n`-sample trail: `j / (n - 1)`. */
  function Age(j: nat, n: nat): real
    requires n >= 2
  {
    j as real / (n - 1) as real
  }

  /** The vertex data `drawTrails` builds for a trail of at least two samples. */
  function TrailVertices(t: Trail): (r: seq<TrailVertex>)
    requires |t| >= 2
    ensures |r| == |t|
  {
    seq(|t|, j requires 0 <= j < |t| => TrailVertex(t[j].x, t[j].y, Age(j, |t|)))
  }

  /** Ages run from 0 at the oldest sample to 1 at the newest, strictly
      increasing and never outside [0, 1]. */
  lemma AgesRamp(n: nat, j: nat, k: nat)
    requires n >= 2 && j < k < n
    ensures Age(0, n) == 0.0 && Age(n - 1, n) == 1.0
    ensures 0.0 <= Age(j, n) < Age(k, n) <= 1.0
  {
    var d := (n - 1) as real;
    DivStrictlyMonotone(j as real, k as real, d);
    if k < n - 1 {
      DivStrictlyMonotone(k as real, d, d);
    }
  }

  /** Dividing by a positive number keeps a strict order. */
  lemma DivStrictlyMonotone(a: real, b: real, d: real)
    requires a < b && d > 0.0
    ensures a / d < b / d
  {
    assert (b / d - a / d) * d == b - a;
  }

  /** One drawn trail: the body it belongs to and the vertices uploaded for it. */
  datatype TrailBatch = TrailBatch(body: nat, vertices: seq<TrailVertex>)

  /** The batches `drawTrails` uploads for the first `count` trails: trails
      with fewer than two samples are skipped. */
  function Batches(trails: seq<Trail>, count: nat): seq<TrailBatch>
    requires count <= |trails|
  {
    if count == 0 then
      []
    else
      var drawn := if |trails[count - 1]| >= 2 then [TrailBatch(count - 1, TrailVertices(trails[count - 1]))] else [];
      Batches(trails, count - 1) + drawn
  }

  /** Every batch is a trail with at least two samples, carrying that
      trail's own vertex data, and the batches come in body order. */
  lemma {:induction false} BatchesAreLongTrails(trails: seq<Trail>, count: nat)
    requires count <= |trails|
    ensures forall k :: 0 <= k < |Batches(trails, count)| ==>
      Batches(trails, count)[k].body < count && |trails[Batches(trails, count)[k].body]| >= 2 &&
      Batches(trails, count)[k].vertices == TrailVertices(trails[Batches(trails, count)[k].body])
    ensures forall k :: 0 <= k < |Batches(trails, count)| - 1 ==>
      Batches(trails, count)[k].body < Batches(trails, count)[k + 1].body
  {
    if count > 0 {
      BatchesAreLongTrails(trails, count - 1);
      var prev := Batches(trails, count - 1);
      var all := Batches(trails, count);
      if |trails[count - 1]| >= 2 {
        assert all == prev + [TrailBatch(count - 1, TrailVertices(trails[count - 1]))];
      } else {
        assert all == prev;
      }
    }
  }

  /** Every trail with at least two samples is drawn. */
  lemma {:induction false} BatchesCoverLongTrails(trails: seq<Trail>, count: nat)
    requires count <= |trails|
    ensures forall i :: 0 <= i < count && |trails[i]| >= 2 ==>
      exists k :: 0 <= k < |Batches(trails, count)| && Batches(trails, count)[k].body == i
  {
    if count > 0 {
      BatchesCoverLongTrails(trails, count - 1);
      var prev := Batches(trails, count - 1);
      var all := Batches(trails, count);
      assert Batches(trails, count) == prev + (if |trails[count - 1]| >= 2 then [TrailBatch(count - 1, TrailVertices(trails[count - 1]))] else []);
      forall i | 0 <= i < count && |trails[i]| >= 2
        ensures exists k :: 0 <= k < |all| && all[k].body == i
      {
        if i == count - 1 {
          assert all[|all| - 1].body == i;
        } else {
          var k :| 0 <= k < |prev| && prev[k].body == i;
          assert all[k].body == i;
        }
      }
    }
  }

  /** Exactly the trails with at least two samples are drawn, in body order,
      each with its own vertex data. */
  lemma BatchesDrawLongTrails(trails: seq<Trail>, count: nat)
    requires count <= |trails|
    ensures forall k :: 0 <= k < |Batches(trails, count)| ==>
      var b := Batches(trails, count)[k];
      b.body < count && |trails[b.body]| >= 2 && b.vertices == TrailVertices(trails[b.body])
    ensures forall k :: 0 <= k < |Batches(trails, count)| - 1 ==>
      Batches(trails, count)[k].body < Batches(trails, count)[k + 1].body
    ensures forall i :: 0 <= i < count && |trails[i]| >= 2 ==>
      exists k :: 0 <= k < |Batches(trails, count)| && Batches(trails, count)[k].body == i
  {
    BatchesAreLongTrails(trails, count);
    BatchesCoverLongTrails(trails, count);
  }
}
