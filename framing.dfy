/** The camera's framing queries as values: the centre of mass, the
    median-distance inlier filter and the zoom that fits the inliers'
    bounding box into the window. The camera class computes the same values
    with loops; distances come from a `length` function supplied by the
    caller, since the square root is outside the model. */
module Framing {
  import opened Vectors
  import opened Scalars
  import opened Planets

  // ----- weighted sums over reals ------------------------------------------

  /** The sum of a sequence, accumulated front to back. */
  function Sum(ws: seq<real>): real
  {
    if ws == [] then 0.0 else Sum(ws[..|ws| - 1]) + ws[|ws| - 1]
  }

  /** The sum of `xs[i] * ws[i]`, accumulated front to back. */
  function Dot(xs: seq<real>, ws: seq<real>): real
    requires |xs| == |ws|
  {
    if ws == [] then 0.0 else Dot(xs[..|xs| - 1], ws[..|ws| - 1]) + xs[|xs| - 1] * ws[|ws| - 1]
  }

  lemma SumSnoc(ws: seq<real>, v: real)
    ensures Sum(ws + [v]) == Sum(ws) + v
  {
    assert (ws + [v])[..|ws|] == ws;
  }

  lemma DotSnoc(xs: seq<real>, ws: seq<real>, x: real, w: real)
    requires |xs| == |ws|
    ensures Dot(xs + [x], ws + [w]) == Dot(xs, ws) + x * w
  {
    assert (xs + [x])[..|xs|] == xs;
    assert (ws + [w])[..|ws|] == ws;
  }

  /** Sums over a concatenation are sums over the parts. */
  lemma {:induction false} SumConcat(a: seq<real>, b: seq<real>)
    ensures Sum(a + b) == Sum(a) + Sum(b)
    decreases |b|
  {
    if b == [] {
      assert a + b == a;
    } else {
      var n := |b| - 1;
      SumConcat(a, b[..n]);
      assert a + b == (a + b[..n]) + [b[n]];
      assert b == b[..n] + [b[n]];
      SumSnoc(a + b[..n], b[n]);
      SumSnoc(b[..n], b[n]);
    }
  }

  lemma {:induction false} DotConcat(xa: seq<real>, wa: seq<real>, xb: seq<real>, wb: seq<real>)
    requires |xa| == |wa| && |xb| == |wb|
    ensures Dot(xa + xb, wa + wb) == Dot(xa, wa) + Dot(xb, wb)
    decreases |wb|
  {
    if wb == [] {
      assert xa + xb == xa;
      assert wa + wb == wa;
    } else {
      var n := |wb| - 1;
      DotConcat(xa, wa, xb[..n], wb[..n]);
      assert xa + xb == (xa + xb[..n]) + [xb[n]];
      assert wa + wb == (wa + wb[..n]) + [wb[n]];
      assert xb == xb[..n] + [xb[n]];
      assert wb == wb[..n] + [wb[n]];
      DotSnoc(xa + xb[..n], wa + wb[..n], xb[n], wb[n]);
      DotSnoc(xb[..n], wb[..n], xb[n], wb[n]);
    }
  }

  /** Every weight is non-negative, and every value carrying a positive
      weight lies between `lo` and `hi`. */
  ghost predicate WeightedWithin(xs: seq<real>, ws: seq<real>, lo: real, hi: real)
  {
    |xs| == |ws| &&
    forall i :: 0 <= i < |ws| ==> ws[i] >= 0.0 && (ws[i] > 0.0 ==> lo <= xs[i] <= hi)
  }

  lemma WeightedWithinPrefix(xs: seq<real>, ws: seq<real>, lo: real, hi: real, n: nat)
    requires WeightedWithin(xs, ws, lo, hi) && n <= |ws|
    ensures WeightedWithin(xs[..n], ws[..n], lo, hi)
  {
  }

  lemma MulMonotone(a: real, b: real, m: real)
    requires a <= b && m >= 0.0
    ensures a * m <= b * m
  {
    assert (b - a) * m >= 0.0;
  }

  /** Adding one weighted value at most `hi` keeps a weighted sum at most
      `hi` times the new total weight. */
  lemma UpperStep(s: real, m: real, x: real, w: real, hi: real, s': real, m': real)
    requires s <= hi * m && w >= 0.0 && (w > 0.0 ==> x <= hi)
    requires s' == s + x * w && m' == m + w
    ensures s' <= hi * m'
  {
    if w > 0.0 {
      MulMonotone(x, hi, w);
    }
    assert hi * (m + w) == hi * m + hi * w;
  }

  /** Adding one weighted value at least `lo` keeps a weighted sum at least
      `lo` times the new total weight. */
  lemma LowerStep(s: real, m: real, x: real, w: real, lo: real, s': real, m': real)
    requires lo * m <= s && w >= 0.0 && (w > 0.0 ==> lo <= x)
    requires s' == s + x * w && m' == m + w
    ensures lo * m' <= s'
  {
    if w > 0.0 {
      MulMonotone(lo, x, w);
    }
    assert lo * (m + w) == lo * m + lo * w;
  }

  /** The last step of the sums, named for the bound proofs. */
  lemma Unfold(xs: seq<real>, ws: seq<real>, n: nat)
    requires |xs| == |ws| && n + 1 == |ws|
    ensures Sum(ws) == Sum(ws[..n]) + ws[n]
    ensures Dot(xs, ws) == Dot(xs[..n], ws[..n]) + xs[n] * ws[n]
  {
  }

  lemma DotUpperStep(xs: seq<real>, ws: seq<real>, lo: real, hi: real)
    requires WeightedWithin(xs, ws, lo, hi) && ws != []
    requires Dot(xs[..|ws| - 1], ws[..|ws| - 1]) <= hi * Sum(ws[..|ws| - 1])
    ensures Dot(xs, ws) <= hi * Sum(ws)
  {
    var n := |ws| - 1;
    Unfold(xs, ws, n);
    var x, w := xs[n], ws[n];
    assert w >= 0.0 && (w > 0.0 ==> x <= hi);
    UpperStep(Dot(xs[..n], ws[..n]), Sum(ws[..n]), x, w, hi, Dot(xs, ws), Sum(ws));
  }

  lemma DotLowerStep(xs: seq<real>, ws: seq<real>, lo: real, hi: real)
    requires WeightedWithin(xs, ws, lo, hi) && ws != []
    requires lo * Sum(ws[..|ws| - 1]) <= Dot(xs[..|ws| - 1], ws[..|ws| - 1])
    ensures lo * Sum(ws) <= Dot(xs, ws)
  {
    var n := |ws| - 1;
    Unfold(xs, ws, n);
    var x, w := xs[n], ws[n];
    assert w >= 0.0 && (w > 0.0 ==> lo <= x);
    LowerStep(Dot(xs[..n], ws[..n]), Sum(ws[..n]), x, w, lo, Dot(xs, ws), Sum(ws));
  }

  /** A non-negatively weighted sum of values in [lo, hi] lies between the
      bounds times the total weight. */
  lemma {:induction false} DotBounds(xs: seq<real>, ws: seq<real>, lo: real, hi: real)
    requires WeightedWithin(xs, ws, lo, hi)
    ensures lo * Sum(ws) <= Dot(xs, ws)
    ensures Dot(xs, ws) <= hi * Sum(ws)
  {
    if ws != [] {
      WeightedWithinPrefix(xs, ws, lo, hi, |ws| - 1);
      DotBounds(xs[..|ws| - 1], ws[..|ws| - 1], lo, hi);
      DotLowerStep(xs, ws, lo, hi);
      DotUpperStep(xs, ws, lo, hi);
    }
  }

  lemma FactorNonNegative(a: real, m: real)
    requires a * m >= 0.0 && m > 0.0
    ensures a >= 0.0
  {
  }

  /** Dividing by a positive total maps a scaled lower bound back. */
  lemma DivAbove(lo: real, v: real, m: real, q: real)
    requires m > 0.0 && lo * m <= v && q == v / m
    ensures lo <= q
  {
    assert q * m == v;
    assert (q - lo) * m == v - lo * m;
    FactorNonNegative(q - lo, m);
  }

  /** Dividing by a positive total maps a scaled upper bound back. */
  lemma DivBelow(hi: real, v: real, m: real, q: real)
    requires m > 0.0 && v <= hi * m && q == v / m
    ensures q <= hi
  {
    assert q * m == v;
    assert (hi - q) * m == hi * m - v;
    FactorNonNegative(hi - q, m);
  }

  /** A weighted mean of values at least `lo` is at least `lo`. */
  lemma MeanAbove(xs: seq<real>, ws: seq<real>, lo: real, hi: real)
    requires WeightedWithin(xs, ws, lo, hi) && Sum(ws) > 0.0
    ensures lo <= Dot(xs, ws) / Sum(ws)
  {
    DotBounds(xs, ws, lo, hi);
    DivAbove(lo, Dot(xs, ws), Sum(ws), Dot(xs, ws) / Sum(ws));
  }

  /** A weighted mean of values at most `hi` is at most `hi`. */
  lemma MeanBelow(xs: seq<real>, ws: seq<real>, lo: real, hi: real)
    requires WeightedWithin(xs, ws, lo, hi) && Sum(ws) > 0.0
    ensures Dot(xs, ws) / Sum(ws) <= hi
  {
    DotBounds(xs, ws, lo, hi);
    DivBelow(hi, Dot(xs, ws), Sum(ws), Dot(xs, ws) / Sum(ws));
  }

  // ----- mass-weighted sums of bodies --------------------------------------

  /** The weight a body contributes: its mass, or nothing when only positive
      masses count and this one is not positive. */
  function Weight(p: Planet, positiveOnly: bool): real
  {
    if positiveOnly && p.mass <= 0.0 then 0.0 else p.mass
  }

  function Weights(ps: seq<Planet>, positiveOnly: bool): (r: seq<real>)
    ensures |r| == |ps|
  {
    seq(|ps|, i requires 0 <= i < |ps| => Weight(ps[i], positiveOnly))
  }

  function Xs(ps: seq<Planet>): (r: seq<real>)
    ensures |r| == |ps|
  {
    seq(|ps|, i requires 0 <= i < |ps| => ps[i].position.x)
  }

  function Ys(ps: seq<Planet>): (r: seq<real>)
    ensures |r| == |ps|
  {
    seq(|ps|, i requires 0 <= i < |ps| => ps[i].position.y)
  }

  /** The summed weight of the bodies. */
  function TotalMass(ps: seq<Planet>, positiveOnly: bool): real
  {
    Sum(Weights(ps, positiveOnly))
  }

  /** The summed `position * mass` of the bodies. */
  function TotalMoment(ps: seq<Planet>, positiveOnly: bool): Vector2
  {
    var ws := Weights(ps, positiveOnly);
    Vector2(Dot(Xs(ps), ws), Dot(Ys(ps), ws))
  }

  /** `computeCenterOfMass`: bodies with mass <= 0 are skipped; the origin
      for no bodies or no positive mass, otherwise sum(m p) / sum(m). */
  function CenterOfMass(ps: seq<Planet>): Vector2
  {
    if ps == [] then Zero()
    else if TotalMass(ps, true) == 0.0 then Zero()
    else Div(TotalMoment(ps, true), TotalMass(ps, true))
  }

  /** Accumulating one more body, as the loops of the camera do, adds its
      weight to the total mass and its weighted position to the moment. */
  lemma TotalsSnoc(ps: seq<Planet>, p: Planet, positiveOnly: bool)
    ensures TotalMass(ps + [p], positiveOnly) == TotalMass(ps, positiveOnly) + Weight(p, positiveOnly)
    ensures TotalMoment(ps + [p], positiveOnly) ==
            Add(TotalMoment(ps, positiveOnly), Scale(p.position, Weight(p, positiveOnly)))
  {
    var w := Weight(p, positiveOnly);
    assert Weights(ps + [p], positiveOnly) == Weights(ps, positiveOnly) + [w];
    assert Xs(ps + [p]) == Xs(ps) + [p.position.x];
    assert Ys(ps + [p]) == Ys(ps) + [p.position.y];
    SumSnoc(Weights(ps, positiveOnly), w);
    DotSnoc(Xs(ps), Weights(ps, positiveOnly), p.position.x, w);
    DotSnoc(Ys(ps), Weights(ps, positiveOnly), p.position.y, w);
  }

  lemma TotalsConcat(a: seq<Planet>, b: seq<Planet>, positiveOnly: bool)
    ensures TotalMass(a + b, positiveOnly) == TotalMass(a, positiveOnly) + TotalMass(b, positiveOnly)
    ensures TotalMoment(a + b, positiveOnly) == Add(TotalMoment(a, positiveOnly), TotalMoment(b, positiveOnly))
  {
    assert Weights(a + b, positiveOnly) == Weights(a, positiveOnly) + Weights(b, positiveOnly);
    assert Xs(a + b) == Xs(a) + Xs(b);
    assert Ys(a + b) == Ys(a) + Ys(b);
    SumConcat(Weights(a, positiveOnly), Weights(b, positiveOnly));
    DotConcat(Xs(a), Weights(a, positiveOnly), Xs(b), Weights(b, positiveOnly));
    DotConcat(Ys(a), Weights(a, positiveOnly), Ys(b), Weights(b, positiveOnly));
  }

  /** Positive masses only count: inserting a body of mass <= 0 anywhere
      does not move the centre of mass. */
  lemma CenterOfMassIgnoresNonPositive(a: seq<Planet>, q: Planet, b: seq<Planet>)
    requires q.mass <= 0.0
    ensures CenterOfMass(a + [q] + b) == CenterOfMass(a + b)
  {
    TotalsConcat(a + [q], b, true);
    TotalsSnoc(a, q, true);
    TotalsConcat(a, b, true);
    assert Weight(q, true) == 0.0;
    assert Scale(q.position, 0.0) == Zero();
    var ma, mb := TotalMoment(a, true), TotalMoment(b, true);
    assert TotalMoment(a + [q], true) == ma;
    assert TotalMoment(a + [q] + b, true) == Add(ma, mb);
  }

  /** A single body of positive mass is its own centre of mass. */
  lemma CenterOfMassOfOneBody(p: Planet)
    requires p.mass > 0.0
    ensures CenterOfMass([p]) == p.position
  {
    TotalsSnoc([], p, true);
    assert [] + [p] == [p];
    var m := p.mass;
    assert (p.position.x * m) / m == p.position.x;
    assert (p.position.y * m) / m == p.position.y;
  }

  /** Without any positive mass the centre of mass is the origin. */
  lemma {:induction false} CenterOfMassWithoutPositiveMass(ps: seq<Planet>)
    requires forall i :: 0 <= i < |ps| ==> ps[i].mass <= 0.0
    ensures CenterOfMass(ps) == Zero()
  {
    assert forall i :: 0 <= i < |ps| ==> Weights(ps, true)[i] == 0.0;
    ZeroSum(Weights(ps, true));
  }

  lemma {:induction false} ZeroSum(ws: seq<real>)
    requires forall i :: 0 <= i < |ws| ==> ws[i] == 0.0
    ensures Sum(ws) == 0.0
  {
    if ws != [] {
      ZeroSum(ws[..|ws| - 1]);
    }
  }

  /** `v` lies in the axis-aligned box from `lo` to `hi`. */
  predicate InBox(v: Vector2, lo: Vector2, hi: Vector2)
  {
    lo.x <= v.x <= hi.x && lo.y <= v.y <= hi.y
  }

  /** The weighted mean of bodies whose positively weighted members lie in a
      box lies in that box. */
  lemma WeightedMeanInBox(ps: seq<Planet>, positiveOnly: bool, lo: Vector2, hi: Vector2)
    requires forall i :: 0 <= i < |ps| ==> Weight(ps[i], positiveOnly) >= 0.0
    requires forall i :: 0 <= i < |ps| && Weight(ps[i], positiveOnly) > 0.0 ==> InBox(ps[i].position, lo, hi)
    requires TotalMass(ps, positiveOnly) > 0.0
    ensures InBox(Div(TotalMoment(ps, positiveOnly), TotalMass(ps, positiveOnly)), lo, hi)
  {
    var ws := Weights(ps, positiveOnly);
    assert WeightedWithin(Xs(ps), ws, lo.x, hi.x);
    assert WeightedWithin(Ys(ps), ws, lo.y, hi.y);
    MeanAbove(Xs(ps), ws, lo.x, hi.x);
    MeanBelow(Xs(ps), ws, lo.x, hi.x);
    MeanAbove(Ys(ps), ws, lo.y, hi.y);
    MeanBelow(Ys(ps), ws, lo.y, hi.y);
  }

  /** The centre of mass of bodies whose positive-mass members all lie in a
      box lies in that box: it is a convex combination of their positions. */
  lemma CenterOfMassInBox(ps: seq<Planet>, lo: Vector2, hi: Vector2)
    requires forall i :: 0 <= i < |ps| && ps[i].mass > 0.0 ==> InBox(ps[i].position, lo, hi)
    requires TotalMass(ps, true) > 0.0
    ensures InBox(CenterOfMass(ps), lo, hi)
  {
    WeightedMeanInBox(ps, true, lo, hi);
  }

  // ----- median-distance inlier filter -------------------------------------

  ghost predicate Sorted(s: seq<real>)
  {
    forall i, j :: 0 <= i < j < |s| ==> s[i] <= s[j]
  }

  /** Inserts `x` in front of the first element not below it. */
  function Insert(x: real, s: seq<real>): (r: seq<real>)
    ensures |r| == |s| + 1
    ensures forall i :: 0 <= i < |r| ==> r[i] == x || r[i] in s
    ensures Sorted(s) ==> Sorted(r)
  {
    if s == [] || x <= s[0] then [x] + s else [s[0]] + Insert(x, s[1..])
  }

  /** An ascending copy; its middle element is what `std::nth_element`
      places at the middle position. */
  function SortedCopy(s: seq<real>): (r: seq<real>)
    ensures |r| == |s| && Sorted(r)
  {
    if s == [] then [] else Insert(s[0], SortedCopy(s[1..]))
  }

  /** Inserting adds exactly `x` and keeps every entry of `s`. */
  lemma {:induction false} InsertAddsOne(x: real, s: seq<real>)
    ensures multiset(Insert(x, s)) == multiset(s) + multiset{x}
  {
    if s != [] && s[0] < x {
      InsertAddsOne(x, s[1..]);
      assert s == [s[0]] + s[1..];
    }
  }

  /** Putting `x` into a permutation of `rest` gives a permutation of `[x] + rest`. */
  lemma PermutationStep(x: real, rest: seq<real>, sortedRest: seq<real>, whole: seq<real>)
    requires multiset(sortedRest) == multiset(rest)
    requires multiset(whole) == multiset(sortedRest) + multiset{x}
    ensures multiset(whole) == multiset([x] + rest)
  {
  }

  /** The sorted copy is a permutation of the distances. */
  lemma {:induction false} SortedCopyIsPermutation(s: seq<real>)
    ensures multiset(SortedCopy(s)) == multiset(s)
  {
    if s != [] {
      SortedCopyIsPermutation(s[1..]);
      InsertAddsOne(s[0], SortedCopy(s[1..]));
      PermutationStep(s[0], s[1..], SortedCopy(s[1..]), SortedCopy(s));
      assert s == [s[0]] + s[1..];
    }
  }

  /** How many entries are at most `m`. */
  function CountAtMost(s: seq<real>, m: real): nat
  {
    if s == [] then 0 else CountAtMost(s[..|s| - 1], m) + (if s[|s| - 1] <= m then 1 else 0)
  }

  lemma {:induction false} CountConcat(a: seq<real>, b: seq<real>, m: real)
    ensures CountAtMost(a + b, m) == CountAtMost(a, m) + CountAtMost(b, m)
    decreases |b|
  {
    if b == [] {
      assert a + b == a;
    } else {
      var n := |b| - 1;
      CountConcat(a, b[..n], m);
      assert (a + b)[..|a + b| - 1] == a + b[..n];
    }
  }

  lemma {:induction false} CountInsert(x: real, s: seq<real>, m: real)
    ensures CountAtMost(Insert(x, s), m) == CountAtMost([x], m) + CountAtMost(s, m)
    decreases |s|
  {
    if s == [] || x <= s[0] {
      CountConcat([x], s, m);
    } else {
      CountInsert(x, s[1..], m);
      CountConcat([s[0]], Insert(x, s[1..]), m);
      assert s == [s[0]] + s[1..];
      CountConcat([s[0]], s[1..], m);
    }
  }

  /** Sorting does not change how many entries lie at or below a bound. */
  lemma {:induction false} CountSortedCopy(s: seq<real>, m: real)
    ensures CountAtMost(SortedCopy(s), m) == CountAtMost(s, m)
    decreases |s|
  {
    if s != [] {
      CountSortedCopy(s[1..], m);
      CountInsert(s[0], SortedCopy(s[1..]), m);
      assert s == [s[0]] + s[1..];
      CountConcat([s[0]], s[1..], m);
    }
  }

  lemma {:induction false} CountAllAtMost(s: seq<real>, m: real)
    requires forall i :: 0 <= i < |s| ==> s[i] <= m
    ensures CountAtMost(s, m) == |s|
  {
    if s != [] {
      CountAllAtMost(s[..|s| - 1], m);
    }
  }

  /** In an ascending sequence at least `k + 1` entries are at most `t[k]`. */
  lemma CountRank(t: seq<real>, k: nat)
    requires Sorted(t) && k < |t|
    ensures CountAtMost(t, t[k]) >= k + 1
  {
    var m := t[k];
    var pre, post := t[..k + 1], t[k + 1..];
    assert t == pre + post;
    CountConcat(pre, post, m);
    forall i | 0 <= i < |pre|
      ensures pre[i] <= m
    {
      assert pre[i] == t[i];
    }
    CountAllAtMost(pre, m);
  }

  lemma {:induction false} CountMonotone(s: seq<real>, m: real, m': real)
    requires m <= m'
    ensures CountAtMost(s, m) <= CountAtMost(s, m')
  {
    if s != [] {
      CountMonotone(s[..|s| - 1], m, m');
    }
  }

  /** The indices, in increasing order, of the entries at most `thr`. */
  function IndicesWithin(d: seq<real>, thr: real): seq<nat>
  {
    if d == [] then []
    else IndicesWithin(d[..|d| - 1], thr) + (if d[|d| - 1] <= thr then [|d| - 1] else [])
  }

  /** One index per entry at most `thr`. */
  lemma {:induction false} IndicesWithinCounts(d: seq<real>, thr: real)
    ensures |IndicesWithin(d, thr)| == CountAtMost(d, thr)
  {
    if d != [] {
      IndicesWithinCounts(d[..|d| - 1], thr);
    }
  }

  /** Every selected index is a valid index of an entry at most `thr`, and
      the indices strictly increase. */
  lemma {:induction false} IndicesWithinSound(d: seq<real>, thr: real)
    ensures forall k :: 0 <= k < |IndicesWithin(d, thr)| ==>
      IndicesWithin(d, thr)[k] < |d| && d[IndicesWithin(d, thr)[k]] <= thr
    ensures forall a, b :: 0 <= a < b < |IndicesWithin(d, thr)| ==>
      IndicesWithin(d, thr)[a] < IndicesWithin(d, thr)[b]
  {
    if d != [] {
      var n := |d| - 1;
      var init := d[..n];
      IndicesWithinSound(init, thr);
      var r := IndicesWithin(d, thr);
      var r' := IndicesWithin(init, thr);
      assert r == r' + (if d[n] <= thr then [n] else []);
      forall k | 0 <= k < |r'|
        ensures r[k] == r'[k] && r[k] < n && d[r[k]] <= thr
      {
        assert init[r'[k]] == d[r'[k]];
      }
    }
  }

  /** Every entry at most `thr` has its index selected. */
  lemma {:induction false} IndicesWithinComplete(d: seq<real>, thr: real)
    ensures forall i :: 0 <= i < |d| && d[i] <= thr ==> i in IndicesWithin(d, thr)
  {
    if d != [] {
      var n := |d| - 1;
      var init := d[..n];
      IndicesWithinComplete(init, thr);
      var r := IndicesWithin(d, thr);
      var r' := IndicesWithin(init, thr);
      assert r == r' + (if d[n] <= thr then [n] else []);
      forall i | 0 <= i < |d| && d[i] <= thr
        ensures i in r
      {
        if i < n {
          assert init[i] == d[i];
          assert i in r';
        }
      }
    }
  }

  /** `IndicesWithin` selects exactly the entries at most `thr`, in
      increasing index order, one per such entry. */
  lemma IndicesWithinSelects(d: seq<real>, thr: real)
    ensures var r := IndicesWithin(d, thr);
      |r| == CountAtMost(d, thr) &&
      (forall k :: 0 <= k < |r| ==> r[k] < |d| && d[r[k]] <= thr) &&
      (forall a, b :: 0 <= a < b < |r| ==> r[a] < r[b]) &&
      (forall i :: 0 <= i < |d| && d[i] <= thr ==> i in r)
  {
    IndicesWithinCounts(d, thr);
    IndicesWithinSound(d, thr);
    IndicesWithinComplete(d, thr);
  }

  /** Distance of every body to `c`, as measured by `length`. */
  function Distances(ps: seq<Planet>, c: Vector2, length: Vector2 -> real): (r: seq<real>)
    ensures |r| == |ps|
  {
    seq(|ps|, i requires 0 <= i < |ps| => length(Sub(ps[i].position, c)))
  }

  /** The preliminary centre of `computeInliers`: all bodies, any mass, the
      origin unless the total mass is positive. */
  function AllBodyCenter(ps: seq<Planet>): Vector2
  {
    if TotalMass(ps, false) > 0.0 then Div(TotalMoment(ps, false), TotalMass(ps, false)) else Zero()
  }

  /** Element `|d| / 2` of the ascending order. */
  function Median(d: seq<real>): real
    requires d != []
  {
    SortedCopy(d)[|d| / 2]
  }

  /** `outlierMultiplier` times the median, the median floored to 1e-4 when
      it is not positive. */
  function InlierThreshold(d: seq<real>, multiplier: real): real
    requires d != []
  {
    var median := if Median(d) <= 0.0 then 0.0001 else Median(d);
    multiplier * median
  }

  /** `computeInliers`: the indices of the bodies within the threshold
      distance of the preliminary centre. */
  function Inliers(ps: seq<Planet>, multiplier: real, length: Vector2 -> real): seq<nat>
  {
    if ps == [] then []
    else
      var d := Distances(ps, AllBodyCenter(ps), length);
      IndicesWithin(d, InlierThreshold(d, multiplier))
  }

  /** The inliers are strictly increasing valid indices, and an index is an
      inlier exactly when its distance is within the threshold. */
  lemma InliersAreTheCloseBodies(ps: seq<Planet>, multiplier: real, length: Vector2 -> real)
    ensures ps == [] ==> Inliers(ps, multiplier, length) == []
    ensures var r := Inliers(ps, multiplier, length);
      (forall a, b :: 0 <= a < b < |r| ==> r[a] < r[b]) &&
      (forall k :: 0 <= k < |r| ==> r[k] < |ps|)
    ensures ps != [] ==>
      var d := Distances(ps, AllBodyCenter(ps), length);
      forall i :: 0 <= i < |ps| ==> (i in Inliers(ps, multiplier, length) <==> d[i] <= InlierThreshold(d, multiplier))
  {
    if ps != [] {
      var d := Distances(ps, AllBodyCenter(ps), length);
      IndicesWithinSelects(d, InlierThreshold(d, multiplier));
    }
  }

  /** With a multiplier of at least 1 the threshold is at least the median. */
  lemma ThresholdAtLeastMedian(d: seq<real>, multiplier: real)
    requires d != [] && multiplier >= 1.0
    ensures Median(d) <= InlierThreshold(d, multiplier)
  {
    var median := if Median(d) <= 0.0 then 0.0001 else Median(d);
    MulMonotone(1.0, multiplier, median);
  }

  /** With a multiplier of at least 1, every body no farther than the median
      distance is an inlier. */
  lemma MedianCloseBodiesAreInliers(ps: seq<Planet>, multiplier: real, length: Vector2 -> real, i: nat)
    requires multiplier >= 1.0 && i < |ps|
    requires Distances(ps, AllBodyCenter(ps), length)[i] <= Median(Distances(ps, AllBodyCenter(ps), length))
    ensures i in Inliers(ps, multiplier, length)
  {
    var d := Distances(ps, AllBodyCenter(ps), length);
    ThresholdAtLeastMedian(d, multiplier);
    IndicesWithinSelects(d, InlierThreshold(d, multiplier));
  }

  /** With a multiplier of at least 1, more than half of the bodies are
      inliers; in particular the inlier list is never empty. */
  lemma InliersAreMajority(ps: seq<Planet>, multiplier: real, length: Vector2 -> real)
    requires multiplier >= 1.0 && ps != []
    ensures |Inliers(ps, multiplier, length)| >= |ps| / 2 + 1
  {
    var d := Distances(ps, AllBodyCenter(ps), length);
    var thr := InlierThreshold(d, multiplier);
    IndicesWithinSelects(d, thr);
    ThresholdAtLeastMedian(d, multiplier);
    CountMonotone(d, Median(d), thr);
    CountSortedCopy(d, Median(d));
    CountRank(SortedCopy(d), |d| / 2);
  }

  // ----- bounding box and zoom ---------------------------------------------

  /** `std::numeric_limits<float>::max()`. */
  const FloatMax: real := 340282346638528859811704183484516925440.0

  datatype Box = Box(minX: real, maxX: real, minY: real, maxY: real)

  /** The starting box: `max()` minima and `lowest()` maxima. */
  const EmptyBox: Box := Box(FloatMax, -FloatMax, FloatMax, -FloatMax)

  /** Grows the box by the body's disc (position plus and minus radius). */
  function Extend(b: Box, p: Planet): Box
  {
    Box(Min(b.minX, p.position.x - p.radius), Max(b.maxX, p.position.x + p.radius),
        Min(b.minY, p.position.y - p.radius), Max(b.maxY, p.position.y + p.radius))
  }

  /** The box accumulated over the bodies in order. */
  function BoxOf(ps: seq<Planet>): Box
  {
    if ps == [] then EmptyBox else Extend(BoxOf(ps[..|ps| - 1]), ps[|ps| - 1])
  }

  /** The box encloses every body's disc. */
  lemma {:induction false} BoxEnclosesBodies(ps: seq<Planet>)
    ensures forall i :: 0 <= i < |ps| ==>
      BoxOf(ps).minX <= ps[i].position.x - ps[i].radius && ps[i].position.x + ps[i].radius <= BoxOf(ps).maxX &&
      BoxOf(ps).minY <= ps[i].position.y - ps[i].radius && ps[i].position.y + ps[i].radius <= BoxOf(ps).maxY
  {
    if ps != [] {
      BoxEnclosesBodies(ps[..|ps| - 1]);
      assert forall i :: 0 <= i < |ps| - 1 ==> ps[..|ps| - 1][i] == ps[i];
    }
  }

  /** The bodies at the given indices, in index order. */
  function Select(ps: seq<Planet>, idx: seq<nat>): (r: seq<Planet>)
    requires forall k :: 0 <= k < |idx| ==> idx[k] < |ps|
    ensures |r| == |idx|
  {
    seq(|idx|, k requires 0 <= k < |idx| => ps[idx[k]])
  }

  /** Width or height padded by 20% and floored at 1e-4. */
  function Padded(extent: real): real
  {
    Max(extent * 1.2, 0.0001)
  }

  /** The zoom fitting the padded box into the window span of 2, clamped. */
  function FitZoom(b: Box): real
  {
    Clamp(Min(2.0 / Padded(b.maxX - b.minX), 2.0 / Padded(b.maxY - b.minY)), 0.0005, 100.0)
  }

  /** The bodies `computeOptimalZoom` frames: the inliers, or every body
      when there are none. */
  function FramedBodies(ps: seq<Planet>, multiplier: real, length: Vector2 -> real): seq<Planet>
  {
    var inliers := Inliers(ps, multiplier, length);
    InliersAreTheCloseBodies(ps, multiplier, length);
    if inliers == [] then ps else Select(ps, inliers)
  }

  /** `computeOptimalZoom`: 1 for no bodies, otherwise the zoom that fits
      the framed bodies' box. */
  function OptimalZoom(ps: seq<Planet>, multiplier: real, length: Vector2 -> real): (r: real)
    ensures 0.0005 <= r <= 100.0
  {
    if ps == [] then 1.0 else FitZoom(BoxOf(FramedBodies(ps, multiplier, length)))
  }

  /** The fitted zoom is as large as possible: unless clamped, it makes the
      tighter side span the whole window, and unless clamped from below,
      neither padded side exceeds the window. */
  lemma FitZoomFitsTheBox(b: Box)
    ensures var w, h := Padded(b.maxX - b.minX), Padded(b.maxY - b.minY);
      var z := FitZoom(b);
      w > 0.0 && h > 0.0 &&
      (z > 0.0005 ==> z <= 2.0 / w && z <= 2.0 / h) &&
      (0.0005 < z < 100.0 ==> z == 2.0 / w || z == 2.0 / h)
  {
  }

  /** With a multiplier of at least 1 there are inliers, and the framed
      bodies are exactly the inliers. */
  lemma FramedBodiesAreInliers(ps: seq<Planet>, multiplier: real, length: Vector2 -> real)
    requires multiplier >= 1.0 && ps != []
    ensures Inliers(ps, multiplier, length) != []
    ensures forall k :: 0 <= k < |Inliers(ps, multiplier, length)| ==> Inliers(ps, multiplier, length)[k] < |ps|
    ensures FramedBodies(ps, multiplier, length) == Select(ps, Inliers(ps, multiplier, length))
  {
    InliersAreMajority(ps, multiplier, length);
    InliersAreTheCloseBodies(ps, multiplier, length);
  }

  // ----- camera target ------------------------------------------------------

  /** The target `update` aims at: the followed body when the index is in
      range; otherwise the mass-weighted centre of the inliers (any mass)
      when their total mass is positive, and the centre of mass otherwise. */
  function FollowTarget(ps: seq<Planet>, followed: int, multiplier: real, length: Vector2 -> real): Vector2
  {
    if 0 <= followed < |ps| then ps[followed].position
    else
      var inliers := Inliers(ps, multiplier, length);
      InliersAreTheCloseBodies(ps, multiplier, length);
      var chosen := Select(ps, inliers);
      if inliers != [] && TotalMass(chosen, false) > 0.0
      then Div(TotalMoment(chosen, false), TotalMass(chosen, false))
      else CenterOfMass(ps)
  }

  lemma {:induction false} SumOfPositives(ws: seq<real>)
    requires forall i :: 0 <= i < |ws| ==> ws[i] > 0.0
    ensures Sum(ws) >= 0.0
    ensures ws != [] ==> Sum(ws) > 0.0
  {
    if ws != [] {
      SumOfPositives(ws[..|ws| - 1]);
    }
  }

  /** When no body is followed and all masses are positive, the target is
      the mass-weighted centre of the inliers, so it lies in every box that
      contains the inliers' positions. */
  lemma TargetLiesAmongInliers(ps: seq<Planet>, followed: int, multiplier: real, length: Vector2 -> real,
                               lo: Vector2, hi: Vector2)
    requires ps != [] && !(0 <= followed < |ps|) && multiplier >= 1.0
    requires forall i :: 0 <= i < |ps| ==> ps[i].mass > 0.0
    requires forall i :: 0 <= i < |ps| && i in Inliers(ps, multiplier, length) ==> InBox(ps[i].position, lo, hi)
    ensures InBox(FollowTarget(ps, followed, multiplier, length), lo, hi)
  {
    var inliers := Inliers(ps, multiplier, length);
    FramedBodiesAreInliers(ps, multiplier, length);
    var chosen := Select(ps, inliers);
    forall k | 0 <= k < |chosen|
      ensures Weight(chosen[k], false) > 0.0 && InBox(chosen[k].position, lo, hi)
    {
      assert chosen[k] == ps[inliers[k]];
      assert inliers[k] in inliers;
    }
    assert forall k :: 0 <= k < |chosen| ==> Weights(chosen, false)[k] > 0.0;
    SumOfPositives(Weights(chosen, false));
    WeightedMeanInBox(chosen, false, lo, hi);
  }
}
