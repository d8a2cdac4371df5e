/** The `Simulation` of src-tauri/src/lib.rs: its bodies, its canvas bounds,
    and one step of `update_simulation` (all pairs, then integration and
    boundary reflection). */
module Engine {
  import opened Bodies
  import opened Pairs
  import opened Interaction

  datatype Simulation = Simulation(bodies: seq<Body>, canvasWidth: real, canvasHeight: real)

  /** `Simulation::new`: no bodies, an 800 by 600 canvas. */
  function NewSimulation(): (s: Simulation)
    ensures s.bodies == []
    ensures s.canvasWidth == 800.0 && s.canvasHeight == 600.0
  {
    Simulation([], 800.0, 600.0)
  }

  /** `update_canvas_size`: replaces the two bounds and nothing else; bodies
      are neither moved nor validated against the new bounds. */
  function UpdateCanvasSize(s: Simulation, width: real, height: real): (r: Simulation)
    ensures r.bodies == s.bodies
    ensures r.canvasWidth == width && r.canvasHeight == height
  {
    s.(canvasWidth := width, canvasHeight := height)
  }

  /** Only the last resize counts. */
  lemma UpdateCanvasSizeLastWins(s: Simulation, w1: real, h1: real, w2: real, h2: real)
    ensures UpdateCanvasSize(UpdateCanvasSize(s, w1, h1), w2, h2) == UpdateCanvasSize(s, w2, h2)
  {
  }

  /** Every pair `a < b` the loops can visit has its divisions defined. */
  predicate PairsDefined(bs: seq<Body>, dd: real, m: Maths) {
    forall a, b :: 0 <= a < b < |bs| ==> PairDefined(bs[a], bs[b], dd, m)
  }

  /** `PairsDefined` reads only masses and radii, so bodies that keep their
      identity keep it. */
  lemma PairsDefinedKept(bs: seq<Body>, r: seq<Body>, dd: real, m: Maths)
    requires PairsDefined(bs, dd, m) && |r| == |bs|
    requires forall k :: 0 <= k < |bs| ==> SameIdentity(bs[k], r[k])
    ensures PairsDefined(r, dd, m)
  {
    forall a, b | 0 <= a < b < |r|
      ensures PairDefined(r[a], r[b], dd, m)
    {
      assert PairDefined(bs[a], bs[b], dd, m);
      assert SameIdentity(bs[a], r[a]) && SameIdentity(bs[b], r[b]);
    }
  }

  /** The bodies after visiting the pairs `ps` in order. Bodies keep their
      identity, mass and radius throughout, so the divisions stay defined. */
  function PairPhase(bs: seq<Body>, ps: seq<Pair>, dd: real, m: Maths): (r: seq<Body>)
    requires InRange(ps, |bs|) && PairsDefined(bs, dd, m)
    ensures |r| == |bs|
    ensures forall k :: 0 <= k < |bs| ==> SameIdentity(bs[k], r[k])
    ensures PairsDefined(r, dd, m)
    decreases |ps|
  {
    if ps == [] then
      bs
    else
      var next := PairStep(bs, ps[0].0, ps[0].1, dd, m);
      PairsDefinedKept(bs, next, dd, m);
      PairPhase(next, ps[1..], dd, m)
  }

  /** Visiting one more pair after `ps` is one more `PairStep`. */
  lemma {:induction false} PairPhaseSnoc(bs: seq<Body>, ps: seq<Pair>, p: Pair, dd: real, m: Maths)
    requires InRange(ps, |bs|) && 0 <= p.0 < p.1 < |bs|
    requires PairsDefined(bs, dd, m)
    ensures InRange(ps + [p], |bs|)
    ensures PairPhase(bs, ps + [p], dd, m) == PairStep(PairPhase(bs, ps, dd, m), p.0, p.1, dd, m)
    decreases |ps|
  {
    if ps == [] {
      assert [] + [p] == [p];
    } else {
      var bs' := PairStep(bs, ps[0].0, ps[0].1, dd, m);
      assert (ps + [p])[1..] == ps[1..] + [p];
      assert forall q :: 0 <= q < |ps[1..]| ==> ps[1..][q] == ps[q + 1];
      PairPhaseSnoc(bs', ps[1..], p, dd, m);
    }
  }

  /** Visiting `ps` and then `qs` is visiting `ps + qs`. */
  lemma {:induction false} PairPhaseAppend(bs: seq<Body>, ps: seq<Pair>, qs: seq<Pair>, dd: real, m: Maths)
    requires InRange(ps, |bs|) && InRange(qs, |bs|) && PairsDefined(bs, dd, m)
    ensures InRange(ps + qs, |bs|)
    ensures PairPhase(bs, ps + qs, dd, m) == PairPhase(PairPhase(bs, ps, dd, m), qs, dd, m)
    decreases |ps|
  {
    if ps == [] {
      assert [] + qs == qs;
    } else {
      var next := PairStep(bs, ps[0].0, ps[0].1, dd, m);
      PairsDefinedKept(bs, next, dd, m);
      assert (ps + qs)[1..] == ps[1..] + qs;
      assert forall q :: 0 <= q < |ps[1..]| ==> ps[1..][q] == ps[q + 1];
      PairPhaseAppend(next, ps[1..], qs, dd, m);
    }
  }

  /** A body that no visited pair names is left exactly as it was. */
  lemma {:induction false} PairPhaseUntouched(bs: seq<Body>, ps: seq<Pair>, dd: real, m: Maths, k: int)
    requires InRange(ps, |bs|) && PairsDefined(bs, dd, m)
    requires 0 <= k < |bs|
    requires forall q :: 0 <= q < |ps| ==> ps[q].0 != k && ps[q].1 != k
    ensures PairPhase(bs, ps, dd, m)[k] == bs[k]
    decreases |ps|
  {
    if ps != [] {
      var bs' := PairStep(bs, ps[0].0, ps[0].1, dd, m);
      assert forall q :: 0 <= q < |ps[1..]| ==> ps[1..][q] == ps[q + 1];
      PairPhaseUntouched(bs', ps[1..], dd, m, k);
    }
  }

  /** The pair phase keeps the sum of all bodies' velocities on each axis:
      what the step conserves is the velocity sum, not momentum. */
  lemma {:induction false} PairPhaseKeepsVelocitySum(bs: seq<Body>, ps: seq<Pair>, dd: real, m: Maths)
    requires InRange(ps, |bs|) && PairsDefined(bs, dd, m)
    ensures SumOf(PairPhase(bs, ps, dd, m), VelocityX) == SumOf(bs, VelocityX)
    ensures SumOf(PairPhase(bs, ps, dd, m), VelocityY) == SumOf(bs, VelocityY)
    decreases |ps|
  {
    if ps != [] {
      var bs' := PairStep(bs, ps[0].0, ps[0].1, dd, m);
      PairStepKeepsVelocitySum(bs, ps[0].0, ps[0].1, dd, m);
      assert forall q :: 0 <= q < |ps[1..]| ==> ps[1..][q] == ps[q + 1];
      PairPhaseKeepsVelocitySum(bs', ps[1..], dd, m);
    }
  }

  /** `radius <= p <= limit - radius`: a centre coordinate keeps the whole
      body inside `[0, limit]`. */
  predicate Within(p: real, radius: real, limit: real) {
    radius <= p <= limit - radius
  }

  /** Reflection on one axis of an integrated coordinate `p` moving at `v`:
      a coordinate outside the band is clamped to the nearer edge it crossed
      and the velocity negated; one inside is left as it is. */
  function Reflect(p: real, v: real, radius: real, limit: real): (r: (real, real))
    ensures Within(p, radius, limit) ==> r == (p, v)
    ensures !Within(p, radius, limit) ==> r.1 == -v
    ensures p < radius ==> r.0 == radius
    ensures radius <= p && limit - radius < p ==> r.0 == limit - radius
    ensures 2.0 * radius <= limit ==> Within(r.0, radius, limit)
  {
    if p < radius then
      (radius, -v)
    else if p > limit - radius then
      (limit - radius, -v)
    else
      (p, v)
  }

  /** Integration and reflection of one body: position advances by the
      velocity, then each axis is reflected against the canvas. Only the
      position and the velocity change. */
  function Advance(b: Body, width: real, height: real): (r: Body)
    ensures r.(x := b.x, y := b.y, vx := b.vx, vy := b.vy) == b
    ensures Within(b.x + b.vx, b.radius, width) ==> r.x == b.x + b.vx && r.vx == b.vx
    ensures !Within(b.x + b.vx, b.radius, width) ==> r.vx == -b.vx
    ensures Within(b.y + b.vy, b.radius, height) ==> r.y == b.y + b.vy && r.vy == b.vy
    ensures !Within(b.y + b.vy, b.radius, height) ==> r.vy == -b.vy
    ensures 2.0 * b.radius <= width ==> Within(r.x, b.radius, width)
    ensures 2.0 * b.radius <= height ==> Within(r.y, b.radius, height)
  {
    var (x, vx) := Reflect(b.x + b.vx, b.vx, b.radius, width);
    var (y, vy) := Reflect(b.y + b.vy, b.vy, b.radius, height);
    b.(x := x, y := y, vx := vx, vy := vy)
  }

  /** The bodies after integrating and reflecting every one of them. */
  function AdvanceAll(bs: seq<Body>, width: real, height: real): (r: seq<Body>)
    ensures |r| == |bs|
    ensures forall k :: 0 <= k < |bs| ==> r[k] == Advance(bs[k], width, height)
  {
    seq(|bs|, k requires 0 <= k < |bs| => Advance(bs[k], width, height))
  }

  /** The body fits on the canvas at all: its diameter is at most each bound. */
  predicate Fits(b: Body, width: real, height: real) {
    2.0 * b.radius <= width && 2.0 * b.radius <= height
  }

  /** The inputs for which a step's divisions are defined. */
  predicate StepDefined(s: Simulation, dd: real, m: Maths) {
    PairsDefined(s.bodies, dd, m)
  }

  /** One step of `update_simulation`: every pair, then every body is
      integrated and reflected. The bounds are kept, every body keeps its
      identity, mass and radius, and every body that fits on the canvas ends
      inside it. */
  function Step(s: Simulation, dd: real, m: Maths): (r: Simulation)
    requires StepDefined(s, dd, m)
    ensures r.canvasWidth == s.canvasWidth && r.canvasHeight == s.canvasHeight
    ensures |r.bodies| == |s.bodies|
    ensures forall k :: 0 <= k < |s.bodies| ==> SameIdentity(s.bodies[k], r.bodies[k])
    ensures forall k :: 0 <= k < |r.bodies| && Fits(r.bodies[k], r.canvasWidth, r.canvasHeight) ==>
      Within(r.bodies[k].x, r.bodies[k].radius, r.canvasWidth) &&
      Within(r.bodies[k].y, r.bodies[k].radius, r.canvasHeight)
  {
    AllPairsExactlyOnce(|s.bodies|);
    var mid := PairPhase(s.bodies, AllPairs(|s.bodies|), dd, m);
    s.(bodies := AdvanceAll(mid, s.canvasWidth, s.canvasHeight))
  }

  /** A step of an empty simulation changes nothing. */
  lemma StepEmpty(s: Simulation, dd: real, m: Maths)
    requires s.bodies == []
    ensures Step(s, dd, m) == s
  {
    assert AllPairs(0) == [];
  }

  /** The inner loop of `update_simulation` for a fixed `i`: `j` runs over
      `i + 1..n`; a pair the gate fires on is skipped, any other takes the
      collision or the gravitation branch. The loop visits row `i`. */
  method VisitRow(cur: seq<Body>, i: nat, dd: real, m: Maths) returns (r: seq<Body>)
    requires PairsDefined(cur, dd, m) && i < |cur|
    ensures InRange(Row(i, |cur|), |cur|)
    ensures r == PairPhase(cur, Row(i, |cur|), dd, m)
  {
    var n := |cur|;
    r := cur;
    var j := i + 1;
    RowPrefix(i, j, n);
    while j < n
      invariant i + 1 <= j <= n
      invariant InRange(Row(i, n)[..j - i - 1], n)
      invariant r == PairPhase(cur, Row(i, n)[..j - i - 1], dd, m)
    {
      RowPrefix(i, j, n);
      PairPhaseSnoc(cur, Row(i, n)[..j - i - 1], (i, j), dd, m);
      ghost var before := r;
      var bi, bj := r[i], r[j];
      assert PairDefined(bi, bj, dd, m);
      if InAabb(bi, bj, dd) {
        j := j + 1;
        continue;
      }
      if Colliding(bi, bj, dd, m) {
        var p := Collide(bi, bj, dd, m);
        r := r[i := p.0][j := p.1];
      } else {
        var p := Gravitate(bi, bj, dd, m);
        r := r[i := p.0][j := p.1];
      }
      assert r == PairStep(before, i, j, dd, m);
      j := j + 1;
    }
    RowPrefix(i, j, n);
  }

  /** The two nested loops of `update_simulation`, `i` over `0..n` and `j`
      over `i + 1..n`: they visit the pairs in the order of `AllPairs`. */
  method VisitAllPairs(bs: seq<Body>, dd: real, m: Maths) returns (r: seq<Body>)
    requires PairsDefined(bs, dd, m)
    ensures InRange(AllPairs(|bs|), |bs|)
    ensures r == PairPhase(bs, AllPairs(|bs|), dd, m)
  {
    var n := |bs|;
    r := bs;
    var i := 0;
    while i < n
      invariant 0 <= i <= n
      invariant InRange(PairsBefore(i, n), n)
      invariant r == PairPhase(bs, PairsBefore(i, n), dd, m)
    {
      r := VisitRow(r, i, dd, m);
      PairPhaseAppend(bs, PairsBefore(i, n), Row(i, n), dd, m);
      i := i + 1;
    }
  }

  /** The final loop of `update_simulation`: integrate and reflect each body. */
  method AdvanceEach(bs: seq<Body>, width: real, height: real) returns (r: seq<Body>)
    ensures r == AdvanceAll(bs, width, height)
  {
    r := bs;
    var k := 0;
    while k < |bs|
      invariant 0 <= k <= |bs| && |r| == |bs|
      invariant forall q :: 0 <= q < k ==> r[q] == Advance(bs[q], width, height)
      invariant forall q :: k <= q < |bs| ==> r[q] == bs[q]
    {
      r := r[k := Advance(r[k], width, height)];
      k := k + 1;
    }
  }

  /** `update_simulation` with its loops: all pairs first, then one pass
      integrating and reflecting every body. It computes `Step`. */
  method UpdateSimulation(s: Simulation, dd: real, m: Maths) returns (r: Simulation)
    requires StepDefined(s, dd, m)
    ensures r == Step(s, dd, m)
  {
    var mid := VisitAllPairs(s.bodies, dd, m);
    var bodies := AdvanceEach(mid, s.canvasWidth, s.canvasHeight);
    r := s.(bodies := bodies);
  }
}
