/** What one visited pair `(i, j)` does to the bodies in `update_simulation`
    (src-tauri/src/lib.rs): the `in_aabb` skip, the collision branch that
    makes one body the centre of an orbit, and the gravitation branch. */
module Interaction {
  import opened Bodies

  /** Angle, in radians, a satellite advances each time its pair collides. */
  const AngleStep: real := 0.05

  /** The centre distance `dist`, through the supplied square root. */
  function Dist(a: Body, b: Body, m: Maths): real {
    m.sqrt(DistSq(a, b))
  }

  /** The distance below which a pair collides; also the orbit radius. */
  function ContactDistance(a: Body, b: Body, dd: real): real {
    a.radius + b.radius + dd
  }

  /** The test choosing the collision branch. */
  predicate Colliding(a: Body, b: Body, dd: real, m: Maths) {
    Dist(a, b, m) < ContactDistance(a, b, dd)
  }

  /** `after` is `before` made the centre of an orbit of radius `orbitRadius`:
      nothing but `isCenter` and `orbitRadius` differs. */
  predicate BecomesCentre(before: Body, after: Body, orbitRadius: real) {
    && after.isCenter
    && after.orbitRadius == orbitRadius
    && after.(isCenter := before.isCenter, orbitRadius := before.orbitRadius) == before
  }

  /** `after` is `before` moved onto the circle of radius `centre.orbitRadius`
      about `centre`, its angle advanced by one step; its velocity, its
      `isCenter` flag and everything else other than angle and position are
      unchanged. */
  predicate BecomesSatellite(before: Body, after: Body, centre: Body, m: Maths) {
    && after.angle == before.angle + AngleStep
    && after.x == centre.x + centre.orbitRadius * m.cos(after.angle)
    && after.y == centre.y + centre.orbitRadius * m.sin(after.angle)
    && after.(angle := before.angle, x := before.x, y := before.y) == before
  }

  /** The collision branch. The body with the larger or equal radius, `bi`
      on a tie, becomes the centre; the other is repositioned as its
      satellite. */
  function Collide(bi: Body, bj: Body, dd: real, m: Maths): (r: (Body, Body))
    ensures bi.radius >= bj.radius ==>
      BecomesCentre(bi, r.0, ContactDistance(bi, bj, dd)) && BecomesSatellite(bj, r.1, r.0, m)
    ensures bi.radius < bj.radius ==>
      BecomesCentre(bj, r.1, ContactDistance(bi, bj, dd)) && BecomesSatellite(bi, r.0, r.1, m)
  {
    var orbitRadius := bi.radius + bj.radius + dd;
    if bi.radius >= bj.radius then
      var centre := bi.(isCenter := true, orbitRadius := orbitRadius);
      var angle := bj.angle + AngleStep;
      (centre, bj.(angle := angle,
                   x := centre.x + centre.orbitRadius * m.cos(angle),
                   y := centre.y + centre.orbitRadius * m.sin(angle)))
    else
      var centre := bj.(isCenter := true, orbitRadius := orbitRadius);
      var angle := bi.angle + AngleStep;
      (bi.(angle := angle,
           x := centre.x + centre.orbitRadius * m.cos(angle),
           y := centre.y + centre.orbitRadius * m.sin(angle)), centre)
  }

  /** What the gravitation branch needs so that none of its divisions is by
      zero: `bi`'s mass, which `ax` and `ay` are divided by, is non-zero, and
      the contact distance is positive, so that a pair that does not collide
      is at a positive `dist`. `bj`'s mass only multiplies. */
  predicate PairDefined(bi: Body, bj: Body, dd: real, m: Maths) {
    bi.mass != 0.0 && ContactDistance(bi, bj, dd) > 0.0 && m.Valid()
  }

  /** In the gravitation branch both divisors `dist_sq` and `dist` are
      positive: `dist` is at least the positive contact distance, and
      `dist_sq` cannot be zero because the square root of zero is zero, which
      would have collided. */
  lemma GravitationDefined(bi: Body, bj: Body, dd: real, m: Maths)
    requires PairDefined(bi, bj, dd, m) && !Colliding(bi, bj, dd, m)
    ensures DistSq(bi, bj) > 0.0
    ensures Dist(bi, bj, m) > 0.0
  {
    DistSqProperties(bi, bj);
  }

  /** The velocity change the gravitation branch gives `bi` along an axis on
      which `bj` lies `delta` ahead (`ax` for `delta == dx`, `ay` for
      `delta == dy`): the force divided by `dist` and by `bi`'s mass. */
  function Pull(bi: Body, bj: Body, delta: real, dd: real, m: Maths): real
    requires PairDefined(bi, bj, dd, m) && !Colliding(bi, bj, dd, m)
  {
    GravitationDefined(bi, bj, dd, m);
    var force := G * bi.mass * bj.mass / DistSq(bi, bj);
    force * delta / Dist(bi, bj, m) / bi.mass
  }

  /** The gravitation branch: both `isCenter` flags are cleared, `bi` gains
      the pull and `bj` loses exactly the same amount, so the velocity sum of
      the pair is kept; positions, angles and orbit radii are left alone. */
  function Gravitate(bi: Body, bj: Body, dd: real, m: Maths): (r: (Body, Body))
    requires PairDefined(bi, bj, dd, m) && !Colliding(bi, bj, dd, m)
    ensures !r.0.isCenter && !r.1.isCenter
    ensures r.0.vx + r.1.vx == bi.vx + bj.vx
    ensures r.0.vy + r.1.vy == bi.vy + bj.vy
    ensures r.0.(isCenter := bi.isCenter, vx := bi.vx, vy := bi.vy) == bi
    ensures r.1.(isCenter := bj.isCenter, vx := bj.vx, vy := bj.vy) == bj
  {
    var ax := Pull(bi, bj, bj.x - bi.x, dd, m);
    var ay := Pull(bi, bj, bj.y - bi.y, dd, m);
    (bi.(isCenter := false, vx := bi.vx + ax, vy := bi.vy + ay),
     bj.(isCenter := false, vx := bj.vx - ax, vy := bj.vy - ay))
  }

  lemma PositiveProduct(a: real, b: real)
    requires a > 0.0 && b > 0.0
    ensures a * b > 0.0
  {
  }

  lemma PositiveQuotient(a: real, b: real)
    requires a > 0.0 && b > 0.0
    ensures a / b > 0.0
  {
  }

  /** Multiplying or dividing by a positive factor keeps the sign. */
  lemma ScaleSign(x: real, k: real)
    requires k > 0.0
    ensures x > 0.0 ==> x * k > 0.0 && x / k > 0.0
    ensures x < 0.0 ==> x * k < 0.0 && x / k < 0.0
    ensures x == 0.0 ==> x * k == 0.0 && x / k == 0.0
  {
    if x > 0.0 {
      PositiveProduct(x, k);
      PositiveQuotient(x, k);
    } else if x < 0.0 {
      PositiveProduct(-x, k);
      PositiveQuotient(-x, k);
      assert x * k == -((-x) * k);
      assert x / k == -((-x) / k);
    }
  }

  /** Gravity attracts: the pull on `bi` along an axis has the sign of the
      displacement of `bj` along that axis, and is zero when `bj` is level
      with `bi` on it. */
  lemma PullAttracts(bi: Body, bj: Body, delta: real, dd: real, m: Maths)
    requires PairDefined(bi, bj, dd, m) && !Colliding(bi, bj, dd, m)
    requires bi.mass > 0.0 && bj.mass > 0.0
    ensures delta > 0.0 ==> Pull(bi, bj, delta, dd, m) > 0.0
    ensures delta < 0.0 ==> Pull(bi, bj, delta, dd, m) < 0.0
    ensures delta == 0.0 ==> Pull(bi, bj, delta, dd, m) == 0.0
  {
    GravitationDefined(bi, bj, dd, m);
    PositiveProduct(G, bi.mass);
    PositiveProduct(G * bi.mass, bj.mass);
    PositiveQuotient(G * bi.mass * bj.mass, DistSq(bi, bj));
    var force := G * bi.mass * bj.mass / DistSq(bi, bj);
    ScaleSign(delta, force);
    assert force * delta == delta * force;
    ScaleSign(force * delta, Dist(bi, bj, m));
    ScaleSign(force * delta / Dist(bi, bj, m), bi.mass);
  }

  /** The reaction on `bj` is the negated pull on `bi`, not weighted by the
      masses: momentum along x is kept exactly when the two masses are equal
      or the two centres are level in x. */
  lemma GravitationMomentum(bi: Body, bj: Body, dd: real, m: Maths)
    requires PairDefined(bi, bj, dd, m) && !Colliding(bi, bj, dd, m)
    requires bj.mass != 0.0
    ensures var r := Gravitate(bi, bj, dd, m);
      (bi.mass * r.0.vx + bj.mass * r.1.vx == bi.mass * bi.vx + bj.mass * bj.vx)
        <==> (bi.mass == bj.mass || bi.x == bj.x)
  {
    var ax := Pull(bi, bj, bj.x - bi.x, dd, m);
    PullZero(bi, bj, bj.x - bi.x, dd, m);
    MomentumChange(bi.mass, bj.mass, bi.vx, bj.vx, ax);
    ProductZero(bi.mass - bj.mass, ax);
  }

  /** With both masses non-zero, the pull along an axis vanishes exactly
      when the two centres are level on that axis. */
  lemma PullZero(bi: Body, bj: Body, delta: real, dd: real, m: Maths)
    requires PairDefined(bi, bj, dd, m) && !Colliding(bi, bj, dd, m)
    requires bj.mass != 0.0
    ensures Pull(bi, bj, delta, dd, m) == 0.0 <==> delta == 0.0
  {
    GravitationDefined(bi, bj, dd, m);
    ProductZero(G, bi.mass);
    ProductZero(G * bi.mass, bj.mass);
    var force := G * bi.mass * bj.mass / DistSq(bi, bj);
    QuotientZero(G * bi.mass * bj.mass, DistSq(bi, bj));
    ProductZero(force, delta);
    QuotientZero(force * delta, Dist(bi, bj, m));
    QuotientZero(force * delta / Dist(bi, bj, m), bi.mass);
  }

  lemma QuotientZero(x: real, k: real)
    requires k != 0.0
    ensures x / k == 0.0 <==> x == 0.0
  {
    if k > 0.0 {
      ScaleSign(x, k);
    } else {
      ScaleSign(x, -k);
      assert x / k == -(x / (-k));
    }
  }

  lemma MomentumChange(mi: real, mj: real, vi: real, vj: real, a: real)
    ensures mi * (vi + a) + mj * (vj - a) == mi * vi + mj * vj + (mi - mj) * a
  {
  }

  lemma ProductZero(a: real, b: real)
    ensures a * b == 0.0 <==> a == 0.0 || b == 0.0
  {
    if a > 0.0 {
      ScaleSign(b, a);
      assert a * b == b * a;
    } else if a < 0.0 {
      ScaleSign(b, -a);
      assert a * b == -(b * (-a));
    }
  }

  /** One visited pair `(i, j)`: skipped when the gate fires, otherwise the
      collision or the gravitation branch. Only entries `i` and `j` change, and
      they keep their identity, mass and radius. */
  function PairStep(bs: seq<Body>, i: int, j: int, dd: real, m: Maths): (r: seq<Body>)
    requires 0 <= i < j < |bs|
    requires PairDefined(bs[i], bs[j], dd, m)
    ensures |r| == |bs|
    ensures forall k :: 0 <= k < |bs| && k != i && k != j ==> r[k] == bs[k]
    ensures SameIdentity(bs[i], r[i]) && SameIdentity(bs[j], r[j])
    ensures InAabb(bs[i], bs[j], dd) ==> r == bs
    ensures !InAabb(bs[i], bs[j], dd) && Colliding(bs[i], bs[j], dd, m) ==>
      (r[i], r[j]) == Collide(bs[i], bs[j], dd, m)
    ensures !InAabb(bs[i], bs[j], dd) && !Colliding(bs[i], bs[j], dd, m) ==>
      (r[i], r[j]) == Gravitate(bs[i], bs[j], dd, m)
  {
    var bi, bj := bs[i], bs[j];
    if InAabb(bi, bj, dd) then
      bs
    else
      var p := if Colliding(bi, bj, dd, m) then Collide(bi, bj, dd, m) else Gravitate(bi, bj, dd, m);
      bs[i := p.0][j := p.1]
  }

  /** A visited pair never changes the sums of the bodies' velocities: the
      collision branch touches no velocity and the gravitation branch moves
      velocity from one body of the pair to the other. */
  lemma PairStepKeepsVelocitySum(bs: seq<Body>, i: int, j: int, dd: real, m: Maths)
    requires 0 <= i < j < |bs|
    requires PairDefined(bs[i], bs[j], dd, m)
    ensures SumOf(PairStep(bs, i, j, dd, m), VelocityX) == SumOf(bs, VelocityX)
    ensures SumOf(PairStep(bs, i, j, dd, m), VelocityY) == SumOf(bs, VelocityY)
  {
    var bi, bj := bs[i], bs[j];
    if !InAabb(bi, bj, dd) {
      var p := if Colliding(bi, bj, dd, m) then Collide(bi, bj, dd, m) else Gravitate(bi, bj, dd, m);
      assert p.0.vx + p.1.vx == bi.vx + bj.vx && p.0.vy + p.1.vy == bi.vy + bj.vy;
      SumOfUpdate(bs, i, p.0, VelocityX);
      SumOfUpdate(bs[i := p.0], j, p.1, VelocityX);
      SumOfUpdate(bs, i, p.0, VelocityY);
      SumOfUpdate(bs[i := p.0], j, p.1, VelocityY);
    }
  }
}
