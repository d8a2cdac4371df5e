/** The body record of the N-body engine (src-tauri/src/lib.rs, `NBody`) and
    the geometric gate it offers the engine. Floating point is modelled by
    `real`: IEEE-754 rounding, infinities and NaN are not modelled. */
module Bodies {

  /** Body identifiers are Rust `i32`. The engine never computes on them. */
  newtype Int32 = x: int | -0x8000_0000 <= x < 0x8000_0000

  /** The square root, cosine and sine the engine calls, as arbitrary total
      functions: nothing about their values is assumed except, through
      `Valid`, that the square root of zero is zero. */
  datatype Maths = Maths(sqrt: real -> real, cos: real -> real, sin: real -> real)
  {
    predicate Valid() {
      sqrt(0.0) == 0.0
    }
  }

  /** The gravitational constant of the step, 6.67430e-11. */
  const G: real := 0.0000000000667430

  datatype Body = Body(
    id: Int32,
    x: real,
    y: real,
    mass: real,
    radius: real,
    vx: real,
    vy: real,
    angle: real,
    orbitRadius: real,
    isCenter: bool)

  /** Mass and radius are positive, as for a physical body. `NBody::new`
      does not check it. */
  predicate WellFormed(b: Body) {
    b.mass > 0.0 && b.radius > 0.0
  }

  /** `after` is the same body as `before`: identity, mass and radius agree. */
  predicate SameIdentity(before: Body, after: Body) {
    after.id == before.id && after.mass == before.mass && after.radius == before.radius
  }

  /** A freshly created body. `NBody::new` draws `vx` and `vy` at random; here
      they are parameters. */
  function NewBody(id: Int32, x: real, y: real, mass: real, radius: real, vx: real, vy: real): (b: Body)
    ensures b.id == id && b.mass == mass && b.radius == radius
    ensures b.x == x && b.y == y && b.vx == vx && b.vy == vy
    ensures b.angle == 0.0 && b.orbitRadius == 0.0 && !b.isCenter
    ensures WellFormed(b) <==> mass > 0.0 && radius > 0.0
  {
    Body(id, x, y, mass, radius, vx, vy, 0.0, 0.0, false)
  }

  /** Squared distance from the centre of `a` to the centre of `b`, the
      `powi(2)` sum `dist_sp` of `in_aabb`. */
  function DistSq(a: Body, b: Body): real {
    Square(b.x - a.x) + Square(b.y - a.y)
  }

  function Square(d: real): real {
    d * d
  }

  lemma CancelLeft(a: real, b: real)
    requires a != 0.0
    ensures a * b / a == b
  {
  }

  /** A square is never negative, is zero only for zero, and does not depend
      on the sign. */
  lemma SquareFacts(d: real)
    ensures Square(d) >= 0.0
    ensures Square(d) == 0.0 <==> d == 0.0
    ensures Square(-d) == Square(d)
  {
    assert (-d) * (-d) == d * d;
    if d != 0.0 {
      CancelLeft(d, d);
      assert Square(d) / d == d;
    }
  }

  /** The squared distance is never negative, is zero exactly for coincident
      centres, and does not depend on the order of the two bodies. */
  lemma DistSqProperties(a: Body, b: Body)
    ensures DistSq(a, b) >= 0.0
    ensures DistSq(a, b) == 0.0 <==> a.x == b.x && a.y == b.y
    ensures DistSq(a, b) == DistSq(b, a)
  {
    SquareFacts(b.x - a.x);
    SquareFacts(b.y - a.y);
    assert a.x - b.x == -(b.x - a.x);
    assert a.y - b.y == -(b.y - a.y);
    if a.x == b.x && a.y == b.y {
      assert Square(b.x - a.x) == 0.0 * 0.0;
      assert Square(b.y - a.y) == 0.0 * 0.0;
    }
  }

  /** The early-exit gate `in_aabb`: it fires exactly when the centres are
      distinct and the squared centre distance is below `dd` plus the two
      radii. The squared distance is compared with a linear length, as
      `in_aabb` does. */
  function InAabb(self: Body, other: Body, dd: real): (r: bool)
    ensures r <==> (self.x != other.x || self.y != other.y)
                   && DistSq(self, other) < dd + other.radius + self.radius
  {
    DistSqProperties(self, other);
    var distSq := DistSq(self, other);
    if distSq < dd + other.radius + self.radius && distSq > 0.0 then
      true
    else
      false
  }

  /** The gate is symmetric in its two bodies. */
  lemma InAabbSymmetric(a: Body, b: Body, dd: real)
    ensures InAabb(a, b, dd) == InAabb(b, a, dd)
  {
    DistSqProperties(a, b);
  }

  /** Coincident centres never pass the gate, whatever `dd` and the radii. */
  lemma InAabbCoincident(a: Body, b: Body, dd: real)
    requires a.x == b.x && a.y == b.y
    ensures !InAabb(a, b, dd)
  {
    DistSqProperties(a, b);
  }

  function VelocityX(b: Body): real {
    b.vx
  }

  function VelocityY(b: Body): real {
    b.vy
  }

  /** Sum of one real-valued attribute over a sequence of bodies. */
  function SumOf(bs: seq<Body>, f: Body -> real): real {
    if bs == [] then 0.0 else f(bs[0]) + SumOf(bs[1..], f)
  }

  /** Replacing one body changes the sum by exactly the difference it makes. */
  lemma {:induction false} SumOfUpdate(bs: seq<Body>, k: int, b: Body, f: Body -> real)
    requires 0 <= k < |bs|
    ensures SumOf(bs[k := b], f) == SumOf(bs, f) - f(bs[k]) + f(b)
    decreases |bs|
  {
    if k == 0 {
      assert bs[k := b][1..] == bs[1..];
    } else {
      assert bs[k := b][1..] == bs[1..][k - 1 := b];
      SumOfUpdate(bs[1..], k - 1, b, f);
    }
  }
}
