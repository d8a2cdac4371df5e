/** Concrete runs of the engine of src-tauri/src/lib.rs on small inputs. */
module Scenarios {
  import opened Bodies
  import opened Pairs
  import opened Interaction
  import opened Engine

  /** Two bodies of radius 10 and 5 whose centres are 12 apart, with no
      slack: 12 is below 15, so they collide and the larger body becomes the
      centre of an orbit of radius 15, while the smaller advances by one
      angle step. */
  lemma CollisionScenario(m: Maths, v0: real, v1: real)
    requires m.Valid() && m.sqrt(144.0) == 12.0
    ensures var s := Simulation([NewBody(0, 100.0, 100.0, 500.0, 10.0, v0, 0.0),
                                 NewBody(1, 112.0, 100.0, 250.0, 5.0, v1, 0.0)], 800.0, 600.0);
      var r := Step(s, 0.0, m);
      && r.bodies[0].isCenter && r.bodies[0].orbitRadius == 15.0
      && !r.bodies[1].isCenter && r.bodies[1].angle == 0.05
  {
    var b0 := NewBody(0, 100.0, 100.0, 500.0, 10.0, v0, 0.0);
    var b1 := NewBody(1, 112.0, 100.0, 250.0, 5.0, v1, 0.0);
    assert DistSq(b0, b1) == 144.0;
    assert !InAabb(b0, b1, 0.0);
    assert Colliding(b0, b1, 0.0, m);
    assert Row(0, 2) == [(0, 1)];
    assert AllPairs(2) == [(0, 1)];
    var s := Simulation([b0, b1], 800.0, 600.0);
    assert PairPhase(s.bodies, [(0, 1)], 0.0, m) == PairStep(s.bodies, 0, 1, 0.0, m);
  }

  /** Two bodies of radius 5 whose centres are 3 apart overlap, but their
      squared distance 9 is below the linear sum 10, so the gate skips the
      pair and neither body is touched. */
  lemma GateSkipsOverlap(m: Maths)
    requires m.Valid()
    ensures var bs := [NewBody(0, 100.0, 100.0, 250.0, 5.0, 0.0, 0.0),
                       NewBody(1, 103.0, 100.0, 250.0, 5.0, 0.0, 0.0)];
      PairStep(bs, 0, 1, 0.0, m) == bs
  {
    var b0 := NewBody(0, 100.0, 100.0, 250.0, 5.0, 0.0, 0.0);
    var b1 := NewBody(1, 103.0, 100.0, 250.0, 5.0, 0.0, 0.0);
    assert DistSq(b0, b1) == 9.0;
  }

  /** A body one unit inside the left margin moving left at speed 2 is
      clamped to the margin and bounces back at speed 2. */
  lemma ReflectionScenario(radius: real)
    requires 0.0 < radius <= 100.0
    ensures var b := NewBody(0, radius - 1.0, 300.0, 50.0 * radius, radius, -2.0, 0.0);
      var r := Advance(b, 800.0, 600.0);
      r.x == radius && r.vx == 2.0 && r.y == 300.0 && r.vy == 0.0
  {
  }
}
