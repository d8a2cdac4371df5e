# N-body step engine and image accordion, modelled in Dafny

This project models two small pieces of the WriteFreely application.

The first is the N-body simulation engine in `src-tauri/src/lib.rs`. An
`NBody` is a point mass with a position, a velocity, a mass and a radius. It
also carries an orbit angle, an orbit radius and an `is_center` flag. A
`Simulation` holds a list of bodies and the canvas bounds, 800 by 600 by
default. One call of `update_simulation(dd)` does the following:

- It visits every pair `(i, j)` with `i < j` once, in lexicographic order.
- It skips a pair when the `in_aabb` gate fires. The gate compares the
  *squared* centre distance with the *linear* sum `dd + r_i + r_j`.
- Otherwise, a pair whose centre distance is below `r_i + r_j + dd`
  collides. The body with the larger or equal radius (body `i` on a tie)
  becomes the centre. The other body becomes its satellite and is moved
  onto a circle about the centre.
- A pair that does not collide is pulled together by gravity. Equal and
  opposite *velocity* changes are applied to the two bodies.
- Finally every body is moved by its velocity and reflected off the canvas
  edges.

The second is `toggleOpen` of the `TestImgs` component in
`src/components/webCom/test-imgs.ts`. A click on an item flips that item and
closes all the others. A click on an open item is ignored while
`_canRecovery` is false.

Arithmetic is over `real`. `sqrt`, `cos` and `sin` are arbitrary total
functions, passed in a `Maths` value. The general properties below assume
only `sqrt(0) == 0` (`Maths.Valid`), so they hold whatever else these
functions compute. The one exception is `Scenarios.CollisionScenario`, a
concrete run that also assumes `sqrt(144) == 12`.

Modules, one per concern of the two source files:

- `Bodies` (`bodies.dfy`): the body record, `NBody::new` and `in_aabb`.
- `Pairs` (`pairs.dfy`): the order in which the two nested loops visit pairs.
- `Interaction` (`interaction.dfy`): one visited pair, with the gate and both branches.
- `Engine` (`engine.dfy`): `Simulation::new`, `update_canvas_size`, the full
  step as a function (`Step`), and the loops of `update_simulation` as
  methods proved to compute it (`UpdateSimulation`).
- `Scenarios` (`scenarios.dfy`): small concrete runs.
- `Accordion` (`accordion.dfy`): `toggleOpen`.

Points about the code worth knowing:

- The comment at `lib.rs:114` says the gravitational force is equal and
  opposite. Lines 116-121 divide the force by `mass_i` only and apply the
  same velocity change, negated, to body `j`. So the pair conserves the
  velocity sum, not momentum, unless the masses are equal
  (`GravitationMomentum`, `PairPhaseKeepsVelocitySum`).
- `is_center` is not recomputed each step. It survives on pairs the gate
  skips and on satellites: the collision branch never clears the
  satellite's flag. The gravitation branch never resets `orbit_radius`.
- `NBody::new` does not check the mass or the radius.

## Model

| member | source | states |
|---|---|---|
| Bodies.NewBody | src-tauri/src/lib.rs:24-38 | a new body has the given identity, position, mass and radius and the supplied velocity; angle and orbit radius are 0 and it is not a centre; it is well formed exactly when mass and radius are positive |
| Bodies.DistSqProperties | src-tauri/src/lib.rs:41 | the squared distance is never negative, is zero exactly when the centres coincide, and is symmetric in the two bodies |
| Bodies.InAabb | src-tauri/src/lib.rs:40-47 | the gate fires exactly when the centres are distinct and the squared distance is below `dd` plus the two radii |
| Bodies.InAabbSymmetric | src-tauri/src/lib.rs:40-47 | the gate gives the same answer with the two bodies swapped |
| Bodies.InAabbCoincident | src-tauri/src/lib.rs:40-47 | the gate never fires for coincident centres, whatever `dd` and the radii |
| Pairs.AllPairsExactlyOnce | src-tauri/src/lib.rs:79-81 | the visiting order holds exactly the pairs `0 <= i < j < n`, in strictly increasing lexicographic order, with no repeats, n(n-1)/2 in all |
| Interaction.Collide | src-tauri/src/lib.rs:96-110 | the body with radius `>=` the other's (body `i` on a tie) gets `is_center` and orbit radius `r_i + r_j + dd` and nothing else changes on it; the satellite's angle grows by exactly 0.05, it sits at the centre plus orbit radius times (cos, sin) of the new angle, and its velocity, `is_center` and every other field are unchanged |
| Interaction.GravitationDefined | src-tauri/src/lib.rs:93-117 | when the pair does not collide, the contact distance `r_i + r_j + dd` is positive and `sqrt(0) == 0`, both `dist_sq` and `dist` are positive, so no division is by zero |
| Interaction.Gravitate | src-tauri/src/lib.rs:111-122 | both `is_center` flags become false; the pair's velocity sum is kept on each axis; positions, angles, orbit radii, masses and ids are unchanged |
| Interaction.PullAttracts | src-tauri/src/lib.rs:115-119 | for positive masses, the velocity change of body `i` on an axis has the sign of body `j`'s displacement on that axis, and is zero when they are level |
| Interaction.PullZero | src-tauri/src/lib.rs:115-117 | for non-zero masses, the velocity change on an axis is zero exactly when the two centres are level on that axis |
| Interaction.GravitationMomentum | src-tauri/src/lib.rs:114-121 | for any non-zero masses, momentum along x is kept exactly when the masses are equal or the centres are level in x, because the reaction is not mass-weighted |
| Interaction.PairStep | src-tauri/src/lib.rs:83-122 | only entries `i` and `j` change, and they keep id, mass and radius; when the gate fires nothing changes; otherwise the collision or gravitation branch is taken according to `dist < r_i + r_j + dd` |
| Interaction.PairStepKeepsVelocitySum | src-tauri/src/lib.rs:86-122 | a visited pair keeps the sum of all bodies' vx and of all bodies' vy |
| Engine.NewSimulation | src-tauri/src/lib.rs:62-68 | a new simulation has no bodies and an 800 by 600 canvas |
| Engine.UpdateCanvasSize | src-tauri/src/lib.rs:70-73 | the bounds become the given width and height and the bodies are untouched |
| Engine.UpdateCanvasSizeLastWins | src-tauri/src/lib.rs:70-73 | two resizes in a row equal the second alone |
| Engine.PairPhase | src-tauri/src/lib.rs:80-124 | visiting a list of pairs keeps the number of bodies and every body's id, mass and radius, so the divisions of later pairs stay defined |
| Engine.PairPhaseAppend | src-tauri/src/lib.rs:80-124 | visiting one list of pairs and then another is the same as visiting their concatenation, so the rows of the outer loop compose |
| Engine.PairPhaseUntouched | src-tauri/src/lib.rs:80-124 | a body that no visited pair names comes out unchanged |
| Engine.PairPhaseKeepsVelocitySum | src-tauri/src/lib.rs:80-124 | the whole pair phase keeps the sum of vx and the sum of vy over all bodies |
| Engine.Reflect | src-tauri/src/lib.rs:131-144 | an in-band coordinate is left as it is; otherwise the velocity is negated and the coordinate is clamped to the edge it crossed; with `2*radius <= limit` the result lies in `[radius, limit - radius]` |
| Engine.Advance | src-tauri/src/lib.rs:127-145 | only position and velocity change; on each axis the velocity is negated exactly when the integrated coordinate left the band, and an in-band coordinate is kept; a body no larger than the canvas ends inside it |
| Engine.Step | src-tauri/src/lib.rs:75-146 | a step keeps the bounds, the number of bodies and every body's id, mass and radius; every body with `2*radius` at most the width and the height ends with `radius <= x <= width - radius` and `radius <= y <= height - radius` |
| Engine.StepEmpty | src-tauri/src/lib.rs:75-146 | a step of a simulation without bodies changes nothing |
| Engine.VisitRow | src-tauri/src/lib.rs:81-123 | the inner loop over `j` in `i + 1..n`, with the gate's `continue` and the two branches written out, computes the fold of `PairStep` over row `i`, the pairs `(i, i+1), ..., (i, n-1)` |
| Engine.VisitAllPairs | src-tauri/src/lib.rs:80-124 | the two nested loops visit exactly the pairs of `AllPairs`, in that order |
| Engine.AdvanceEach | src-tauri/src/lib.rs:127-145 | the final loop integrates and reflects every body once |
| Engine.UpdateSimulation | src-tauri/src/lib.rs:75-146 | the loops of `update_simulation` compute `Step` |
| Scenarios.CollisionScenario | src-tauri/src/lib.rs:96-103 | radii 10 and 5 at distance 12 with `dd = 0` collide; the radius-10 body becomes centre with orbit radius 15 and the other advances its angle to 0.05 |
| Scenarios.GateSkipsOverlap | src-tauri/src/lib.rs:86-88 | two radius-5 bodies 3 apart overlap, yet the gate (9 < 10) skips them and nothing changes |
| Scenarios.ReflectionScenario | src-tauri/src/lib.rs:127-137 | a body at `x = radius - 1` with `vx = -2` ends at `x = radius` with `vx = 2` |
| Accordion.ToggleOpen | src/components/webCom/test-imgs.ts:50-55 | an ignored click (item open, recovery off) changes nothing; otherwise item `k` flips, every other item is closed, and at most one item is open; sources and captions never change |
| Accordion.ToggleOpenAtMostOne | src/components/webCom/test-imgs.ts:50-53 | "at most one item open" holds after every click that is not ignored, and is preserved by every click |
| Accordion.AtMostOneOpenIsCount | src/components/webCom/test-imgs.ts:53 | "no two items open" agrees with counting at most one open item |
| Accordion.ToggleOpenCount | src/components/webCom/test-imgs.ts:51-53 | after a click that is not ignored, one item is open if the clicked item was closed and none if it was open |
| Accordion.ToggleOpenTwiceWithoutRecovery | src/components/webCom/test-imgs.ts:50-53 | without recovery, clicking the same item twice equals clicking it once |
| Accordion.ToggleOpenTwiceWithRecovery | src/components/webCom/test-imgs.ts:50-53 | with recovery, opening a closed item and clicking it again leaves every item closed |

## Left out

- The Tauri commands (`greet`, `create_body`, `create_bodies`, the
  `update_simulation`, `get_bodies` and `update_canvas_size` commands,
  `run`): RPC dispatch, serde serialisation and `Mutex` locking.
  `create_bodies` is left out for the same reason.
- Randomness: `NBody::new` draws `vx` and `vy` from `rand::thread_rng`.
  `NewBody` takes them as parameters.
- IEEE-754 behaviour: rounding, infinities and NaN. Values are `real`.
  `sqrt`, `cos` and `sin` are uninterpreted apart from `sqrt(0) == 0`. The
  gravitational constant is the exact real 6.67430e-11.
- Inputs for which `update_simulation` may divide by zero. `PairStep`,
  `PairPhase`, `Step` and the step methods require, for every pair `i < j`,
  that `mass_i != 0` and `r_i + r_j + dd > 0` (`Engine.PairsDefined`). A zero
  `mass_i` divides by zero in the gravitation branch. The second condition
  is what keeps `dist` away from zero when a pair does not collide. Pairs
  with `r_i + r_j + dd <= 0` at distinct centres give finite values in f64,
  but the model excludes them too: `sqrt` is left unknown apart from
  `sqrt(0) == 0`, so `dist != 0` cannot be shown for them.
- Interaction.PullAttracts: the sign is stated for positive masses only.
  With negative masses the sign also depends on `mass_j`.
- Interaction.Gravitate: states the sign of the pull and that the reaction
  equals it negated, not its magnitude `G*m_j/dist_sq` along `(dx, dy)/dist`.
  `Interaction.Pull` is the expression of `lib.rs:115-117`, but no contract
  states its simplified Newtonian form.
- Engine.Step: the containment guarantee covers only bodies whose diameter
  fits the canvas. A larger body is clamped to one edge and can end past the
  other, exactly as `update_simulation` does.
- Accordion.ToggleOpen: the clicked item is named by its index in the list.
  A stale item object that is no longer in the list is not modelled. Neither
  is one object appearing twice, which would match `===` at both places.
- `TestImgs.render`, `requestUpdate` and the styles: Lit DOM rendering and
  static CSS.
- `src/router/index.ts` and `src/main.ts`: framework bootstrapping and routes.
