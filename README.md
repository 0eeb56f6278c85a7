# PowerPendulum: the per-frame bookkeeping, verified

PowerPendulum draws a double pendulum in the browser. The physics library moves
the two bodies and a 3-D library draws them. Between those two libraries the
page keeps its own state: the arm line through the anchor and both bodies, a
trail of the outer body's recent positions with one colour per position, and a
hue counter that colours each new sample. Every frame the page copies the body
positions onto the spheres, updates the arm line, records a trail sample, and
then runs a stall test on the two velocity lengths and resets the pendulum
when the test holds. Then it renders. The model takes the stall test to mean
"both speeds are exactly 0" (see "## Left out" for what the line compares as
written).

This project models that bookkeeping in Dafny and proves what it guarantees.

- `trail.dfy`, module `TrailRecorder`: the trail recorder as pure functions.
  `NextHue` is the hue counter. `Splice` is JavaScript's `splice(0, count)`.
  `RecordSample` is one call of `updateTrail` on the recorder state (hue,
  vertex list, colour list), and `Replay` is a run of such calls. `LastN` ("the
  most recent n entries") is the reference definition the sliding window is
  proved against.
- `pendulum.dfy`, module `Simulation`: the page's module-level state as the
  class `Pendulum`. `UpdateArms`, `UpdateTrail`, `Reset`, `Render` and `Draw`
  mutate it in the order the page does. The arm line is a three-slot array.
  The trail lists are sequence fields that are reassigned, as the page pushes
  to and splices its arrays. Each method's `ensures` ties the new state to the
  old one through the functions of `TrailRecorder`.

Positions are `Vec` values with real coordinates that the model only copies.
A colour is `Hsl(h)`, the colour `hsl(h, 100%, 50%)` that the page builds from
the counter value `h`. `Hsl(h)` records the counter value, not a distinct
colour: hue 360 and hue 0 are the same red on screen. The physics step is
represented by parameters to `Draw`: the positions the bodies have after the
step and the lengths of their velocities.

What the proofs show:

- Starting from 0, the hue counter visits 0, 1, …, 360 and then wraps. It
  stays in [0, 360] and stands at n mod 361 after n samples. It reaches 360;
  the counter only wraps after a value above 359.
- A sample's colour is built from the counter value after that sample's
  increment.
- After each sample, the vertex list is the last `trailLength` entries of the
  old list plus the new position. Its length is min(old + 1, `trailLength`).
  After any run of samples, it is the last `trailLength` positions of the whole
  history.
- A trail length of 0 leaves both lists empty after every sample.
- The colour list is cut using its own length. The cut happens only when the
  vertex list overflows. So the colour list is never shorter than the vertex
  list, and both lists are the same length again after a cut.
- `reset` empties the vertex list but not the colour list. With a trail length
  of at least 1, the trail is left with one vertex and all the old colours; the
  colour drawn for that vertex is the oldest colour kept, not the new one. With
  a trail length of 0 both lists end empty. On a fresh page whose first frame
  resets, the single trail vertex already has two colours.
- With a trail length of at least 2, frames that keep resetting leave one
  vertex but add two colours each, so the colour list grows past the trail
  length without bound.
- A frame in which both speeds are exactly 0 records two trail samples, one
  before the reset and one after it. The frame is rendered after the reset. It
  shows the arm line at the seed positions, but the spheres stay where the
  physics step put them, because the spheres were copied before the reset.
- The anchor vertex of the arm line never changes.

Three consequences of the code as written, all modelled as they are:

- The hue counter takes 361 values, 0 to 360, because the wrap test is
  `trailColor > 359`. It wraps to 0 only after showing 360, and hue 360 draws
  the same red as hue 0, so red appears twice in a row at the wrap.
- `reset` empties only the vertex list; the colour list is left as it is.
- A reset frame draws the spheres where the physics step put them, because
  they were copied before the reset, while the arm line and the trail show the
  seed positions.

## Model

| member | source | states |
|---|---|---|
| `TrailRecorder.NextHue` | public/scripts/powerpendulum.js:307-311 | definition with no contract of its own: the counter goes to 0 above 359 and otherwise up by one; `HueStep` and `ReplayHue` state its properties |
| `TrailRecorder.RecordSample` | public/scripts/powerpendulum.js:305-328 | definition with no contract of its own: one `updateTrail` on the hue, vertex list and colour list; the `Sample*` lemmas and `UpdateTrail` state its properties |
| `TrailRecorder.Replay` | public/scripts/powerpendulum.js:305-328 | definition with no contract of its own: `updateTrail` once per frame over a run of frames; `ReplayHue`, `ReplayWindow` and `ReplayParallel` state its properties |
| `TrailRecorder.ResetFrame` | public/scripts/powerpendulum.js:286-292 | definition with no contract of its own: the trail part of a frame that resets, a sample at the stepped position, the vertex list emptied, a sample at the seed |
| `TrailRecorder.ReplayResets` | public/scripts/powerpendulum.js:371-378 | definition with no contract of its own: a run of frames that all reset |
| `TrailRecorder.Splice` | public/scripts/powerpendulum.js:319-327 | `splice(0, count)` keeps the array when the count is at most 0, empties it when the count reaches the length, and otherwise removes exactly that many leading elements and keeps the rest in order |
| `TrailRecorder.LastN` | public/scripts/powerpendulum.js:317-322 | the reference sliding window: the result is a suffix of the history whose length is min(n, length of the history) |
| `TrailRecorder.HueStep` | public/scripts/powerpendulum.js:307-311 | in [0, 360], one counter step stays in [0, 360] and equals (h + 1) mod 361; it gives 0 exactly when the counter was 360 |
| `TrailRecorder.ReplayHue` | public/scripts/powerpendulum.js:305-311 | after n samples, a counter started at h in [0, 360] stands at (h + n) mod 361; from the initial 0 it shows 360 after 360 samples and 0 after 361 |
| `TrailRecorder.SampleColor` | public/scripts/powerpendulum.js:307-315 | the colour appended by a sample carries the counter value after the step, which differs from the value before it; with trail length at least 1 it is the last colour |
| `TrailRecorder.SampleWindow` | public/scripts/powerpendulum.js:314-322 | after a sample the vertex list is the last `trailLength` entries of old list ++ [position]; its length is min(old + 1, `trailLength`); the new position is last when `trailLength` is at least 1 |
| `TrailRecorder.SampleZeroLimit` | public/scripts/powerpendulum.js:317-327 | with trail length 0 a sample leaves both the vertex list and the colour list empty |
| `TrailRecorder.SampleColorsCut` | public/scripts/powerpendulum.js:315-327 | the colour list is cut to its own last `trailLength` entries exactly when the vertex list overflows; otherwise it only grows by the new colour |
| `TrailRecorder.SampleParallel` | public/scripts/powerpendulum.js:314-327 | a sample keeps the colour list at least as long as the vertex list; a cut makes both exactly `trailLength` long; without a cut their length difference is unchanged |
| `TrailRecorder.ResetLeavesColors` | public/scripts/powerpendulum.js:371-378 | clearing only the vertex list and then sampling leaves exactly one vertex and every old colour plus the new one, so the lists differ in length and the first colour is the oldest old colour |
| `TrailRecorder.ReplayWindow` | public/scripts/powerpendulum.js:305-328 | after any non-empty run of samples the vertex list is the last `trailLength` positions of old list ++ all samples, and never longer than `trailLength` |
| `TrailRecorder.ReplayParallel` | public/scripts/powerpendulum.js:305-328 | over any run of samples the colour list stays at least as long as the vertex list |
| `TrailRecorder.ResetFrameGrowsColors` | public/scripts/powerpendulum.js:371-378 | with trail length at least 2 and at most one vertex, a resetting frame leaves exactly the seed as vertex and adds two colours |
| `TrailRecorder.ReplayResetsGrowColors` | public/scripts/powerpendulum.js:371-378 | with trail length at least 2, n resetting frames leave one vertex and add 2n colours, so the colour list passes any trail length |
| `Simulation.Pendulum.constructor` | public/scripts/powerpendulum.js:23-142 | start-up: the arm line is [origin, body 1, body 2], the trail is empty, the hue counter is 0 and the trail length is 150000 |
| `Simulation.Pendulum.SetTrailLength` | public/scripts/powerpendulum.js:247-250 | the slider only sets the trail length; the trail lists are not cut until the next trail update |
| `Simulation.Pendulum.UpdateArms` | public/scripts/powerpendulum.js:299-303 | arm vertex 1 becomes body 1's position and vertex 2 body 2's; vertex 0, the anchor, is left unchanged |
| `Simulation.Pendulum.UpdateTrail` | public/scripts/powerpendulum.js:305-328 | the recorder state becomes one `RecordSample` of the old state at body 2's position; afterwards the vertex list is no longer than the trail length; hue range and list-length invariants are kept |
| `Simulation.Pendulum.Reset` | public/scripts/powerpendulum.js:371-380 | the bodies move to (-10,0,0) and (-10,0,-10), the arm line follows them, the vertex list is emptied and re-sampled; with trail length at least 1 the trail is [(-10,0,-10)] and the colour list is the old one plus one colour |
| `Simulation.Pendulum.Render` | public/scripts/powerpendulum.js:294 | the renderer receives the spheres, the arm line and the trail as they are, and nothing else changes |
| `Simulation.Pendulum.Draw` | public/scripts/powerpendulum.js:274-297 | spheres copy the stepped positions, then the arm and trail updates run; when both speeds are 0 a reset follows (the trail part is `ResetFrame`), so the counter advances twice, before render; the rendered arm line is at the final body positions and the trail is never longer than the trail length |
| `Simulation.FirstFrame` | public/scripts/powerpendulum.js:274-297 | on a fresh page the first rendered frame shows a trail of exactly one vertex: the stepped position, or the seed (-10,0,-10) after a reset, and in that case with two colours |

## Left out

- `Simulation.Pendulum.Draw`: the stall test is modelled as the intended numeric comparison of both velocity lengths with 0. As written, line 290 reads `velocity.length` without a call; in the physics library `length` is a method, so the line compares the method itself with 0 and that test never holds, and `reset` is then never reached from `draw`. The model does not capture that.

- The physics world (bodies, distance constraints, gravity, damping, `world.step`) is not part of this model. The positions a step produces and the velocity lengths are parameters of `Draw`.
- `updateArrows` (the velocity arrows) is not modelled. It only rebuilds helper objects of the 3-D library from the physics velocities, and it changes none of the modelled state.
- The camera's look-at target, the trail's material, geometry cloning and disposal, `computeLineDistances`, and adding and removing scene objects are not modelled. They are calls into the 3-D library.
- The parameter panel is not modelled, apart from the trail length setter. Masses, colours, arm lengths, dash and gap sizes and the camera toggle only forward a value to a library object.
- The random initial masses and positions are not modelled; the start positions are constructor parameters. Stats, window resizing and `requestAnimationFrame` scheduling are left out as well.
- `Simulation.Pendulum.SetTrailLength`: takes a whole number in [0, 150000], as the slider delivers. A fractional trail length, which JavaScript's `splice` would truncate, is not modelled.
- Coordinates are exact reals and are never computed with, so NaN positions and floating-point rounding are not modelled.
