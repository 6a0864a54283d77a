# Particle field of the apology page

The page draws a full-window canvas behind its content. On it:

- **Ambient particles.** 120 glyphs drift down slowly. Each one is either a short phrase ("I'm Sorry", "Forgive Me", …) or a heart.
- **Pointer repulsion.** The pointer gently pushes away any glyph within 150 pixels of it.
- **Edge wrap.** A glyph that leaves the canvas re-enters at the opposite edge, or just above the top.
- **Click bursts.** Every click throws twelve hearts out of the click point. Each burst heart flies off at a random angle and speed, falls under gravity and fades. It is removed on the frame its life reaches zero.

This project models that core of `script.js` in Dafny, with four modules:

- **`Glyphs`** holds:
  - the message table;
  - the glyph index a uniform draw selects;
  - the two fill colours.
- **`Ambient`** holds:
  - the `Particle` class, whose position fields change each frame while the rest are constants;
  - its snapshot datatype `AmbientState` and its construction `SpawnAmbient`;
  - the repulsion `Repel`, the edge wrap `Wrap` and the full update `AmbientStep`.
- **`Burst`** holds:
  - the `BurstParticle` class and its snapshot `BurstState`;
  - one update `BurstStep`, the closed form of n updates `BurstRun`, and the filter `Survivors` of bursts that are still alive;
  - the frame-level functions `TickBursts` and `TickBurstsN`;
  - the correspondence between the list of objects and the list of their snapshots: `Values` and `Alive`.
- **`Field`** holds the `Renderer` class. It carries the shared state of the script: canvas size, pointer record, the ambient particles and the burst list. Its methods are the handlers:
  - the start-up that sizes the canvas and creates the 120 particles;
  - a ghost footprint `Repr` of every particle object the renderer has created. A frame modifies only the renderer and its footprint, and a click adds only new objects to the footprint. That is what a caller needs to run start-up, clicks and frames in the program's order;
  - `MouseMove`, `Resize` and `Click`;
  - `Tick`, the body of one animation frame. It updates every ambient particle in order, then walks the bursts from the back, updating each and splicing out the expired ones in place.

**How the properties are proved.** Each method that changes state is proved against a function on snapshots:
- a particle's `Update` against `AmbientStep`, and a burst's `Update` against `BurstStep`;
- a click against `SpawnBatch`;
- a frame against `StepAmbients` and `TickBursts`.

Lemmas then prove, about those functions:
- what the script promises;
- the ranges of freshly drawn values;
- the geometry of the repulsion;
- the frame on which a burst disappears.

**Inputs the model takes as parameters:**
- **Randomness.** Every `Math.random()` draw is a value in [0, 1), carried in a draw record (`AmbientDraws`, `BurstDraws`), in the order the constructors make the calls.
- **Square root.** `Math.sqrt` is a function parameter `sqrt`.
- **Cosine and sine.** `Math.cos` and `Math.sin` of the drawn angle are fields of the burst draw record.

**Arithmetic.** Numbers are exact reals, not IEEE doubles.

## Model

| member | source | states |
|---|---|---|
| Glyphs.GlyphIndex | script.js:57 | `floor(r * 15)` for a draw r in [0, 1) is a valid index into the message table. The entry there is the heart exactly when the index is 7 or more. |
| Glyphs.HeartsAreTheTail | script.js:39-48 | Table entries 0 to 6 are phrases other than the heart; entries 7 to 14 are the heart. |
| Ambient.Particle.constructor | script.js:51-69 | The new particle's fields are exactly `SpawnAmbient` of the canvas size and the eight draws, in the source's call order. |
| Ambient.SpawnAmbientOnCanvas | script.js:52-53 | A new particle lies in [0, width] × [0, height]. It is strictly below each extent that is positive. |
| Ambient.SpawnAmbientMotion | script.js:54-68 | vx is in [-0.25, 0.25), vy in [0.2, 0.7), opacity in [0.4, 0.9) and density in [1, 21). |
| Ambient.SpawnAmbientGlyph | script.js:57-66 | The text is a table entry. It is the heart exactly when the drawn index is ≥ 7. A heart has size in [10, 30) and the red colour; a phrase has size in [8, 18) and the brown colour, both at the particle's opacity. |
| Ambient.Repel | script.js:73-87 | The position is unchanged while the pointer is unset, and when the pointer is 150 pixels or more away. |
| Ambient.RepelMovesAway | script.js:73-86 | Inside the radius, with the distance d > 0, the move has length `(150 - d) / 150 * density * 0.6` along the unit vector from the pointer to the particle. The particle ends up on the same ray, at distance d plus that length. |
| Ambient.NudgeOnRay | script.js:79-85 | The per-component nudge `dx / d * force * density * 0.6` moves the point along the ray away from the pointer, by the full push length. |
| Ambient.PushBounds | script.js:81-83 | Inside the radius and with a positive density, the push is positive and at most `density * 0.6`. |
| Ambient.PushStrictlyDecreasing | script.js:81-83 | The closer the pointer, the stronger the push. |
| Ambient.Wrap | script.js:92-95 | The three edge checks run in source order. Below the bottom edge, y becomes -10. Past the right edge, x becomes 0 and the left check leaves it. Past the left edge, x becomes the width. Coordinates already inside are kept. The resulting x is in [0, width]. |
| Ambient.AmbientStep | script.js:71-96 | One update changes only the position. The new x is in [0, width], and the new y is at most the height. |
| Ambient.Particle.Update | script.js:71-96 | The field-by-field update ends in exactly `AmbientStep` of the old snapshot, and within the same bounds. |
| Burst.BurstParticle.constructor | script.js:114-126 | The new burst's fields are exactly `SpawnBurst` of the click point and its draws. |
| Burst.SpawnBurstRanges | script.js:114-126 | A new burst starts at the click point with life 1 and decay in [0.01, 0.03). Its size is in [5, 20), its angle in [0, 2π) and its speed in [2, 5). Its velocity is (cos·speed, sin·speed). Its text is the heart, in `rgba(220, 80, 80, 1)`. |
| Burst.SpawnedSpeed | script.js:118-121 | When cos² + sin² = 1, the initial velocity has length exactly the drawn speed. |
| Burst.StepEffect | script.js:128-133 | One update moves by the velocity from before gravity, lowers life by the decay and raises vy by 0.1. Nothing else changes. |
| Burst.BurstParticle.Update | script.js:128-133 | The four assignments, in order, give exactly `BurstStep` of the old snapshot. |
| Burst.RunLife | script.js:131 | After n updates, life is `life - n * decay`. |
| Burst.RunY | script.js:130-132 | After n updates, y is `y + n * vy + 0.1 * (0 + 1 + … + (n - 1))`. |
| Burst.BurstRunClosedForm | script.js:128-133 | The closed form of n updates: uniform motion in x, uniformly accelerated motion in y, linear loss of life. The other fields are unchanged. |
| Burst.AliveUntilCeil | script.js:158-165 | A fresh burst with decay d > 0 is still alive after n updates exactly when n < ⌈1/d⌉. So it is removed on frame ⌈1/d⌉. |
| Burst.LifetimeBounds | script.js:123 | A decay the constructor can draw gives a lifetime of 34 to 100 frames. |
| Burst.SurvivorsMembers | script.js:162-164 | A burst survives the filter exactly when it was in the list and its life is positive. |
| Burst.StepAll | script.js:158-161 | Every burst is updated exactly once, and the list keeps its length and order. |
| Burst.TickBurstsNAsRun | script.js:158-165 | Removing expired bursts every frame for n ≥ 1 frames leaves the same list as running every burst n times and filtering once at the end. |
| Burst.UniformBatchLifetime | script.js:158-165 | A fresh batch with one common decay d stays whole for every frame before ⌈1/d⌉. It is empty from frame ⌈1/d⌉ on. |
| Burst.LastFrame | script.js:158-165 | A uniform batch with lifetime k + 1 is whole after frame k and empty after frame k + 1. |
| Burst.Decay005Batch | script.js:158-165 | With decay 0.05, a fresh batch is whole after frame 19 and empty after frame 20. |
| Burst.ValuesOfAlive | script.js:162-164 | Keeping the live burst objects and keeping the live snapshots give the same states. |
| Burst.AliveDistinct | script.js:163 | Splicing objects out of a list without repeats leaves a list without repeats. |
| Field.StepAmbients | script.js:152-155 | Every ambient snapshot is updated exactly once, with the list's length and order kept. |
| Field.StepAmbientsInBounds | script.js:92-95 | After a frame, every ambient particle is within [0, width] horizontally and not below the bottom edge. |
| Field.SpawnBatch | script.js:145-147 | A click's batch has one burst per draw record, each spawned at the click point, in order. |
| Field.SpawnedIsLive | script.js:122-123 | A new burst has positive life of at most 1 and a decay in [0.01, 0.03). |
| Field.TickKeepsLive | script.js:158-165 | After a frame, every remaining burst again has positive life of at most 1 and a drawn decay. |
| Field.AliveAfterStep | script.js:158-165 | Once each burst object has been updated, the live objects carry exactly the snapshots `TickBursts` keeps. |
| Field.AliveStaysLive | script.js:158-165 | The objects a frame keeps have positive life of at most 1 and a drawn decay. |
| Field.KeptStep | script.js:162-163 | One splice step keeps the visited burst exactly when its life is positive. The rest of the list is unchanged. |
| Field.Renderer.constructor | script.js:105-108 | Start-up sets the canvas to the window size and leaves the pointer unset and the burst list empty. It creates 120 distinct new particles, particle k built from draw record k. The footprint `Repr` holds only new objects. |
| Field.Renderer.MouseMove | script.js:21-25 | The pointer record becomes the event point. The canvas, the bursts and the footprint are unchanged. |
| Field.Renderer.Resize | script.js:32-35 | The canvas size becomes the window size. The pointer, the bursts, the footprint and every particle stay as they were. |
| Field.Renderer.Click | script.js:144-148 | Exactly twelve bursts are appended, spawned at the click point from the twelve draw records in order. Each appended burst is a newly allocated object, and the footprint grows only by new objects. The bursts already there, the canvas and the pointer are untouched. |
| Field.Renderer.ClickStep | script.js:145-147 | One loop iteration pushes the burst for the next draw record. The list grows by one new object whose snapshot is the next entry of the batch, and the loop's state predicate `Appending` holds again. |
| Field.Renderer.PushBurst | script.js:146 | One newly allocated burst object is appended and added to the footprint. Its snapshot is `SpawnBurst(cx, cy, r)`. |
| Field.Renderer.Tick | script.js:150-165 | One frame: each ambient particle takes exactly one `AmbientStep`, and there are still 120 of them. The burst list becomes exactly its live objects after one update each, in order, with snapshots `TickBursts` of the old ones. No burst object is introduced, and the footprint is unchanged. Canvas and pointer are unchanged, and the invariant holds again. |
| Field.Renderer.UpdateParticles | script.js:152-155 | The forEach loop updates each particle exactly once, in order. It ends in `StepAmbients` of the old snapshots and leaves the bursts alone. |
| Field.Renderer.UpdateBursts | script.js:158-165 | After the reverse walk, the burst list is the live objects of the old one, with snapshots `TickBursts` of the old ones. It is still distinct and live, and the ambient particles are untouched. |
| Field.Renderer.BurstLoop | script.js:158-165 | The reverse loop with in-place splice updates every burst object once. It leaves exactly the objects whose post-update life is positive, in their order. |
| Field.Renderer.WalkStep | script.js:159-164 | One iteration keeps the loop's bookkeeping: the walked suffix grows by the visited burst, and the kept list is the filter of that suffix. |
| Field.Renderer.VisitBurst | script.js:159-164 | The visited burst takes one `BurstStep`. It is spliced out at index i exactly when its life is now at most 0. |

The frame loop removes a burst once `life <= 0` (script.js:162). With decay 0.05, 1 − 20 · 0.05 = 0, so a fresh batch is whole after frame 19 and gone on frame 20 (`Burst.Decay005Batch`).

## Left out

- Drawing is out of the model: `draw()`, the canvas context calls, `clearRect` and `globalAlpha`. They change no state of the field.
- The `requestAnimationFrame` scheduling, the Lenis smooth scroll, the GSAP and ScrollTrigger animations, the card tilt, the audio and the other page handlers are outside this core.
- The model uses exact reals, not IEEE 754 doubles. Rounding of repeated `life -= decay` can move the removal frame by one; that is not modelled.
- `Math.PI` is the real literal 3.141592653589793.
- `Math.random`, `Math.sqrt`, `Math.cos` and `Math.sin` are inputs, not computations. Draws are values in [0, 1); `sqrt` is a function parameter; cos and sin of the drawn angle are fields of the draw record.
- Ambient.Particle.Update: requires that the pointer is unset or at a nonzero distance. At distance 0 the source divides 0 by 0 and the particle's coordinates become NaN; reals have no NaN.
- Field.Renderer.Tick: requires the same nonzero distance for every particle, for the same reason.
- Ambient.RepelMovesAway: assumes `sqrt` returns the exact square root at the one argument it is given.
- Colours are `Rgba` records, not the `rgba(...)` strings the source formats.
- Resizing does not move or re-create particles, and the source does not either.
- The pointer arrives as one value: both coordinates are set together, as the move handler does. No state has only x set.
- Field.StepAmbientsInBounds: gives no lower bound on y, and neither does Ambient.AmbientStep. Repulsion can push a particle above the top edge, and the source has no check for that.
