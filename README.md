# Particle editor core in Dafny

This project models the core of a raylib particle editor and proves properties of the model.
- `particles.h` holds the particle engine: emitters, their particle pools, spawning, ageing and the arithmetic of drawing.
- `editor.c` holds the editor's list of emitters.
- `gui.c` holds the rules its property windows apply.

An emitter owns a fixed pool of particle slots. A slot whose `life` is 0 is free. Each frame, `EmitterUpdate` runs three phases:
- While inside its emission window, it fills free slots, lowest first, either continuously or in pulses.
- One pass reclaims expired particles, advances the live ones and swaps neighbours toward ascending life.
- It moves the emission timer on, looping or one-shot.

`EmitterDraw` visits the live slots forwards or backwards. It colours each particle by easing between the two gradient colours of its stretch of life, rotates its quad and picks its atlas cell.

The model follows the form of the C code:
- The emitter is a class with its pool as an `array`. `Fill`, `Advance`, `Emit` and `Update` are loops over it, and each is proved equal to a pure function of the old state: `Filled`, `Pass` and `SpawnPhase`. The lemmas about those functions prove what the engine promises.
- The editor is a class whose arrays of emitters and ids are swapped in place.
- The gui window rules are methods on the editor and the emitter.
- Expression-only helpers are functions: `NormalizeAngle`, `GetQuadrant`, the octant table, `MixColors`, `Interpolate` and the frame arithmetic.

Modelling conventions:
- **Floats** are `real`s.
- **Flags** are a `bv32`.
- **C arithmetic** is spelled out in `CMath`: truncating int conversion, `fmodf`, integer `/` and `%`, and raymath `Clamp`.
- **Outside inputs are parameters:**
  - the random draws are a `Samples` record;
  - `sin`, `cos` and `Vector2Normalize` are a `Trig` record;
  - the easing curve is a function `(t, b, c, d) -> value`;
  - the frame time is one `dt` per call.

Three behaviours of the code are easy to misread, and the model follows the code:
- The neighbour swap compares total `life`, not remaining life (particles.h:390).
- The 0.0016 substitute for a zero frame time applies only inside `ParticleUpdate`, not to spawning (particles.h:190).
- The gradient index is not kept in range for a particle drawn after its age passed its life (see Findings).

## Model

| member | source | states |
|---|---|---|
| CMath.Trunc | particles.h:355 | C's float-to-int conversion truncates toward zero: the result is within one of the input, on the side of zero |
| CMath.FMod | particles.h:233 | `fmodf` keeps the sign of the dividend and has magnitude below the divisor |
| CMath.CDiv | particles.h:358 | C integer division truncates; for non-negative operands it is the Euclidean quotient |
| CMath.CMod | particles.h:536 | C `%`; for non-negative operands it is the Euclidean remainder, in [0, divisor) |
| CMath.ClampInt | particles.h:419 | raymath `Clamp` lands in [lo, hi], keeps values already inside, and maps values below to lo and above to hi |
| Spawn.NormalizeAngle | particles.h:232-236 | the normalised angle lies in [0, 360) |
| Spawn.NormalizeAngleCanonical | particles.h:232-236 | the result is the one angle in [0, 360) that differs from the input by whole turns |
| Spawn.NormalizeAnglePeriodic | particles.h:232-236 | adding whole turns to the input does not change the result |
| Spawn.GetQuadrant | particles.h:239-241 | the quadrant is an integer in 0..7 |
| Spawn.GetQuadrantSector | particles.h:239-241 | the quadrant q is the 45-degree sector holding the normalised angle: `45q <= angle < 45q + 45` |
| Spawn.OctantOnOutline | particles.h:272-276 | for pc in [0, 1] the `qw[q]`/`qh[q]` point lies on the rectangle outline: one coordinate is ±w/2 or ±h/2 and the other is within range |
| Spawn.OctantContinuous | particles.h:272-276 | octant q at pc = 1 is the same point as octant q+1 (mod 8) at pc = 0, so the walk round the outline has no gaps |
| Spawn.RectOutlineSector | particles.h:268-276 | the outside-spawn point is octant `GetQuadrant(a)` at fraction `fmodf(angle, 45)/45`, and lies on the outline |
| Spawn.BetweenBounds | particles.h:176-178 | `GetRandomFloatBetween` with a draw in [0, 1] lands in [min, max], at min for 0 and at max for 1 |
| Spawn.RingRadii | particles.h:299-306 | the ring radii are swapped into ascending order, keeping the same pair |
| Spawn.GenerateFresh | particles.h:326-338 | a new particle starts at its origin with age 0; its size, speed and life lie in their configured ranges; it occupies its slot when `age.min > 0` |
| Spawn.GenerateTextureIndex | particles.h:253 | the multitexture index is drawn from 0..frames-1 when the atlas has more than one frame |
| Spawn.GeneratePlacement | particles.h:243-330 | the origin is the container's placement plus the offset plus the emitter position, the last only when not in world space; direction and angle come from the container |
| Spawn.GenerateRectOutside | particles.h:262-284 | outside a rectangle the particle starts on the rectangle's outline |
| Spawn.GenerateRectInside | particles.h:277-281 | inside a rectangle the particle starts within half the width and half the height of the centre |
| Spawn.GenerateCircle | particles.h:287-295 | on a circle the direction is the scaled angle vector; the start lies along it at the radius, or at a drawn distance in [0, r] when inside |
| Spawn.GenerateRingOutside | particles.h:308-317 | outside a ring a draw of 0.5 or more starts on the outer ring heading out; otherwise on the inner ring, with direction and angle inverted |
| Spawn.GenerateRingInside | particles.h:318-320 | inside a ring the start lies along the direction at a distance between the inner and the outer radius |
| ParticlePool.FilledLowestFirst | particles.h:368-374 | no free slot is skipped: if a slot was filled, every free slot below it was filled too |
| ParticlePool.FilledSaturated | particles.h:368-374 | asking for more particles than there are free slots fills every free slot, and no more |
| ParticlePool.FilledFreeCount | particles.h:368-374 | filling n slots with live particles lowers the free count, and raises the live count, by min(n, free slots) |
| ParticlePool.FrameStep | particles.h:189-190 | the particle step is the frame time, or 0.0016 when that is 0 |
| ParticlePool.ParticleStep | particles.h:188-229 | an update advances the particle's age by the step and sets its position from the kinematics; no other field changes |
| ParticlePool.SwapBack | particles.h:390-396 | the adjacent swap exchanges slots i-1 and i and leaves the others alone |
| ParticlePool.Visit | particles.h:381-399 | visiting slot i changes no slot above i |
| ParticlePool.Reclaimed | particles.h:385-386 | reclaiming lowers a positive count by one and floors it at 0 |
| ParticlePool.PassShape | particles.h:381-400 | the update pass keeps the pool's length; it stops at the end or once the count reaches 0; the slots past the stop are untouched |
| ParticlePool.PassTally | particles.h:380-400 | the pass returns the number of active particles it visited, and lowers the count by the number of expired ones |
| ParticlePool.PassMultiset | particles.h:381-400 | the pass only permutes: the new pool is the visited slots aged, plus the unvisited slots, as a multiset |
| ParticlePool.VisitFreeCount | particles.h:382-399 | visiting a slot frees it exactly when its particle had expired |
| ParticlePool.PassLiveCount | particles.h:381-400 | when the count matched the live slots before the pass, it matches them after |
| ParticlePool.PassKeepsSorted | particles.h:390-396 | a pool already ordered by life, with all particles active, is only aged, never reordered |
| ParticlePool.PassLongestLast | particles.h:390-396 | one pass over active particles carries the longest-lived particle to the last slot |
| ParticlePool.PassLeavesOverAged | particles.h:383-389 | a particle aged past its life stays in its slot until the next update: it is reclaimed only when already expired on arrival |
| Motion.RotateCentre | particles.h:181-186 | rotating the centre about itself leaves it in place |
| Motion.RotateKeepsDistance | particles.h:181-186 | `RotatePointOnCircle` keeps the distance to the centre when cos² + sin² = 1 |
| Motion.TangentialIsSideways | particles.h:199-214 | the tangential step is perpendicular to the normalised radial vector; the sign of `tacc` picks the side |
| Motion.ForcesTotalAppend | particles.h:218-224 | the sum of forces over a concatenation is the sum of the two sums |
| Motion.ForcesTotalZero | particles.h:218-224 | forces of zero strength contribute nothing |
| Motion.SumForces | particles.h:218-224 | the loop over the first `forces.count` forces computes their sum |
| Motion.MoveStraight | particles.h:195-226 | without tangential acceleration or forces a particle moves along its direction |
| Colors.MixColors | particles.h:417-433 | r, g and b are the eased, clamped channel mixes; alpha is mixed only when the two alphas differ, else kept |
| Colors.LinearChannelBetween | particles.h:418-419 | under linear easing a mixed channel lies between the two channels, equalling the first at the start and the second at the end |
| Colors.LinearMixBetween | particles.h:417-433 | under linear easing every channel of the mix lies between the two colours' channels; the mix is the first colour at the start and the second at the end |
| Colors.StretchPosition | particles.h:444-445 | the position inside a stretch lies in [0, stretch length] |
| Colors.Interpolate | particles.h:435-448 | with no colours or a count of 0 the colour is RED; with one colour it is that colour |
| Colors.SegmentIndexInRange | particles.h:439-442 | for an age in [0, life) the stretch index is in 0..count-2 and the age lies inside that stretch |
| Colors.SegmentIndexAtEnd | particles.h:442 | at age == life the stretch index is count-1, one past the last stretch |
| Colors.InterpolateStretch | particles.h:439-447 | for an age in [0, life) the colour mixes the stretch's two bounding colours at a position inside the stretch |
| Colors.OverAgedSelectsPastGradient | particles.h:442-447 | a particle the update pass leaves over-aged makes `Interpolate` read the colour past those in use; with a full gradient it reads past the buffer |
| Colors.ClampedSegmentIndex | particles.h:442 | the clamped stretch index is in 0..count-2 and equals the unclamped one wherever that is in range |
| Colors.InterpolateClamped | particles.h:435-448 | the corrected interpolation keeps RED for no colours and the single colour for one |
| Colors.InterpolateClampedAgrees | particles.h:435-448 | wherever the original reads inside the gradient, the corrected interpolation gives the same colour |
| Colors.InterpolateClampedAtEnd | particles.h:435-448 | at or past the end of life the corrected interpolation mixes the last two colours |
| Drawing.DrawnSlots | particles.h:453-471 | draw visits nothing when disabled or empty; otherwise the live slots, ascending, or descending under `REVERSE_DRAW_ORDER` |
| Drawing.LiveBelowMembers | particles.h:468-471 | the forward walk visits exactly the live slots below n |
| Drawing.LiveBelowIncreasing | particles.h:468 | the forward walk visits slots in ascending order |
| Drawing.LiveBelowCount | particles.h:468-471 | the forward walk visits as many slots as there are live particles |
| Drawing.LiveAboveMembers | particles.h:457-471 | the reverse walk visits exactly the live slots from k up |
| Drawing.LiveAboveDecreasing | particles.h:457-468 | the reverse walk visits slots in descending order |
| Drawing.LiveAboveCount | particles.h:457-471 | the reverse walk from k and the forward walk below k together cover every live slot once |
| Drawing.DrawOrderCoversPool | particles.h:456-471 | both draw orders visit the same set of slots: every live particle, once |
| Drawing.UntexturedRotation | particles.h:562 | under linear easing an untextured quad starts at `rotation.start` |
| Drawing.UntexturedRotationSweep | particles.h:562 | under linear easing the untextured rotation runs from `rotation.start` at birth to `rotation.end` at the end of life |
| Drawing.TexturedRotationQuirk | particles.h:475-477 | the textured rotation eases by `rotation.end - scale.start`; with zero rotation and unit scale it ends at -1 where the untextured one ends at 0 |
| Drawing.IntendedTexturedRotationAgrees | particles.h:475-477 | with `rotation.start` as the delta's base, the textured rotation equals the untextured one when not directional, and ends at `rotation.end` plus the spawn angle |
| Drawing.AnimationFrame | particles.h:524-529 | a multitexture particle shows its own index; an animated one shows a frame in 0..frames*loop-1 |
| Drawing.LinearAnimationEnds | particles.h:527-528 | under linear easing the animation shows frame 0 at birth and the last frame at the end of life |
| Drawing.FrameCellInAtlas | particles.h:536-537 | the atlas cell of a frame lies in the grid, and its row-major index is the frame modulo the cell count |
| Drawing.FrameCellEuclidean | particles.h:536-537 | for non-negative frames C's truncating `/` and `%` agree with Euclidean ones |
| Drawing.CellInsideTexture | particles.h:531-537 | the source rectangle of any cell lies inside the texture |
| Emitters.SlotsWanted | particles.h:368-374 | the fill loop takes at least one particle, and exactly `rate` when rate is positive (`++r >= rate`) |
| Emitters.SpawnPhase | particles.h:347-377 | the spawn phase keeps the pool's length |
| Emitters.SpawnPhaseCounts | particles.h:347-377 | outside the window nothing changes; inside, the count stays within `emission` and the spawn timer advances; a firing tick fills between 1 and `emission - count` lowest free slots |
| Emitters.SpawnSchedule | particles.h:354-362 | pulses give `emission/pulses` per pulse every `life/pulses`; otherwise `emission/life*dt` every frame; an empty pool in the window fires at once |
| Emitters.SpawnFillsLowestFree | particles.h:368-374 | a spawn never fills a slot above a free slot it left alone |
| Emitters.SpawnKeepsLiveCount | particles.h:347-377 | spawning live particles keeps the count equal to the live slots |
| Emitters.OneShotTimer | particles.h:408-412 | without `LOOP` the emission timer never decreases, stays within `2*delay+life+dt`, and freezes once past `2*delay+life` |
| Emitters.LoopingTimer | particles.h:403-407 | with `LOOP` the timer returns to `delay` once past `2*delay+life`, else advances by dt, staying within `2*delay+life+dt` |
| Emitters.GeneratorAlive | particles.h:337 | when `age.min > 0` every generated particle is live |
| Emitters.UpdateKeepsLiveCount | particles.h:343-415 | a whole update keeps the count equal to the live slots |
| Emitters.Emitter.Zeroed | editor.c:439 | a zeroed emitter has a pool of free particles, zero timers, flags, count and configuration |
| Emitters.Emitter.Fill | particles.h:365-375 | the fill loop leaves the pool as `Filled` and raises the count by the slots filled |
| Emitters.Emitter.Advance | particles.h:379-400 | the update loop leaves the pool, the count and the updated tally as `Pass` computes them |
| Emitters.Emitter.Emit | particles.h:347-377 | the spawn block leaves the pool, count and spawn timer as `SpawnPhase` computes them |
| Emitters.Emitter.Update | particles.h:343-415 | a disabled or paused emitter is untouched and returns 0; otherwise spawn, then the pass, then the emission timer step |
| Emitters.Emitter.StepEmitTimer | particles.h:402-412 | the emission timer moves on as `NextEmitTimer` says for the `LOOP` flag |
| Emitters.Emitter.Reset | editor.c:534-539 | the pool is zeroed and the count and both timers are 0 |
| Emitters.Emitter.ClearParticles | gui.c:296-299 | the pool is zeroed and the count is 0 |
| Emitters.ClearedCountsLive | gui.c:297-298 | a zeroed pool has no live particles, so a count of 0 matches it |
| EditorState.Identity | editor.c:75-77 | the initial ids are 0..MAX_EMITTERS-1 in order |
| EditorState.Swap | editor.c:502-509 | a swap exchanges two entries and keeps every other |
| EditorState.SwapPermutes | editor.c:507-509 | a swap of ids keeps them a permutation |
| EditorState.Editor.MoveUpThenDown | editor.c:497-529 | after a successful move up, the move down goes ahead, and both the emitter list, the ids and the selection are back to what they were |
| EditorState.DefaultColors | editor.c:453-459 | a new gradient is a `MAX_COLORS` buffer whose first colour is the generated one |
| EditorState.DefaultForces | editor.c:462-467 | a new force buffer holds `MAX_FORCES` forces |
| EditorState.DefaultParticles | editor.c:411-424 | a new emitter's particles live 4 s, have size in [1, 2] and speed 80, and occupy their slots |
| EditorState.DefaultFirstFrame | editor.c:411-424 | a new emitter spawns nothing on its first frame (its timer is not yet past the delay), and is in its window on the next iff dt < 4 |
| EditorState.SetDefaultEmitterConfig | editor.c:411-424 | the defaults are written: emission 10, no pulses, size 1-2, unit scale, age 4, speed 80, angle up to 360, linear easing, delay 0, life 4; nothing else changes |
| EditorState.Editor.constructor | editor.c:52-77 | the editor starts empty with no active emitter, identity ids and an empty name |
| EditorState.Editor.Add | editor.c:426-473 | when full nothing changes; otherwise a fresh default emitter at loc is appended with one colour, no forces, blend mode 0 and a zeroed pool; the invariant holds |
| EditorState.Editor.Remove | editor.c:475-495 | when empty nothing changes; otherwise the last emitter is dropped and an active last emitter passes the selection up; the invariant holds |
| EditorState.Editor.MoveUp | editor.c:497-512 | with an active emitter below the first, it and its id swap with the one above, and the selection follows; otherwise nothing changes |
| EditorState.Editor.MoveDown | editor.c:514-529 | with an active emitter above the last, it and its id swap with the one below, and the selection follows; otherwise nothing changes |
| EditorState.Editor.Sync | editor.c:531-540 | every emitter's pool, count and timers are reset; configuration, position, flags, blend mode, life and delay are unchanged |
| Gui.EasingIndex | gui.c:202-205 | the selector index is the first match in `Easings`, or 0 when there is none |
| Gui.EasingSelectorRoundTrip | gui.c:40-49 | an easing is in the table exactly when it is set, and entry 0 is linear, so an unset easing shows as linear and any other as itself |
| Gui.ReadFlags | gui.c:208-219 | the check boxes hold the ten flag bits in enum order |
| Gui.FlagStepBits | gui.c:291-294 | one step of the write-back sets bit i to the box's value and keeps every other bit |
| Gui.WrittenBackBits | gui.c:291-294 | after n steps the first n bits equal the boxes and the rest are unchanged |
| Gui.WrittenBackUnchanged | gui.c:291-294 | boxes that match the flags leave them exactly as they were |
| Gui.ReadThenWriteBack | gui.c:208-294 | writing back unchanged boxes restores the flag word |
| Gui.WriteBackFlags | gui.c:291-294 | the loop leaves the ten flag bits equal to the boxes and bits 10-31 unchanged |
| Gui.CommitEmitterWindow | gui.c:286-299 | easing, blend mode and container type are taken from the window and the flags written back; a changed pulse count clears the pool, and an unchanged one keeps it |
| Gui.ClampActiveColor | gui.c:308 | a selected colour past those in use goes back to 0, so the selection indexes a colour in use |
| Gui.AddColor | gui.c:339-345 | below `MAX_COLORS` the new colour is appended and selected; when full nothing changes; a valid gradient and selection stay valid |
| Gui.RemoveColor | gui.c:347-350 | the count drops by one but never below 1; the selection is clamped to the last colour in use |
| Gui.AddForce | gui.c:393-395 | the force count rises by one up to `MAX_FORCES` |
| Gui.RemoveForce | gui.c:397-399 | the force count falls by one down to 0 |
| Gui.FirstNul | gui.c:578-581 | the scan stops at the first NUL, or at the end of the buffer |
| Gui.SanitizedChars | gui.c:578-581 | before the first NUL every space becomes `_` and other characters stay; from the NUL on nothing changes |
| Gui.SanitizedHasNoSpaces | gui.c:577-581 | the sanitised name has no space before its terminator, and the terminator is where it was |
| Gui.SanitizedIdempotent | gui.c:578-581 | sanitising twice is the same as sanitising once |
| Gui.SanitizeName | gui.c:578-581 | the in-place loop leaves the name buffer sanitised |
| Gui.FormatReal | gui.c:584-588 | the unit is "M", "K" or "" |
| Gui.FormatRealScales | gui.c:584-588 | value times the unit's factor is the input; "M" iff above s², "K" iff in (s, s²], so a K value is in (1, s] |
| Gui.FormatInt | gui.c:584-588 | the unit is "M", "K" or "" |
| Gui.FormatIntScales | gui.c:584-588 | with integer division the value times the factor is within one factor below the input; the same unit bands as the real form |
| Gui.WasTextureExported | gui.c:641-647 | the result is the first earlier emitter using the same texture, or `id` when there is none |

## Left out

- Rendering: the raylib draw calls, blend modes, screen culling and the pixel and drawn counters of `EmitterDraw`. Only its slot order, rotation, animation frame and atlas cell are modelled.
- Floating point: floats are exact reals, so rounding, NaN and infinities are not captured.
- Trigonometry, `Vector2Normalize` and the easing curves are parameters, not defined here.
- `GenerateRandomColor` and raylib's random number generator are not modelled: every draw is an input value.
- One frame time `dt` stands for every `GetFrameTime()` read within one `EmitterUpdate` call, since raylib returns the same value within a frame.
- `particles.max` is the length of the pool array.
- A NULL colour buffer is an empty colour sequence; an unset (NULL) easing of a zeroed configuration is the value `NoEasing`.
- Spawn.GenerateTextureIndex: when the atlas has at most one frame, C leaves `p.tidx` uninitialised; the model sets it to 0.
- Colors.Interpolate: it requires an age in [0, life) whenever two or more colours are in use. The code has no such guard; `InterpolateClamped` is the corrected form with no age requirement (see Findings).
- Motion.SumForces: sums the first `forces.count` forces, clipped to the buffer length; a count above the buffer reads past it in C.
- Emitters.UpdateKeepsLiveCount: requires `age.min > 0`; a particle whose sampled life is 0 would occupy no slot yet be counted.
- The pulse scenario of two bursts of five over one life, and the 50/50 ring split, are properties of repeated frames and of the random source; they are not proved.
- Memory accounting (`statistics.total_mem`), allocation failures and `free`/`UnloadTexture` in `EditorRemoveEmitter` are left out of the model.
- Copy and paste of emitters, saving, loading and texture export beyond `WasTextureExported` are not part of this model.
- GUI layout and widgets are out of scope; a window's edits arrive as plain values.
- `FORMAT_MEASUREMENT` is one macro used on the `unsigned long long` pixel counter (global.h:66) with the scale `1000.0`, which makes its division a `double` one, and on `int` memory sizes with the scale `1024`, which makes it C's truncating integer division; it is modelled twice, by `FormatReal` and `FormatInt`.

## Findings

| source | as written | input that shows it | evidently intended | confidence | as-written member | corrected member |
|---|---|---|---|---|---|---|
| particles.h:477 | the textured rotation eases with delta `rotation.end - scale.start` | rotation 0 to 0, scale start 1, at the end of life: the textured quad is at -1 degree, the untextured one at 0 | delta `rotation.end - rotation.start`, as the untextured branch at particles.h:562 uses | high (not executed) | Drawing.TexturedRotationQuirk | Drawing.IntendedTexturedRotationAgrees |
| particles.h:442-447 | `idx = floorf(time*max/life)` with no clamp; a particle aged past its life in `EmitterUpdate` is drawn before it is reclaimed | life 1, age 0.75, frame 0.5: age 1.25; with 3 colours idx 2 reads `colors[3]`, with 16 colours idx 18 reads past the 16-colour buffer | keep idx at most `count - 2`, so an over-aged particle shows the last stretch | medium (not executed) | Colors.OverAgedSelectsPastGradient | Colors.InterpolateClampedAgrees |
