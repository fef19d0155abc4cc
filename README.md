# Silent Archive: chord-hold detector and particle overlay

This project models the two pieces of logic in `index.jsx` of the Silent Archive
front end, and proves properties about them.

- **The chord-hold detector** (`useChordHold`). It keeps a set of pressed keys,
  lower-casing each key name. When every target key is down, it starts a hold
  and plays the `'scanning'` cue. On every animation frame it reports progress
  as `min(elapsed / duration * 100, 100)`. Once the hold has lasted `duration`
  milliseconds, it calls `onSuccess` and sets a latch. A 2000 ms timer clears
  the latch again. Releasing a key that breaks the chord resets the hold. The
  application mounts it with the keys `c`, `o`, `2` and 2000 ms.
- **The particle overlay** (`ParticleOverlay`). It creates 250 particles in
  `frost` mode and 80 in any other mode (the application passes `ash`). On each
  frame, every particle moves by its velocity. In frost mode the velocity then
  takes a random-walk step and is capped. The opacity takes a random-walk step.
  Finally the position wraps at the canvas edges and the opacity is reset at
  its bounds.

Files:

- `keys.dfy`, module `Keys`: lower-casing of key names and the `checkChord`
  predicate.
- `chord_hold.dfy`, module `ChordHold`:
  - the detector state as a `Hold` value;
  - one transition function per event (key-down, key-up, animation frame,
    cooldown expiry) and the invariant `Consistent`;
  - the class `Detector`. Its fields change in place, as the hook's refs do,
    and each of its methods is proved equal to the matching transition
    function.
- `particles.dfy`, module `Particles`:
  - the `Particle` datatype, `Spawn` (one particle of `createParticles`) and
    `Step` (the per-particle body of `render`);
  - `CreateParticles`, the push loop;
  - `Render`, which updates an array of particles in place with a loop.

How the environment is modelled:

- Every `Math.random()` draw is a parameter in [0, 1). `SpawnDraws` holds the
  draws for one particle, in the order the object literal makes them.
  `StepDraws` holds the draws of one frame.
- `Date.now()` is an explicit `now` argument. Its type `Millis` holds the
  positive integers. An epoch reading is never 0, so the source's falsy test
  `!startTimeRef.current` means exactly "no start time".
- `onSuccess` is a success counter. The `'scanning'` cue is an entry appended
  to a cue log.
- `requestAnimationFrame` is a `framePending` flag. Calling `Tick` means the
  frame has fired.
- `setTimeout` is a `cooldownDue` time. `CooldownExpires` may be called once
  that time is reached.
- Numbers are Dafny `real`s.

## Model

| member | source | states |
|---|---|---|
| Keys.LowerChar | index.jsx:164 | an upper-case letter becomes its own lower-case form (code + 32), every other character is kept, and no upper-case letter comes out |
| Keys.Lower | index.jsx:164 | `toLowerCase` keeps the length of a key name and leaves no upper-case letter in it |
| Keys.LowerAt | index.jsx:164 | character k of the lower-cased name is character k of the name, lower-cased |
| Keys.LowerCharEqualIff | index.jsx:164 | two characters lower-case to the same character exactly when they differ at most in case |
| Keys.LowerEqualIff | index.jsx:164 | two key names normalise to the same key exactly when they differ at most in case, position by position (both directions), so "C" and "c" are one key and "C" and "O" stay apart |
| Keys.LowerFixedIff | index.jsx:164 | a key name is its own lower-case form exactly when it has no upper-case letter |
| Keys.LowerIdempotent | index.jsx:164-166 | lower-casing an already lower-cased name changes nothing, so every stored key is in normal form |
| Keys.ChordSatisfied | index.jsx:160 | `checkChord`: when it holds, every target name, lower-cased, is in the pressed set; an empty target list always satisfies it |
| Keys.ChordSatisfiedIff | index.jsx:160 | `checkChord` holds exactly when every target name, lower-cased, is in the pressed set (both directions) |
| Keys.EmptyChordAlwaysSatisfied | index.jsx:160 | an empty target list is always satisfied, because nothing rejects it |
| Keys.ChordMonotone | index.jsx:160-166 | adding keys to the pressed set never breaks a satisfied chord |
| Keys.ReleaseOfNonTarget | index.jsx:194-195 | releasing a key that no target names leaves `checkChord` as it was |
| ChordHold.Mounted | index.jsx:154-161 | the state at mount: progress 0, no start time, the latch clear, an empty pressed set, no frame or timer scheduled, no success and no cue |
| ChordHold.Min | index.jsx:175 | `Math.min` returns the smaller of its two arguments |
| ChordHold.Progress | index.jsx:175 | progress is at most 100; it is at least 0 when elapsed >= 0 and duration > 0; it is exactly 100 once elapsed >= duration; before that it is elapsed/duration*100 |
| ChordHold.ProgressMonotone | index.jsx:174-175 | with a positive duration, more elapsed time never gives less progress |
| ChordHold.StartsHold | index.jsx:168 | the key-down guard: when it holds, the key is new, every lower-cased target is pressed once the key is added, no hold is timing and the latch is clear |
| ChordHold.AfterKeyDown | index.jsx:163-190 | a key-down adds the lower-cased key to the pressed set; it never calls `onSuccess`, never touches the latch or the cooldown, and never changes the reported progress |
| ChordHold.AfterKeyUp | index.jsx:192-200 | a key-up removes the lower-cased key; it never calls `onSuccess`, plays no cue, and leaves the latch and the cooldown alone; it never starts a hold (the start time is kept or cleared), and when no hold is timing it changes nothing but the pressed set |
| ChordHold.AfterTick | index.jsx:172-187 | a frame leaves the keys and cues alone; it does nothing without a start time; it adds at most one success |
| ChordHold.AfterCooldown | index.jsx:183 | the timer clears the latch and disarms itself, and nothing else changes |
| ChordHold.RepeatedKeyDownIsNoop | index.jsx:164-165 | a key-down for a key already pressed (after lower-casing) changes nothing, so the hold timer is not restarted |
| ChordHold.KeyDownStartsHoldIff | index.jsx:166-170 | a key-down starts a hold exactly when the key is new, every lower-cased target is then pressed, no hold is timing, and the latch is clear; the hold is then timed from `now`, exactly one scanning cue is added, and a frame is scheduled |
| ChordHold.KeyDownIgnoresCase | index.jsx:164-166 | key-downs of two names that differ only in case lead to the same state |
| ChordHold.LatchBlocksKeyDown | index.jsx:168 | while the latch is set, no key-down starts a hold or plays a cue |
| ChordHold.KeyUpResetsIff | index.jsx:194-199 | during a hold, a key-up clears the start time exactly when the chord is no longer satisfied; it then sets progress to 0 and cancels the frame; otherwise the timing state is untouched |
| ChordHold.KeyUpIgnoresCase | index.jsx:193-194 | key-ups of two names that differ only in case lead to the same state |
| ChordHold.ReleaseOfOtherKeyKeepsHold | index.jsx:194-195 | in a consistent state, releasing a key that is not a target key never disturbs the hold |
| ChordHold.TickWithoutHoldIsNoop | index.jsx:173 | a frame that finds no start time does nothing |
| ChordHold.TickReportsProgress | index.jsx:174-176 | a frame before the duration has elapsed reports `Progress(elapsed, duration)`, which is in [0, 100) for monotone time and a positive duration; it keeps the hold and schedules the next frame |
| ChordHold.TickCompletesIff | index.jsx:178-186 | a success is counted exactly when a frame sees elapsed >= duration; that frame sets the latch, clears the start time, sets progress to 0, schedules no frame, and arms the cooldown for now + 2000 |
| ChordHold.ProgressNonDecreasing | index.jsx:174-176 | across two frames of one hold at non-decreasing times, progress does not go down |
| ChordHold.MountedIsConsistent | index.jsx:154-161 | the state right after mounting satisfies the invariant |
| ChordHold.KeyDownKeepsConsistent | index.jsx:163-190 | a key-down preserves the invariant: keys lower-cased; frame pending exactly while timing; a timing hold has the full chord and a clear latch; latch set exactly while the cooldown is armed; progress 0 when idle |
| ChordHold.KeyUpKeepsConsistent | index.jsx:192-200 | a key-up preserves the invariant |
| ChordHold.TickKeepsConsistent | index.jsx:172-187 | a frame preserves the invariant |
| ChordHold.CooldownKeepsConsistent | index.jsx:183 | cooldown expiry preserves the invariant |
| ChordHold.ApplyKeepsConsistent | index.jsx:163-200 | any single event preserves the invariant |
| ChordHold.RunKeepsConsistent | index.jsx:163-200 | every state reachable by any sequence of events satisfies the invariant |
| ChordHold.LatchBlocksSuccess | index.jsx:168-183 | while the cooldown timer has not fired, no sequence of key events and frames adds a success, and the latch stays set |
| ChordHold.SuccessesBoundedByCooldowns | index.jsx:168-183 | over any run, the successes gained never exceed the number of cooldown expiries, plus one if the run started with the latch clear |
| ChordHold.ReleaseThenRepressRestarts | index.jsx:169-175 | after an early release, a new full chord sets the start time to the new `now`, and the next frame reports the progress of the new hold, not the old one |
| ChordHold.UnlockHappyPath | index.jsx:231 | with targets "c", "o", "2" and 2000 ms: pressing "C" (upper-case), "o" and "2" starts one hold with one cue; the frame at +1000 ms reports 50; the frame at +2000 ms counts exactly one success and resets progress |
| ChordHold.UnlockReleaseBeforeChord | index.jsx:231 | pressing "c" and "o", then releasing "o" before "2" is pressed, never starts a hold; progress stays 0 and no cue plays |
| ChordHold.Detector.constructor | index.jsx:153-161 | mounting yields the empty state under the given target keys and duration (2000 ms by default), and the invariant holds |
| ChordHold.Detector.CurrentProgress | index.jsx:211 | the hook returns the current progress, which is 0 when no hold is timing |
| ChordHold.Detector.KeyDown | index.jsx:163-190 | the in-place key-down handler leaves exactly the state `AfterKeyDown` gives, and keeps the invariant |
| ChordHold.Detector.KeyUp | index.jsx:192-200 | the in-place key-up handler leaves exactly the state `AfterKeyUp` gives, and keeps the invariant |
| ChordHold.Detector.Tick | index.jsx:172-187 | the in-place `animate` callback leaves exactly the state `AfterTick` gives, and keeps the invariant |
| ChordHold.Detector.CooldownExpires | index.jsx:183 | the timer callback, fired no earlier than it is due, leaves exactly the state `AfterCooldown` gives |
| Particles.UnitScale | index.jsx:89-90 | a draw in [0, 1) times a non-negative extent lies in [0, extent], and strictly below a positive extent |
| Particles.ParticleCount | index.jsx:86 | `createParticles` makes 250 particles in frost mode and 80 in ash mode |
| Particles.Spawn | index.jsx:88-97 | a created particle is on the canvas; its opacity is in [0.1, 0.6) and its size in [0.5, 2.5); its velocity is in the mode's ranges; it is frost blue exactly in frost mode; in ash mode it is red exactly when the colour draw exceeds 0.9 |
| Particles.SpawnSettled | index.jsx:88-97 | a freshly created particle already satisfies the bounds that every frame keeps |
| Particles.Step | index.jsx:104-121 | whatever the draws: opacity ends in (0, 0.8]; x in [0, width]; y <= height, with y = -10 exactly when the vertical wrap fires; in frost mode vx is in [-1, 1] and vy in [0.1, 1.5]; in ash mode the velocity is unchanged; size and colour never change. Exactly: x advances by vx, becomes 0 past the right edge and width past the left edge; in frost mode each velocity component takes its random-walk step `(draw - 0.5) * 0.02` and is clamped to its cap when the step leaves the range; opacity takes the step `(draw - 0.5) * 0.01`, becomes 0.1 when that is at or below 0 and 0.8 when above 0.8 |
| Particles.AlphaDriftIsSmall | index.jsx:117 | away from its bounds, opacity moves by less than 0.005 per frame |
| Particles.AlphaCanDropBelowTenth | index.jsx:121 | opacity 0.1 with a zero draw becomes 0.095 and is not reset, because only values <= 0 are reset |
| Particles.LeftWrapLandsOnWidth | index.jsx:120 | a particle leaving the left edge is placed exactly at x == width |
| Particles.StepAll | index.jsx:104 | one frame keeps the number of particles |
| Particles.StepAllAt | index.jsx:104-121 | after a frame, particle k is particle k stepped with its own draws |
| Particles.StepAllSettles | index.jsx:104-121 | after any frame on a canvas of non-negative size, every particle satisfies the bounds |
| Particles.Animate | index.jsx:132 | any number of frames keeps the number of particles |
| Particles.AnimateKeepsSettled | index.jsx:100-134 | starting from created particles, the bounds hold after any number of frames |
| Particles.CreateParticles | index.jsx:85-99 | `createParticles` pushes exactly 250 (frost) or 80 particles, particle i built from draw record i; with valid draws all of them satisfy the bounds |
| Particles.Render | index.jsx:102-131 | one frame updates the array in place, and its new contents are exactly `StepAll` of its old contents |

The bounds the code gives are looser than one might expect, and the model
states them as the code has them:

- Opacity stays in (0, 0.8], not in [0.1, 0.8]. The code resets only values
  `<= 0` to 0.1 (line 121).
- The vertical wrap puts `y` at -10, not 0 (line 119). So `y` has no lower
  bound of 0.
- `x` can equal `width` (line 120), so the horizontal range is [0, width], not
  [0, width).
- Nothing rejects an empty target list or a non-positive duration. No such check
  is added.

## Left out

- `playSound` (audio synthesis through browser APIs): the cue the detector
  plays is a log entry. The `'freeze'` cue belongs to the application's
  callback, not to the detector.
- Canvas drawing: `clearRect`, the filled discs and the frost sparkle, including
  its random draw.
- The resize listener: each call takes the canvas size as a parameter, and
  `Animate` keeps it fixed across frames.
- Scheduling `render` itself with `requestAnimationFrame`: `Animate` runs a
  given number of frames.
- Teardown and React's lifecycle. The model is one stable mount, so the
  following are not modelled:
  - unsubscribing the listeners and cancelling the frame on unmount;
  - the effect re-subscribing on every render of the application, with an
    empty pressed set and the same refs;
  - React batching of `setProgress`: progress is the last value set.
- Re-subscription during a hold: the invariant `Consistent` and
  `UnlockHappyPath` hold for one stable mount only. In the application as written, `App` passes a fresh key array and
  a fresh closure on every render (line 231). A `setProgress` re-render can
  therefore run the effect's cleanup (line 207), which cancels the frame just
  scheduled (line 185) while `startTimeRef` stays set. The hold may then stall
  with no frame pending, a state the model does not reach.
- `useMousePosition`, view routing, JSX and the `ITEMS` catalogue: declarative
  UI and static data.
- Keys.Lower: only ASCII letters are lower-cased, not the full Unicode case
  mapping of `toLowerCase`.
- Floating-point rounding: all arithmetic is exact real arithmetic.
- ChordHold.Progress: for a zero duration, JavaScript gives NaN at
  `elapsed == 0` and -Infinity for negative elapsed time. The model gives 0 in
  both cases. At `elapsed == 0` the same frame completes and resets progress to
  0, so only a clock that runs backwards would show the difference.
- A mode string other than `'frost'` is modelled as `Ash`, which matches every
  comparison in the code.
