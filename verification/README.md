# Aim trainer: game loop and session statistics in Dafny

This project models the core of a browser aim-trainer mini-game. A circular target
appears at a random spot on a canvas after a random delay. The player clicks it, a
burst of sparks flies out, and a new target is scheduled. A click that misses, or
that comes while no target is live, counts as a miss and shakes the camera. A
60-second countdown ends the session. A summary then shows hits, accuracy and
average reaction time.

Two components are modelled.

- The game container (`src/components/GameContainer.tsx`) holds the screen status
  (`start`, `playing`, `summary`), the session statistics and the remaining
  seconds. It also derives the displayed accuracy and average reaction time. The
  modules `Stats`, `Session` and `Scenarios` cover it.
- The game canvas (`src/components/GameCanvas.tsx`) holds the loop's hot state:
  the live target, the particles, the last pointer position and the shake
  magnitude. The modules `Canvas` and `Particles` cover:
  - the pointer-down handler: hit test, burst and shake;
  - the update half of an animation frame;
  - the spawn delay and spawn position arithmetic.

  The module `Countdown` covers the updater that the canvas's one-second interval
  hands to the container's timer setter.

`Game` joins the two parts. It feeds the shots that a canvas run reports into the
container's reducers.

Modelling choices:

- Numbers are ideal: `real` for positions, velocities, times, opacity and shake,
  and `nat` for counters. JavaScript's `Math.round` is `Rounding.Round`, which is
  `floor(x + 1/2)`.
- Each `Math.random()` call becomes a parameter in [0, 1). It is passed in the
  order the source draws it. One spark takes five draws (`Particles.SparkDraw`).
- Each `performance.now()` and `Date.now()` reading becomes a parameter. Runs can
  require the monotonic clock never to go backwards (`Canvas.ClockMonotone`).
- Timers become events. A `setTimeout` spawn that is scheduled but has not fired
  is counted in `HotState.pendingSpawns`. A tick of the one-second interval is
  `SecondElapsed` in `Session` or one `Countdown.Second`. An animation frame is
  `AnimationFrame`.
- The button, pointer and canvas-size readings of a DOM event are event
  parameters.

Three facts about the code that the model keeps:

- Restart goes straight from the summary to playing, because the restart handler
  calls the start handler directly; the start screen is shown only at first
  render (`Session.Restart`, `Session.Edge`).
- On a canvas side shorter than 50 px the spawned centre falls outside
  [25, side - 25], so the target overlaps both edges of that side
  (`Canvas.SpawnCoordinate`).
- Unmount cancels the animation frame and the interval but not a pending spawn
  timeout.

## Model

| member | source | states |
|---|---|---|
| Stats.RecordHit | src/components/GameContainer.tsx:41-48 | a hit adds one hit and one shot, keeps the misses, appends the reaction time as the last sample, and keeps the counters consistent |
| Stats.RecordMiss | src/components/GameContainer.tsx:50-56 | a miss adds one miss and one shot, keeps hits and samples, and keeps the counters consistent |
| Stats.Record | src/components/GameContainer.tsx:41-56 | one reported shot adds one to the shot counter and one to the hit or the miss counter, by its kind; a hit appends its reaction time as the last sample, a miss leaves the samples alone |
| Stats.RecordAllCounts | src/components/GameContainer.tsx:41-56 | applying any run of shots adds its hit count, miss count and length to the three counters, and appends exactly the hits' reaction times in shot order |
| Stats.CountsCoverShots | src/components/GameContainer.tsx:41-56 | every shot is counted as exactly one hit or one miss, and each hit carries one sample |
| Stats.SessionStaysConsistent | src/components/GameContainer.tsx:41-56 | starting from the reset statistics, any sequence of shots leaves totalShots = hits + misses and one sample per hit, namely the hits' reaction times |
| Stats.Accuracy | src/components/GameContainer.tsx:16-19 | accuracy is 0 before the first shot and an integer in [0, 100] whenever hits do not exceed shots |
| Stats.AccuracyIsIntegerRatio | src/components/GameContainer.tsx:16-19 | the rounded percentage equals the all-integer reference (200 hits + shots) div (2 shots) |
| Stats.AccuracyMoves | src/components/GameContainer.tsx:16-19 | on consistent statistics, a hit never lowers the displayed accuracy and a miss never raises it |
| Stats.AvgReactionTime | src/components/GameContainer.tsx:21-25 | the average is 0 without samples; otherwise it is the integer r nearest the mean, i.e. (r - 1/2) n <= sum < (r + 1/2) n for n samples; it is never negative when no sample is |
| Stats.AvgWithinSampleRange | src/components/GameContainer.tsx:21-25 | when every sample lies in [lo, hi], the displayed average lies between round(lo) and round(hi) |
| Stats.Sum | src/components/GameContainer.tsx:23 | the sum of a single sample is that sample |
| Stats.SumAppend | src/components/GameContainer.tsx:23 | the sum of two concatenated sample lists is the sum of the sums, so the left-to-right reduce from 0 is the total of the samples |
| Stats.SumAtLeast | src/components/GameContainer.tsx:23 | n samples that are each at least lo add up to at least n times lo |
| Stats.SumAtMost | src/components/GameContainer.tsx:23 | n samples that are each at most hi add up to at most n times hi |
| Rounding.Round | src/components/GameContainer.tsx:18 | the rounded value is the integer within one half of x, with a tie going up, as `Math.round` does |
| Rounding.RoundMonotone | src/components/GameContainer.tsx:18 | rounding keeps the order of its arguments |
| Scenarios.MissesFirst | src/components/GameContainer.tsx:50-56 | a run of k misses changes only the miss and shot counters, each by k, whatever follows |
| Scenarios.MissesThenHit | src/components/GameContainer.tsx:41-56 | k misses and then one hit give 1 hit, k misses, k + 1 shots and the one sample |
| Scenarios.ThreeMissesThenHit | src/components/GameContainer.tsx:16-19 | three misses then a hit give hits 1, misses 3, shots 4 and an accuracy of 25 |
| Scenarios.SingleHit | src/components/GameContainer.tsx:41-48 | one hit from the reset statistics gives one hit in one shot with its reaction time as the only sample |
| Scenarios.PressAt500 | src/components/GameCanvas.tsx:120-133 | a primary press at 500 ms that hits a target spawned at 0 ms reports a hit with reaction time 500 |
| Scenarios.OneSampleDisplay | src/components/GameContainer.tsx:16-25 | statistics of one hit in one shot with the single sample 500 display 100 percent and a 500 ms average |
| Scenarios.SingleHitDisplay | src/components/GameCanvas.tsx:120-133 | a primary press at 500 ms that hits a target spawned at 0 ms reports Hit(500); recorded on the reset statistics it gives 1 hit, 0 misses, 1 shot and the sample 500, shown as 100 percent and a 500 ms average |
| Session.StartGame | src/components/GameContainer.tsx:27-31 | starting shows the playing screen with reset statistics and the full 60 seconds, whatever came before |
| Session.Restart | src/components/GameContainer.tsx:37-39 | restarting from the summary is exactly a start |
| Session.EndGame | src/components/GameContainer.tsx:33-35 | ending shows the summary and leaves statistics and timer untouched |
| Session.OnShot | src/components/GameContainer.tsx:67-73 | a shot reported by the canvas changes only the statistics, by the matching reducer |
| Session.OnSecond | src/components/GameCanvas.tsx:161-170 | a second leaves the statistics alone, counts the timer down by one, and at 1 or less sets it to 0 and shows the summary |
| Session.StepKeepsInv | src/components/GameContainer.tsx:58-85 | every event the mounted screen offers keeps the invariant and takes an allowed edge; the summary is entered only by the second that ran out the countdown; playing is entered only with reset statistics and full time |
| Session.ReadyAdvances | src/components/GameContainer.tsx:58-85 | from a state that keeps the invariant with offered events ahead, the first event leads to such a state again, and the run continues from there |
| Session.RunKeepsInv | src/components/GameContainer.tsx:58-85 | every run of offered events keeps the invariant: statistics stay consistent, the start screen has no shots, 1 to 60 seconds remain while playing, and the summary shows 0 |
| Session.BootRunsKeepInv | src/components/GameContainer.tsx:12-14 | from the first render, every run of offered events keeps the invariant |
| Session.PlayingLastsTimer | src/components/GameCanvas.tsx:161-170 | a playing session with t seconds left is still playing with t - k left after k < t seconds, and second t shows the summary at 0 with the statistics untouched |
| Countdown.Tick | src/components/GameCanvas.tsx:162-169 | the updater signals the end iff the previous value is at most 1, and then yields 0; otherwise it yields one less, which is still at least 1 |
| Countdown.Second | src/components/GameCanvas.tsx:161-170 | a cleared interval does nothing; a live one signals the end iff at most 1 second is left, and is then cleared at 0; otherwise it stays live with one second less |
| Countdown.CancelledStaysSilent | src/components/GameCanvas.tsx:164 | a cleared interval signals nothing in any later period and stays as it is |
| Countdown.EndSignalledOnce | src/components/GameCanvas.tsx:157-170 | from d ≥ 1 seconds, the end is signalled in exactly one period, number d; before that the time counts down by one per period, and afterwards the interval is cleared at 0 |
| Canvas.SpawnDelay | src/components/GameCanvas.tsx:30 | the spawn delay lies in [800, 1500) ms |
| Canvas.SpawnCoordinate | src/components/GameCanvas.tsx:35-36 | on a side of at least 50 px, the centre lies in [25, side - 25], and is strictly below side - 25 when the side is longer; on a shorter side it lies in (side - 25, 25] |
| Canvas.SpawnedTarget | src/components/GameCanvas.tsx:33-39 | the new target has the given id and spawn time and radius 25; on a canvas larger than a diameter both ways, its centre is inset by the radius |
| Canvas.PlaceTarget | src/components/GameCanvas.tsx:32-40 | a firing spawn timeout makes the new target live, consumes one pending spawn, and leaves particles, pointer and shake alone |
| Canvas.PointerMove | src/components/GameCanvas.tsx:115-118 | the stored pointer is the viewport position less the canvas's top-left corner; nothing else changes |
| Canvas.Hits | src/components/GameCanvas.tsx:129-131 | a pointer on the centre hits iff the radius is non-negative, and a hit lies within the radius of the centre on each axis |
| Canvas.HitsIsDistanceTest | src/components/GameCanvas.tsx:129-131 | the squared-distance test holds iff the Euclidean distance is at most the radius, the boundary included |
| Canvas.PointerDown | src/components/GameCanvas.tsx:120-154 | a non-primary button is ignored. With no target, or with the pointer outside it, the shake is set to 15, a miss is reported and the target is kept. On a hit, the reported reaction time is now minus the spawn time; the target is cleared and one spawn is scheduled; 20 sparks are appended at the target centre with full opacity and radius in [1, 4), and the old particles are kept in front |
| Canvas.DecayShake | src/components/GameCanvas.tsx:53-55 | a positive shake strictly shrinks but stays positive; a non-positive one is kept |
| Canvas.DecayByIsGeometric | src/components/GameCanvas.tsx:53-55 | after k frames a non-negative shake is multiplied by 0.9^k |
| Canvas.MissShakeLasts | src/components/GameCanvas.tsx:53-55 | after a miss, the shake is above the visibility threshold 0.5 exactly in the frames k < 33 |
| Canvas.ShakeOffset | src/components/GameCanvas.tsx:70-74 | a camera offset is drawn iff the shake exceeds 0.5, and each component then lies in [-shake/2, shake/2) |
| Canvas.Frame | src/components/GameCanvas.tsx:51-64 | a frame keeps target, pointer and pending spawns, never lets a non-negative shake grow or go negative, and advances the particles by one step |
| Canvas.ApplyKeepsInv | src/components/GameCanvas.tsx:120-154 | every enabled event keeps the invariant: shake non-negative; either a live target of radius 25 or exactly one pending spawn, never both; every particle well formed |
| Canvas.RunKeepsInv | src/components/GameCanvas.tsx:120-158 | every enabled run keeps that invariant and reports exactly one shot per primary-button press |
| Canvas.ReactionTimesNonNegative | src/components/GameCanvas.tsx:132 | with a clock that never goes backwards, every reported reaction time is non-negative |
| Particles.Velocity | src/components/GameCanvas.tsx:141-142 | a spark's velocity component lies strictly between -4 and 4 |
| Particles.Spark | src/components/GameCanvas.tsx:137-145 | a spark starts at the target centre, fully opaque, in the accent colour, with radius in [1, 4) and both velocity components in (-4, 4) |
| Particles.Burst | src/components/GameCanvas.tsx:136-146 | a burst has one spark per draw, in draw order |
| Particles.Advance | src/components/GameCanvas.tsx:58-63 | one frame moves a particle by its velocity and lowers its opacity by 0.02, keeping velocity, radius and colour |
| Particles.Moved | src/components/GameCanvas.tsx:57-63 | the map moves and fades each particle in place and keeps the list's length |
| Particles.Step | src/components/GameCanvas.tsx:57-64 | a frame never lengthens the list, and keeps exactly the moved and faded particles whose opacity is still positive |
| Particles.Survivors | src/components/GameCanvas.tsx:64 | the filter keeps exactly the particles with positive opacity and never lengthens the list |
| Particles.SurvivorsKeepOrder | src/components/GameCanvas.tsx:64 | the filter keeps the surviving particles in their relative order |
| Particles.StepKeepsOrder | src/components/GameCanvas.tsx:57-64 | a frame keeps the surviving moved particles in their order |
| Particles.SurvivorsAppend | src/components/GameCanvas.tsx:64 | filtering a list made of two parts filters each part on its own |
| Particles.StepAppend | src/components/GameCanvas.tsx:57-64 | a frame updates particles independently, so sparks appended at the end leave the update of the earlier particles unchanged |
| Particles.StepKeepsWellFormed | src/components/GameCanvas.tsx:57-64 | a frame keeps every particle visible, at most fully opaque, with a spark's radius |
| Particles.FadeBound | src/components/GameCanvas.tsx:62-64 | after k frames every remaining particle has lost at least k fade steps of 0.02 |
| Particles.AllGoneAfterFifty | src/components/GameCanvas.tsx:57-64 | particles at most fully opaque are all gone after 50 or more frames |
| Particles.SurvivesWhileVisible | src/components/GameCanvas.tsx:57-64 | a particle with more than k fade steps of opacity is still there after k frames, moved k times and faded by k steps |
| Particles.SparkLifetime | src/components/GameCanvas.tsx:57-64 | a fresh spark is present, moved and faded, for k < 50 frames and gone from frame 50 on |
| Game.TimesOfNonNegative | src/components/GameContainer.tsx:46 | the samples collected from non-negative hits are non-negative |
| Game.SessionStatistics | src/components/GameCanvas.tsx:120-154 | the shots of a session on a freshly mounted canvas with a monotonic clock leave consistent statistics, one shot per primary-button press, accuracy in [0, 100] and a non-negative average |

## Left out

- Drawing is not modelled: clearing, target, particles, crosshair, and the save, translate and restore calls. Only the shake offset that drawing uses is modelled, as `Canvas.ShakeOffset`.
- The scheduler is not modelled: `requestAnimationFrame`, `setInterval`, `setTimeout` and their interleaving with input. Events arrive as sequences, and spawn timeouts are counted, not timed. The model does not state that a new target appears within one spawn delay after a hit. It only shows that exactly one spawn is pending until it fires.
- Listener registration and teardown are not modelled. The pending spawn timeout is not cancelled on unmount, and the model does not cover what it does after unmount.
- The resize observer and DOM layout reads are not modelled. Canvas width and height, and the canvas's top-left corner, are event parameters.
- The `if (!canvas) return` and `if (!ctx) return` checks are left out, because the model always has a canvas.
- The presentation components (start screen, HUD, summary screen) and the mount in `App.tsx` are left out. They only display values the model computes.
- Canvas.RunKeepsInv: the mount-time `setTimer(gameDuration)` and first `gameLoop()` call are not separate events. The run starts from `Canvas.Mounted`, which has one spawn pending.
- Canvas.HitsIsDistanceTest: the hit test compares squared distances instead of taking a square root. The two agree on reals.
- Canvas.PointerDown: the hit test uses the last pointer position stored by mouse-move, not the press event's own coordinates. That is what the code does.
- Particles.SparkLifetime: opacity is an ideal real, and the fifty fade steps reach exactly 0. With IEEE-754 doubles they do not: they leave a tiny negative number. The filter then drops the spark on the same frame, but the model does not prove that for doubles.
- Stats.Accuracy: the percentage is computed on ideal reals. With doubles, `(hits / totalShots) * 100` can land just below an exact half percent, for example at 57 hits in 200 shots, and then round down instead of up.
- Stats.AvgReactionTime: the mean is computed on ideal reals, so double rounding of the sum is not modelled.
- Session.OnSecond: the countdown updater runs inside a React state setter. Calling the updater twice in development strict mode is not modelled.
