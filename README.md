# Heart Catcher game core in Dafny

This project models the game-state core of Heart Catcher (`HeartCatcherGame` in `game.js`), a
tap game. Hearts and bombs fall down a canvas. Tapping a heart scores 10 points and tapping a
bomb costs 20. A game is won at 500 points and lost at -100.

The model covers the session flags and their transitions, the spawner, the per-tick simulation
step, and the tap resolver. It follows the code as written; in particular:
- the hit radius is exactly `width/2`, with no margin and no speed bonus (game.js:384);
- the click counter also counts bomb hits (game.js:393);
- a spawned object's `x` is not clamped when the canvas is narrower than the object (game.js:243);
- the win and lose checks are two independent `if`s (game.js:402-408).

Modules:

- `Objects` (`objects.dfy`): the falling-object record and the spawner's construction
  `NewObject`. It also holds one tick of motion (`Fall`, `Advance`, `Missed`) and the hit test
  (`Hits`, `LastHit`), with lemmas on each.
- `Particles` (`particles.dfy`): the particle record, the eight-particle `Burst` released by a
  hit, and one tick of ageing (`Age`), with lemmas.
- `Sequences` (`sequences.dfy`): one lemma about backward scans that splice or overwrite
  one element. Both tick loops use it.
- `Game` (`game.dfy`): the class `HeartCatcherGame`. Its fields are the ones the source
  updates in place, with `seq` fields for `objects` and `particles`. Its methods carry the
  source's loops and are proved against the functions above. `Valid()` is the object
  invariant every public operation keeps (the two tick loops `MoveObjects` and
  `AgeParticles` are internal steps of `Update`, which re-establishes it):
  - the baseline speed is never below its initial value;
  - every object is well formed and not below the canvas;
  - every particle is alive with at most a full life.
  A few client methods at the end state properties that span several calls.

The random draws (`Math.random()`) are parameters: `SpawnDraw` for a spawned object and one
`Draw` per particle. Each draw value is in [0, 1). The sine used for a heart's pulse is a
parameter `sin: real -> real` of `Update`, so the scale formula `1 + sin(pulse) * 0.08` is
kept exactly. The 300 ms delayed `winGame`/`gameOver` calls that a tap schedules are counted in
`pendingWins`/`pendingGameOvers`. `FirePendingWin`/`FirePendingGameOver` deliver one of them
each.

## Model

| member | source | states |
|---|---|---|
| `Objects.NewObject` | game.js:236-255 | A spawned object is a heart exactly when the type draw is below 0.7. It is square with a size in [50, 60) and starts fully above the canvas (`y == -size`). Its speed is in [currentSpeed, currentSpeed + 0.3). It starts with rotation 0, scale 1, pulse 0 and pulse speed 0.02. Its spin is in [-0.01, 0.01). It starts inside the canvas horizontally when the canvas is at least as wide as the object. |
| `Objects.Fall` | game.js:267-273 | Definition of one object's motion in a tick: `y` grows by `speed` and `rotation` by `rotationSpeed`. For a heart, `pulse` also grows by `pulseSpeed` and `scale` becomes `1 + sin(pulse) * 0.08`. |
| `Objects.FallMovesOnly` | game.js:267-273 | Falling changes only `y`, `rotation` and, for a heart, `pulse` and `scale`. Kind, `x`, size and every speed stay as they were. A bomb keeps its pulse and scale. |
| `Objects.Gone` | game.js:275 | Definition: an object leaves the game when its `y` is strictly below the canvas height. |
| `Objects.Advance` | game.js:264-281 | Definition of the objects after a tick: each falls, and those then `Gone` are dropped, in order. |
| `Objects.Missed` | game.js:275-279 | Definition of the missed count of a tick: one for each heart that is `Gone` after falling, none for bombs. |
| `Objects.AdvanceKeepsSurvivorsInOrder` | game.js:264-281 | After a tick, the objects left are exactly those whose `y + speed` is not below the canvas. Each has moved down by its own speed, none is below the canvas, and they keep their original relative order. |
| `Objects.MissedCountsHeartsOnly` | game.js:275-280 | The missed count a tick adds is at most the number of objects removed. With only bombs it is 0. With only hearts it equals the number of objects removed. |
| `Objects.MissedIsRemovedHearts` | game.js:264-281 | On every tick, the missed count plus the hearts still in play equals the hearts before the tick, so the count is exactly the number of hearts removed, whatever bombs fall beside them. |
| `Objects.AdvanceKeepsWellFormed` | game.js:264-281 | Falling keeps every object's shape and speed, so after a tick all objects are well formed and inside the canvas. |
| `Objects.Hits` | game.js:380-384 | Definition of the hit test: a positive width and a squared distance from the tap to the object's centre strictly below `(width/2)^2`. This is the source's `distance < width/2`. |
| `Objects.LastHit` | game.js:378-384 | The object a tap consumes is the highest-index object whose centre is strictly within `width/2` of the tap. No later object is hit. The result is None exactly when no object is hit. |
| `Objects.CentreTapHits` | game.js:380-384 | A tap on the exact centre of an object of positive width hits it. |
| `Objects.OutsideSquareMisses` | game.js:380-384 | A tap outside an object's square never hits it. |
| `Objects.Points` | game.js:385-391 | Definition: a heart is worth +10, a bomb -20. |
| `Particles.Spark` | game.js:417-425 | Definition of one burst particle from its three draws: it starts at the centre, with velocity `(r - 0.5) * 6` on each axis, size `r * 3 + 1`, the given colour and life 25. |
| `Particles.Burst` | game.js:415-426 | A burst has exactly 8 particles. Each starts at the given centre with the given colour and life 25, a velocity in [-3, 3) on each axis, and a size in [1, 4). |
| `Particles.Tick` | game.js:285-287 | Definition of one tick of one particle: it moves by its velocity and loses one unit of life. Velocity, size and colour stay as they were. |
| `Particles.Age` | game.js:283-292 | Definition of the particles after a tick: each is ticked, and those whose life is then at most 0 are dropped, in order. |
| `Particles.AgeKeepsLiveParticles` | game.js:283-292 | After a tick, the particles left are exactly those whose life was above 1. Each has moved by its velocity and has one unit of life less, so it is still alive. They keep their order, and there are never more particles than before. |
| `Game.BurstColour` | game.js:385-391 | Definition: a heart's burst is `#ff4757` and a bomb's is `#2d3436`. |
| `Game.HeartCatcherGame.constructor` | game.js:22-59 | The initial state: score 0, inactive and not paused, no objects or particles, speed at the base speed, all counters 0 and nothing scheduled. |
| `Game.HeartCatcherGame.StartGame` | game.js:213-222 | Resets the session: score 0, no objects or particles, active and not paused, speed back to the base speed, tick and click/miss counters 0. The new state depends only on constants, so calling it twice equals calling it once. Scheduled win and game-over calls are left alone. |
| `Game.HeartCatcherGame.SpawnObject` | game.js:236-256 | When paused or inactive, nothing changes. Otherwise exactly `NewObject(...)` is appended and the earlier objects are unchanged. No other field changes. |
| `Game.HeartCatcherGame.Update` | game.js:258-295 | When inactive or paused, nothing changes. Otherwise the speed grows by exactly 0.001 and the tick count by 1. The objects become `Advance` of the old ones. The missed count grows by `Missed` of the old objects. The particles become `Age` of the old ones. The object invariant is kept. |
| `Game.HeartCatcherGame.MoveObjects` | game.js:264-281 | The backward scan that moves each object and splices out those below the canvas leaves exactly `Advance(old objects)`. It adds exactly `Missed(old objects)` to the missed count. |
| `Game.HeartCatcherGame.AgeParticles` | game.js:283-292 | The backward scan that moves and ages each particle and splices out the dead ones leaves exactly `Age(old particles)`. |
| `Game.HeartCatcherGame.HandleClick` | game.js:369-413 | When inactive, paused, without a drawing context, or when the tap hits nothing, nothing changes. Otherwise only the object at `LastHit` is removed. The score moves by +10 for a heart and -20 for a bomb. The click count grows by 1 for either kind. Exactly the burst for that object's centre and colour is appended. A win is scheduled when the new score is at least the target, and a game over when it is at most -100. |
| `Game.HeartCatcherGame.Consume` | game.js:385-408 | The effects of a hit on object `i`: only that object is removed, the score moves by its points, the click count grows by 1, and exactly its burst is appended. A win is scheduled when the new score is at least the target, and a game over when it is at most -100. The object invariant is kept. |
| `Game.HeartCatcherGame.CreateParticles` | game.js:415-427 | Appends exactly the 8-particle `Burst` for the given centre, colour and draws. |
| `Game.HeartCatcherGame.WinGame` | game.js:429-431 | Deactivates the game. |
| `Game.HeartCatcherGame.GameOver` | game.js:509-518 | Deactivates the game and returns to the menu. |
| `Game.HeartCatcherGame.TogglePause` | game.js:520-521 | Negates `paused` and changes nothing else. |
| `Game.HeartCatcherGame.ShowMenu` | game.js:529-531 | Deactivates the game. |
| `Game.HeartCatcherGame.FirePendingWin` | game.js:402-404 | Delivering a scheduled win consumes one pending win and deactivates the game. |
| `Game.HeartCatcherGame.FirePendingGameOver` | game.js:406-408 | Delivering a scheduled game over consumes one pending game over and deactivates the game. |
| `Game.EndedSessionIsFrozen` | game.js:236-413 | Once the game is inactive (after a win, a game over or the menu), spawning, ticking and tapping change nothing. |
| `Game.TogglePauseTwice` | game.js:520-521 | Toggling pause twice restores the original state. |
| `Game.SpeedNeverDecreases` | game.js:258-262 | A tick never lowers the baseline speed. |
| `Game.StartTwice` | game.js:213-222 | Starting twice leaves the same fully reset session as starting once. |

## Left out

- Drawing is not modelled. That covers `draw`, `createHeartImage`, `createBombImage` and `createConfetti` with its animation loop, and the `draw()` calls at the end of `startGame` and `update`. They render only and change no game state.
- `init`, `loadImages`, `loadBackgroundImage`, `setCanvasSize` and the resize handler are not modelled. They are DOM and asset I/O. The canvas size is a constructor parameter with a positive height. The only trace of `init` is the constant `hasContext`, which stands for whether a drawing context was obtained.
- `setupEventListeners`, screen switching through `classList`, the pause button's text and colour, the canvas press-scale effect, `alert`, `console` output and the Telegram bootstrap are not modelled. They are DOM wiring only.
- `restartGame` is not modelled. It only switches DOM screens.
- The interval timers are not modelled. The spawner and the tick are plain method calls. `setInterval`/`clearInterval` are left out: spawning and ticking are already guarded by `gameActive`, and it is false whenever the intervals are cleared.
- The `setTimeout` delays are not modelled as time. That covers the 300 ms win/game-over delay, the 1500 ms win-screen delay and the 100 ms press effect. Scheduled calls are counters that explicit methods consume.
- The translation of `handleClick` from client to canvas coordinates is not modelled. `HandleClick` receives canvas coordinates.
- `Math.random()` and `Math.sin` are not modelled. They are parameters.
- Floating-point rounding is not modelled. Positions, sizes and speeds are exact reals. The hit test compares squared distances instead of taking a square root; this is exact because a distance is never negative.
- The diagnostic `id` of a spawned object (`Date.now() + Math.random()`) is not modelled. Nothing reads it.
- Update in place is modelled on values. The source mutates each object before it decides whether to splice it out. The model computes the moved object and then either writes it back or splices the slot out. Nothing else refers to a removed object, so the resulting arrays are the same.
