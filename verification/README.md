# Side-scrolling shooter: a Dafny model of the frame update

This project models the simulation core of a small browser canvas shooter
(`script.js`). The player moves vertically at the left of a 1000 x 500 canvas
and fires projectiles to the right. Enemies enter from the right edge and move
left. One frame (`Game.update`) does the following in order:

1. it moves and clamps the player and handles its fire cooldown;
2. it advances the player's projectiles and prunes the dead ones;
3. it may spawn an enemy;
4. it moves every enemy, charging 25 health when one touches the player and
   scoring 10 for every projectile overlapping it;
5. it drops dead enemies.

A pointer press on the restart rectangle after game over resets everything.

Everything is an immutable datatype over `int`, and every operation is a
pure function:

- `Seqs`: `Array.prototype.filter` as `Filter`.
- `Geometry`: the canvas size and the AABB overlap test `Hit` (`Game.hit`).
- `Entities`: `Projectile`, `Enemy`, their `update` methods and the `Enemy`
  constructor.
- `Players`: the `Player` constructor and `Player.update`.
- `Simulation`: `Game.reset` and `Game.update`. The `enemies.forEach` pass is
  `ResolveAll`, which threads health, game-over flag, score and projectiles
  from one enemy to the next. Reference definitions that count without
  threading any state (`PlayerHits`, `PairHits`, `StruckBy`, `Survives`) are
  proved to describe its result.
- `Pointer`: the `pointerdown` handler.
- `Invariants`: a state invariant proved to hold in every game reachable
  from a reset by any sequence of frames and presses.

Inputs the source takes from the host become parameters:

- the three input flags: an `Input` record;
- the elapsed milliseconds `dt`: an `int`;
- the random draws of the `Enemy` constructor: `SpawnParams`;
- the pointer position: a `real`;
- the button circle the press fell in: a `Control`.

The model keeps these behaviours of the code, which a reader might not expect:

- A projectile that hits an enemy is marked dead but stays in the player's
  list until the next `Player.update` prunes it.
- Neither the projectile pass nor the enemy pass skips entries already marked
  dead. So one projectile can score against several enemies in one frame, and
  several projectiles can score against one enemy: 10 points per overlapping
  pair (`PairHits`).
- All enemies are processed even after the game ends mid-frame. Health can
  therefore drop below 0, down to -75 (`Invariants.Inv`).

## Model

| member | source | states |
|---|---|---|
| `Seqs.Filter` | script.js:88 | the filtered list is no longer than the input; an element is kept exactly when it is in the input and satisfies the predicate |
| `Seqs.FilterAppend` | script.js:88 | filtering a concatenation is the concatenation of the filtered parts; with `FilterSingleton` this makes the result the input with the failing elements removed, in their original order |
| `Seqs.FilterSingleton` | script.js:88 | a one-element list keeps its element exactly when the predicate holds |
| `Seqs.FilterMultiset` | script.js:88 | each passing element occurs in the result as often as in the input, and each failing element not at all |
| `Seqs.FilterPointwise` | script.js:184 | two filters give the same list when their kept elements correspond position by position |
| `Geometry.HitSymmetric` | script.js:146-153 | the overlap test gives the same answer with its arguments swapped |
| `Geometry.HitIffSharedPixel` | script.js:146-153 | for rectangles of positive size, the test holds exactly when some pixel lies in both |
| `Entities.ProjectileStep` | script.js:52-55 | the projectile moves 8 to the right; once dead it stays dead; after the step it is alive exactly when it was alive and is still at or left of the right edge |
| `Entities.EnemyStep` | script.js:111-114 | the enemy moves left by its speed; once dead it stays dead; after the step it is alive exactly when it was alive and its right edge is not past the left edge |
| `Entities.JsRemHeight` | script.js:107 | JavaScript's truncating remainder by the canvas height: the result has the sign of the dividend, is smaller than the height in magnitude, and differs from the dividend by a multiple of the height |
| `Entities.SpawnEnemy` | script.js:98-108 | a new enemy is alive and keeps the drawn x and speed; a spawn 120 or more away from the player keeps its y; a closer one is shifted by 150 modulo the height, landing in [0, 500) whenever the player's y is non-negative |
| `Players.Clamp` | script.js:77 | the clamped y lies in [0, 430], equals the input inside that range, and is the nearer bound outside it |
| `Players.PlayerStep` | script.js:74-89 | after a player update: y is the old y moved up 5 if up is held and down 5 if down is held, then clamped to [0, 430], so it is in range for any input flags; health is unchanged; at most one projectile is added, and only when a shot fires; a shot leaves the cooldown at 14; otherwise a positive cooldown counts down by 1 and a non-positive one is kept; a cooldown in [0, 15] stays there; every kept projectile is alive and at or left of the right edge |
| `Players.PlayerStepProjectiles` | script.js:79-88 | the kept projectiles are exactly the live projectiles (old ones plus a new shot) still on screen after moving 8; a new shot is always among them |
| `Players.FireRate` | script.js:79-85 | from a cooldown c >= 0, n frames contain at most (n + 14 - min(c, 14)) / 15 shots, whatever the inputs |
| `Players.OneShotPerWindow` | script.js:79-85 | any 15 consecutive frames fire at most one shot |
| `Simulation.Reset` | script.js:126-133 | a reset gives a fresh player at y 215 with health 100, no projectiles, cooldown 0, no enemies, timer and score 0, and neither paused nor game over |
| `Simulation.ResolveAll` | script.js:166-182 | the collision pass yields one enemy per input enemy |
| `Simulation.HitCountStrike` | script.js:175-181 | marking projectiles dead does not change how many of them overlap a later enemy |
| `Simulation.PairHitsStrike` | script.js:175-181 | marking projectiles dead does not change the number of overlapping pairs with the remaining enemies |
| `Simulation.StruckBySplit` | script.js:175-181 | a projectile is struck by a list of enemies exactly when the first enemy overlaps it or the rest of the list strikes it |
| `Simulation.ResolveAllTally` | script.js:166-182 | health drops by exactly 25 per moved enemy touching the player; the score rises by 10 per overlapping (projectile, enemy) pair; the game-over flag is set exactly when a touch occurred and health ended at or below 0 |
| `Simulation.ResolveAllProjectiles` | script.js:175-181 | every projectile keeps its position and is dead exactly when it was dead or some moved enemy overlaps it |
| `Simulation.ResolveAllEnemies` | script.js:166-182 | each enemy is moved, then marked dead exactly when it is off screen, touches the player, or overlaps any projectile |
| `Simulation.Spawned` | script.js:161-164 | an enemy is appended only when the spawn is due, and then the list holds at most 4. The old enemies are kept in order, and the new one is the constructor's enemy placed against the player's y after this frame's move |
| `Simulation.Step` | script.js:155-185 | a frame keeps the pause flag; adds at most one enemy, and none when 4 are present; never takes the list above 4; a running frame leaves no dead enemy |
| `Simulation.StepFreezes` | script.js:156 | while paused or over, a frame leaves the whole state unchanged |
| `Simulation.StepTimer` | script.js:161-164 | in a running frame the spawn timer restarts from 0 exactly when an enemy is appended, and otherwise advances by dt |
| `Simulation.StepTally` | script.js:155-185 | a running frame costs exactly 25 health per moved enemy touching the player and scores 10 per overlapping pair; the game ends exactly when a touch left health at or below 0 |
| `Simulation.StepMonotone` | script.js:169-181 | health never rises and the kill score never falls in a frame |
| `Simulation.StepProjectiles` | script.js:159-181 | a running frame moves the player as the player update does; each kept projectile stays in place and is marked dead exactly when some moved enemy overlaps it |
| `Simulation.StepSurvivors` | script.js:161-184 | the enemies kept by a running frame are, in order, the moved enemies (after the spawn) that are on screen, clear of the player and clear of every projectile |
| `Pointer.PointerDown` | script.js:263-296 | after game over, a press resets the game exactly when it is in the restart rectangle, changes nothing otherwise, and never touches pause or input. Before game over, only the pause button changes the game, toggling pause, and each on-screen button sets exactly its own input flag |
| `Invariants.ResetInv` | script.js:126-133 | the reset state satisfies the invariant |
| `Invariants.StepInv` | script.js:155-185 | a frame preserves the invariant: player in bounds, cooldown in [0, 15], projectiles at or left of the right edge, at most 4 live enemies, health a multiple of 25 in [-75, 100], game over exactly when health is at or below 0, never paused when over, kill score a non-negative multiple of 10 |
| `Invariants.PointerInv` | script.js:263-296 | a pointer press preserves the invariant |
| `Invariants.GameOverSticky` | script.js:267-273 | once the game is over, frames leave it unchanged; a press either leaves it unchanged or resets it to full health and not over |
| `Invariants.RunInv` | script.js:302-311 | any interleaving of frames and presses preserves the invariant |
| `Invariants.ReachableInv` | script.js:122-124 | every game reachable from the initial reset satisfies the invariant and never holds more than 4 enemies |

## Left out

- Drawing and presentation are not modelled. This covers every `draw` method, `drawUI`, `drawControls`, `drawGameOver`, image loading, `resize` and the `requestAnimationFrame` loop. They are canvas output. `RunInv` stands in for the loop as an arbitrary sequence of frames and presses.
- `getCanvasPos` and the `Math.hypot` circle tests for the pause and on-screen buttons are not modelled. They are floating-point geometry over the page layout. The host's answer is the `Control` parameter of `PointerDown`, and the press position is a `real`.
- Keyboard listeners and the `pointerup` listener are not modelled. They are event plumbing that only sets or clears the three input flags. Each frame takes its `Input` as a parameter, which covers every input history.
- Simulation.Step: does not model the floating-point time score `dt * 0.002`. `score` holds only the integer kill score (+10 per hit), and `dt` is an integer number of milliseconds.
- Entities.SpawnEnemy: does not model `Math.random`, and covers only integral draws. In the source all three draws are fractional: x is `canvas.width + Math.random() * 300`, y is `Math.random() * (canvas.height - 90)` and speed is `Math.random() * 2 + 2`. So every enemy coordinate, and every hit test against an enemy, is over fractional values there. The model takes x, y and speed as caller-supplied integers. The contract does not bound the spawned y by `canvas.height - 90`. The source does not bound it either: a shifted spawn may extend below the bottom edge.
- The pause button, and the on-screen control circles and labels that `Game.reset` sets, are not fields of `Game`. They are constants used only by the circle tests and drawing that are left out above.
- The enemy interval is the constant `EnemyInterval` rather than a field. `Game.reset` sets it to 1200 and nothing changes it.
