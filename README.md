# Plants, peas and lawn mowers: a verified model of the per-frame game rules

This project models the per-frame rules of a small tower-defence game in the
style of Plants vs. Zombies. It covers six plant kinds (Peashooter, Sunflower,
Cherry Bomb, Wall-nut, Repeater, Ice Pea), the peas they fire, and the lawn
mower that guards each row. The host loop calls each entity's `Update` once a
frame with the frame time `dt`. Plants may append peas to the projectile list,
add sun to the player's counter, or hurt zombies. Peas move, hit at most one
zombie and vanish. Mowers drive right once the host activates them.

Modules, one per component:

- `Geometry` (geometry.dfy): rectangles, vectors, colours, texture and sound
  handles, and the planting grid's constants.
- `Zombies` (zombie.dfy): the four zombie fields the core reads or writes
  (`active`, `row`, `rect`, `health`). The two zombie methods the core calls
  (`TakeDamage`, `ApplySlowEffect`) are recorded in a ghost call log. Their
  effect on the zombie is left unspecified because the zombie class is not
  part of this model.
- `Projectiles` (projectile.dfy): the `Projectile` class, its constructor and
  its `Update`.
- `PlantKinds` (plant_kinds.dfy): the closed set of plant kinds, prices, type
  tags, base health and firing cadence.
- `CherryBlast` (blast.dfy): the Cherry Bomb's clamped blast rectangle and its
  geometry.
- `SunProduction` (sunflower.dfy): the Sunflower's production timer as a
  function of time, and what it adds up to over many frames.
- `Plants` (plant.dfy): the `Plant` class, with one named constructor and one
  update method per kind, the shared animation tick, the lane scan and the
  blast loop.
- `Mowers` (lawn_mower.dfy): the `LawnMower` class.

Modelling choices:

- Time, timers and positions are `real`. Integers are unbounded.
- The program's plant class hierarchy is one class `Plant` with a `const kind`.
  Fields that belong to one subclass exist on every plant and are ignored by
  the other kinds.
- Fields the shown code never reassigns after construction are `const`.
- The zombie and projectile vectors are sequences of objects. The zombies in
  one vector are distinct objects, as their unique pointers guarantee.
- The projectile vector and the sun counter are passed by reference in the
  program. Here they are passed in and the updated values are returned.
- Sounds a plant plays are recorded in a ghost log. This lets the model state
  that a Repeater volley plays the shoot sound once.
- The rectangle-collision test is a parameter `collide`. The screen width and
  height are parameters. The grid constants are a `Grid` value with positive
  tile size, rows and columns.

Behaviour of the code that may surprise a reader, which the model follows as
written:

- `TakeDamage` (src/Plant.h:58-63) subtracts the damage and clears `active`
  when health reaches 0, but never checks `active` first: it keeps
  subtracting from a plant that is already inactive, so it is not idempotent.
- A pea does 50 damage (src/Plant.cpp:67), not the `PEASHOOTER_DAMAGE` of 20
  declared in src/GameConstants.h:48, which the plant code does not use.
- The Sunflower's interval is 10 seconds (src/Plant.cpp:86), not the
  `SUNFLOWER_SUN_GENERATION_INTERVAL` of 0.1 declared in
  src/GameConstants.h:51, which the plant code does not use.
- The mower's `Update` never deactivates it; as the comment at
  src/LawnMower.cpp:12 says, removal is left to the host loop.
- The blast clamp at src/Plant.cpp:147-150 is asymmetric. At the grid's far
  edge the rectangle is trimmed. At column 0 (or row 0) the origin is moved
  to the grid edge but the rectangle stays three tiles wide, so it reaches
  column 2 (`BlastAtLeftEdgeShifted`). On each axis where the bomb is not in
  the first line, it spares every cell two or more steps away
  (`BlastSparesFarCells`).

## Model

| member | source | states |
|---|---|---|
| `Projectiles.ProjectileColor` | src/Projectile.h:43-47 | the placeholder colour is Blue exactly when the type is Frozen, and Lime otherwise |
| `Projectiles.Projectile.constructor` | src/Projectile.h:38-48 | a new projectile is active; rect, speed, damage, texture and type are copied from the arguments; the type defaults to Normal; frame 0, frame timer 0, frame speed 0.1, one frame; the colour follows the type |
| `Projectiles.FirstHitFrom` | src/Projectile.cpp:13-21 | the index it returns is the first zombie from the given position that is active and collides with the rectangle, or -1 when no zombie there does |
| `Projectiles.Projectile.Update` | src/Projectile.cpp:5-28 | an inactive pea changes nothing. An active pea moves by exactly speed·dt on both axes. Only the first live zombie the moved pea collides with is affected: it receives one damage call, plus one slow call exactly when the pea is Frozen. Every other zombie is unchanged. Afterwards the pea is active exactly when nothing was hit and its corner is not strictly outside the screen. `active` never goes from false to true |
| `PlantKinds.Cost` | src/Plant.h:85-172 | every price is positive and a whole number of 25-sun drops |
| `PlantKinds.CostCatalogue` | src/Plant.h:85-172 | the prices are Peashooter 50, Sunflower 25, CherryBomb 50, WallNut 75, Repeater 200, IcePea 150 |
| `PlantKinds.TypeOf` | src/Plant.h:86-173 | no plant kind reports the SHOVEL or NONE tag |
| `PlantKinds.TypeOfInjective` | src/Plant.h:86-173 | different plant kinds report different tags |
| `CherryBlast.BlastArea` | src/Plant.cpp:140-152 | the blast rectangle starts at or after the grid's origin, is at most three tiles wide and high, and does not extend past the grid's right or bottom edge |
| `CherryBlast.BlastInsideGrid` | src/Plant.cpp:140-152 | for a bomb on the grid, the blast is a non-empty rectangle inside the grid |
| `CherryBlast.BlastCoversNeighbours` | src/Plant.cpp:140-152 | the blast contains the bomb's own cell and every grid cell next to it, diagonals included |
| `CherryBlast.BlastSparesFarCells` | src/Plant.cpp:140-152 | on any axis where the bomb is not in the first column (row), the blast and any cell two or more columns (rows) away share at most an edge |
| `CherryBlast.BlastAtLeftEdgeShifted` | src/Plant.cpp:147-150 | in column 0 the origin is moved to the grid edge without trimming: the blast stays three tiles wide and reaches the far side of column 2 |
| `SunProduction.SunflowerTick` | src/Plant.cpp:101-106 | one frame produces 0 or 25 sun, and 25 exactly when the timer plus dt reaches 10 s. Without production the timer grows by dt; with production it restarts at 0, discarding the overshoot. The timer afterwards is always below 10 s, and non-negative for a non-negative timer and dt |
| `SunProduction.HarvestRate` | src/Plant.cpp:101-106 | over any run of frames the sun produced is a multiple of 25 and at most 25 per 10 s that the timer used up |
| `SunProduction.OneSecondFrames` | src/Plant.cpp:101-106 | one-second frames starting from a timer below 10 s produce nothing until the 10 s mark, then exactly one drop, and the timer restarts at 0 |
| `SunProduction.TenSecondsOneDrop` | src/Plant.cpp:84-106 | a new Sunflower fed one-second frames has produced no sun after any of the first nine frames and exactly 25 after the tenth |
| `Plants.ZombieInLane` | src/Plant.cpp:54-60 | the scan reports a target exactly when some zombie is active, in the plant's row, and strictly ahead of the plant (`rect.x` greater) |
| `Plants.ApplyBlast` | src/Plant.cpp:154-158 | every active zombie that collides with the area loses exactly the damage by direct subtraction. Every other zombie keeps its health. No zombie's active flag, rect, row or call log changes |
| `Plants.Plant.Peashooter` | src/Plant.cpp:35-38 | a new Peashooter has health 100, is active and Green, has one frame and fire rate 1.5 s, and its fire timer starts equal to its fire rate |
| `Plants.Plant.Sunflower` | src/Plant.cpp:84-87 | a new Sunflower has health 80, is active and Yellow, its production interval is 10 s and its timer 0 |
| `Plants.Plant.CherryBomb` | src/Plant.cpp:116-119 | a new Cherry Bomb has health 1, is active and Red, its fuse is at 0, it has not exploded, and it keeps its explosion sound |
| `Plants.Plant.WallNut` | src/Plant.cpp:170-172 | a new Wall-nut has health 400 and is active and Brown |
| `Plants.Plant.Repeater` | src/Plant.cpp:194-199 | a new Repeater has health 100, fire rate 1.0 s and a fire timer equal to its fire rate |
| `Plants.Plant.IcePea` | src/Plant.cpp:255-260 | a new Ice Pea has health 200, fire rate 1.8 s, a fire timer equal to its fire rate, and keeps its own pea texture |
| `Plants.Plant.TakeDamage` | src/Plant.h:58-63 | health drops by exactly the damage, even on an inactive plant. The plant is active afterwards exactly when it was active and its health is still positive, so health ≤ 0 implies inactive. It never reactivates a plant and touches no field other than health and active |
| `Plants.Plant.Animate` | src/Plant.cpp:45-50 | the frame timer accumulates dt. Once it reaches the frame speed, it restarts at 0, the frame advances modulo the frame count, and the sprite window's x becomes frame × width. The frame stays in [0, frame count) |
| `Plants.Plant.SingleFrameStaysAtZero` | src/Plant.cpp:45-50 | with one frame, as every constructor sets, the current frame is always 0 and the sprite window stays at x = 0 |
| `Plants.Plant.UpdatePeashooter` | src/Plant.cpp:40-75 | an inactive plant changes nothing. Otherwise it fires exactly when the fire timer plus dt reaches the fire rate and some zombie is a target in its lane. A shot appends one fresh Normal pea (damage 50, speed (300, 0), rect (x+w, y+h/4, 20, 10)), plays the shoot sound once and resets the timer to 0. Without a shot the timer keeps growing. Because the timer starts equal to the fire rate, with dt ≥ 0 a plant that has not fired yet fires on the first update that finds a target. Existing projectiles and zombies are untouched |
| `Plants.Plant.UpdateRepeater` | src/Plant.cpp:201-246 | same firing condition as the Peashooter. A volley appends two distinct fresh Normal peas with identical stats and plays the shoot sound only once |
| `Plants.Plant.UpdateIcePea` | src/Plant.cpp:262-298 | same firing condition as the Peashooter. A shot appends one Frozen pea that carries the Ice Pea's own projectile texture, not the pea texture passed in |
| `Plants.Plant.UpdateSunflower` | src/Plant.cpp:89-107 | an inactive plant changes nothing. Otherwise the production timer and the sun counter follow `SunflowerTick`, so the counter rises by exactly 25 or stays unchanged, and never decreases |
| `Plants.Plant.UpdateCherryBomb` | src/Plant.cpp:121-161 | an inactive or exploded bomb changes nothing, zombies included. Otherwise the fuse grows by dt. Once it reaches 1.5 s, the bomb becomes exploded and inactive in the same update, plays its sound, and every active zombie colliding with `BlastArea` loses exactly 9999 health. The detonation count is at most 1 over the bomb's lifetime |
| `Plants.Plant.UpdateWallNut` | src/Plant.cpp:174-185 | an inactive plant changes nothing; otherwise only the animation tick runs |
| `Plants.Plant.Update` | src/Plant.h:48-50 | for every kind: an inactive plant changes nothing. Existing projectiles are kept in order. Only the Peashooter family appends projectiles. Only a Sunflower changes the sun, and never downwards. Only a Cherry Bomb touches zombies. Update never changes health and never reactivates a plant |
| `Mowers.LawnMower.constructor` | src/LawnMower.cpp:3-7 | a new mower is active, not activated, and has speed 300 |
| `Mowers.LawnMower.Update` | src/LawnMower.cpp:9-14 | a mower moves only when activated and active, and then by exactly speed·dt along x. y, row and both flags never change, and a non-negative dt never moves it left |

## Left out

- Drawing (`Plant::Draw`, `Projectile::Draw`, `LawnMower::Draw` and the subclass overrides): rendering calls into the graphics library, including the texture-id fallback. Only the colour the fallback would use is modelled.
- Sound playback and console logging: sound triggers are recorded in a ghost log, and console output is not modelled.
- src/main.cpp: a GUI button demo with a window loop and no game logic.
- Floating-point rounding and 32-bit integer overflow: time and positions are exact reals and health is an unbounded integer.
- The zombie class: it is not part of this model. Only the fields the core reads and writes are kept. Its `TakeDamage` and `ApplySlowEffect` are logged calls whose effect is left open.
- The rectangle-collision test, the screen size and texture sizes come from the graphics library. They are parameters.
- The lawn mower's header is not part of this model. Its fields are taken from the constructor's initialiser list.
- The host loop: the order in which entities are updated, and the removal of inactive entities and off-screen mowers, are not in the shown code.
- The other constants in src/GameConstants.h: zombie stats and the unused plant constants. Only `FUSE_DURATION` (1.5 s) is used.
- Plants.Plant.Update: states only what holds for every kind. The full behaviour of each kind is in the per-kind update methods it dispatches to.
