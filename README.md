# qs-learn-box, modelled in Dafny

qs-learn-box is a small arcade game on a square playfield of edge length L = 500.
Obstacles enter the field from a point on its perimeter and cross it in a
straight line. Each one is announced by a warning line, which grows from the
perimeter, stays at full length while the obstacle crosses, and then recedes
from the opposite side. The player steers a 50×50 square. An obstacle that
touches only the 80×80 collector around the square scores a point per tick. An
obstacle that hits the square starts a two-second reset countdown, after which
the game restarts. Every obstacle that times out is worth 100 points.

The model covers the game logic of `src/main.rs` and the helpers of
`src/util.rs`:

- `Consts` holds the game constants of `src/consts.rs`, as exact reals.
- `Geometry` holds vectors and axis-aligned rectangles. The graphics library's
  centre, re-centring and overlap tests are written out here.
- `Perimeter` holds the perimeter coordinate ("rixel"): its side, its distance
  to the next corner, the rectangle of a shape entering from it, and its
  mirror point.
- `Obstacles` holds the obstacle entity: spawning, the phases of its life, its
  body rectangle, its warning line and the despawn test.
- `Util` holds the frame-rate ring buffer, as a class over an array, and the
  countdown timer.
- `Game` holds the player and the `GameState` class. Its methods mirror the
  update steps and run in the source's order. Each method is specified by a
  pure step function over a snapshot of the state (`Game.World`). `TickStep`
  composes the steps, and lemmas state what one tick does.

f32/f64 arithmetic is exact real arithmetic here. Rust's float `%` is a
truncated remainder, so its sign follows the dividend; the model writes it out
as `Perimeter.FRem`. Three inputs come from the environment and become
parameters:

- the keys held during a tick (`Game.Input`);
- the clock (`now`, in seconds);
- the random draws of a spawn (`Obstacles.SpawnDraw`, whose ranges `DrawInRange` states).

The spawn-interval schedule is also a parameter, `intervalOf`.

Rixel classification has one boundary case. A rixel outside [0, 4L) is
meant to be invalid, but the code only tests `rixel > 0` for North. So 0 and
every negative rixel fall through to East instead of being rejected. The model
follows the code (`Perimeter.RixelToDirection`).

## Model

| member | source | states |
|---|---|---|
| Perimeter.FRem | src/main.rs:63-65 | The float remainder keeps the dividend's sign: it is in [0, m) for a non-negative dividend and in (-m, 0] for a negative one. |
| Perimeter.FRemOnSide | src/main.rs:141-144 | On [k·m, (k+1)·m) the remainder is the offset from k·m. |
| Perimeter.RixelsToNextCorner | src/main.rs:62-65 | For a rixel ≥ 0 the distance to the next corner is in (0, L]. It is exactly L on a corner and below L off the corners. |
| Perimeter.NextCornerOnSide | src/main.rs:62-65 | From a rixel on side k (in [k·L, (k+1)·L)), adding the distance to the next corner lands exactly on (k+1)·L. |
| Perimeter.SideOffsetIsFRem | src/main.rs:62-65 | On [0, 4L) the float remainder by L is the offset from the corner that starts the rixel's side. |
| Perimeter.RixelToDirection | src/main.rs:67-80 | Gives each side iff its interval holds: North for (0, L); East for rixel ≤ 0 or [L, 2L); South for [2L, 3L); West for [3L, 4L). Gives the out-of-bounds error, carrying the rixel, iff rixel ≥ 4L. |
| Perimeter.DirectionInSide | src/main.rs:67-80 | A rixel strictly inside side k is classified as that side, at offset rixel − k·L. |
| Perimeter.PositioningToRectangle | src/main.rs:84-117 | Fails iff rixel ≥ 4L, with the error raised by the classification. |
| Perimeter.PositioningShape | src/main.rs:84-117 | Per side: North/South give size (width, length) and East/West give (length, width). The edge facing the interior is at `distance` from the entry side. The centre along the side is the rixel's own offset (mirrored for South and West). |
| Perimeter.PositioningReach | src/main.rs:84-117 | Read back through its entry side, the shape has travelled `distance` inwards and extends `length` inwards. |
| Perimeter.Opposite | src/main.rs:140-145 | For rixel ≥ 0 the mirrored rixel lies in [0, 4L). |
| Perimeter.OppositeInSide | src/main.rs:140-145 | A rixel strictly inside side k mirrors to side k+2 (mod 4), at the mirrored offset. It is classified as the opposite direction. |
| Perimeter.OppositeInvolutive | src/main.rs:140-145 | Off the corners, mirroring twice gives back the original rixel. |
| Perimeter.OppositeAligned | src/main.rs:140-145 | Shapes placed at a rixel and at its mirror share their centre coordinate across the field: x for North/South, y for East/West. |
| Perimeter.OppositeOfCorner | src/main.rs:140-145 | Corner k mirrors to corner k+3 (mod 4), not to corner k+2. |
| Perimeter.OppositeTwiceAtOrigin | src/main.rs:140-145 | Rixel 0 mirrors to 3L, and 3L mirrors to 2L. So at a corner the mirror is not an involution. |
| Obstacles.Spawn | src/main.rs:48-60 | A spawned obstacle is well formed: speed 3, length 300, width in [6, 14), lifetime −40. Its rixel is strictly inside the drawn side, at least half a width away from both corners. |
| Obstacles.WellFormedSide | src/main.rs:48-60 | A well-formed obstacle's rixel is strictly inside one side k and not on a corner. |
| Obstacles.TotalLifetime | src/main.rs:147-150 | Total lifetime × speed = L + length: the time for the trailing edge to leave the field. |
| Obstacles.WellFormedTotalLifetime | src/main.rs:147-150 | A spawned obstacle crosses the field in 800/3 ticks. |
| Obstacles.VisibleLength | src/main.rs:127-135 | Outside [0, total lifetime] the visible length is 0. For a non-negative nominal length it never exceeds that length. |
| Obstacles.Distance | src/main.rs:121-125 | The leading edge's distance is the lesser of L and lifetime × speed. |
| Obstacles.VisibleLengthPhases | src/main.rs:127-135 | The visible length is in [0, length]. It is 0 outside [0, total lifetime] and at both ends of that range, and positive strictly inside it. Inside, it is the least of the travelled distance, the length, and what is left to travel. |
| Obstacles.BodyReach | src/main.rs:119-138 | The body's inward edge is at Distance from the entry side, and its inward extent is the visible length. |
| Obstacles.BodyInsideField | src/main.rs:119-138 | While a well-formed obstacle crosses (0 ≤ lifetime ≤ total lifetime), its body lies inside the field. |
| Obstacles.WarningReach | src/main.rs:212-236 | The warning line never reaches further than the field's edge length. |
| Obstacles.WarningRixel | src/main.rs:212-236 | The line starts from a rixel in [0, 4L) whenever the obstacle's own rixel is in [0, 4L). It is the obstacle's rixel, or its mirror once the line recedes. |
| Obstacles.WarningLine | src/main.rs:212-243 | The warning line exists iff its start rixel is below 4L. |
| Obstacles.WarningLineSide | src/main.rs:212-243 | For a well-formed obstacle the line always exists. It enters from the obstacle's side in the first two phases and from the opposite side in the receding phase. |
| Obstacles.WarningLineFromPerimeter | src/main.rs:212-243 | The line starts on the perimeter. Its inward edge and its inward extent both equal the phase's reach. |
| Obstacles.WarningLineAligned | src/main.rs:212-243 | In every phase the warning line is centred on the obstacle body's track. |
| Obstacles.WarningReachTimeline | src/main.rs:212-243 | The reach is 0 only at spawn. It is L from lifetime −20 until the hide delay after the crossing, and back to 0 exactly when the despawn threshold is reached. While retained it stays within [0, L]. |
| Obstacles.Retained | src/main.rs:432-435 | An obstacle is retained for its whole crossing and through the hide delay after it. |
| Game.NewPlayer | src/main.rs:161-168 | A new player is a 50×50 square at the origin, inside the field, with score 0. |
| Game.CollectorRectangle | src/main.rs:170-173 | The collector is an 80×80 square with the same centre as the player's square. |
| Game.CollectorCoversPlayer | src/main.rs:389-395 | The collector contains the player's square, so anything hitting the player also touches the collector. This is why the hit is tested first. |
| Game.MovementBounded | src/main.rs:331-361 | One tick of input keeps the square on the field. It changes at most one coordinate, by at most the move speed, and moves nothing while a countdown is pending. |
| Game.ClampAxis | src/main.rs:351-361 | Clamping puts any coordinate back in bounds and leaves an in-bounds coordinate alone. |
| Game.InputStep | src/main.rs:331-369 | The input step keeps the state valid: the moved player stays on the field. |
| Game.GameState.UpdateHandleInput | src/main.rs:331-369 | The new state is `InputStep` of the old: the player moves by the first held key (left, down, up, right), at 5 or 5/2.2 with the slow key, only while no countdown is pending, and is then clamped. Quit clears `isRunning`. Nothing else changes. |
| Game.Tick | src/main.rs:386 | Ageing adds one tick to the lifetime, changes nothing else, and keeps the obstacle well formed. |
| Game.Ticked | src/main.rs:385-386 | Ageing keeps the list's length and keeps every obstacle well formed. |
| Game.TickedAt | src/main.rs:385-386 | Ageing changes each obstacle's lifetime by +1 and nothing else. |
| Game.PassStep | src/main.rs:384-398 | Adding one aged obstacle to the pass adds one point iff it touches only the collector, and raises the hit flag iff it hits the player. The player's score does not affect either test. |
| Game.AnyHitExists | src/main.rs:383-402 | The pass starts the countdown iff some aged obstacle's body overlaps the player's square. |
| Game.CollectCountAppend | src/main.rs:383-402 | Scoring adds up over the parts of the list: a hit earlier in the pass does not stop later obstacles from scoring. |
| Game.CollectCountBound | src/main.rs:383-402 | A pass scores at most one point per obstacle, and none when no obstacle touches the collector. |
| Game.TestObstacle | src/main.rs:389-397 | Tests one aged obstacle: a hit starts a countdown now, otherwise touching the collector scores one point; nothing else changes. |
| Game.CollisionPass | src/main.rs:384-398 | Returns the aged list, the score plus the number of obstacles that touch only the collector, and a countdown started now iff some obstacle hits the player. |
| Game.CollisionStep | src/main.rs:383-402 | The collision step keeps the state valid: the aged obstacles stay well formed. |
| Game.GameState.UpdateCheckCollisions | src/main.rs:383-402 | The new state is `CollisionStep` of the old: while a countdown is pending nothing changes. Otherwise the list is aged, the score grows by the collector contacts, and the countdown starts iff an aged obstacle hits the player. The other fields are unchanged. |
| Game.WithSpawn | src/main.rs:404-413 | The list after the spawn step is the old list, extended by exactly one obstacle when a spawn is due. Well-formedness is kept. |
| Game.SpawnStep | src/main.rs:404-413 | The spawn step keeps the state valid. |
| Game.GameState.UpdateSpawnObstacles | src/main.rs:404-413 | The new state is `SpawnStep` of the old: when nothing has spawned yet or more than the interval has passed, one new obstacle is appended, the spawn time becomes now and the interval is taken from the current score. Otherwise nothing changes. |
| Game.RetainAll | src/main.rs:428-443 | The kept obstacles are all retained, are no more than the original ones, and stay well formed. |
| Game.RetainAllSubmultiset | src/main.rs:428-443 | The despawn step only removes: the kept obstacles form a sub-multiset of the original list. |
| Game.RetainAllSingle | src/main.rs:432-440 | A single obstacle is kept exactly when it is retained. |
| Game.RetainAllComplete | src/main.rs:428-443 | Every retained obstacle survives the despawn step. |
| Game.RetainAllIdentity | src/main.rs:428-443 | The despawn step keeps the list unchanged iff every obstacle is retained. |
| Game.RetainAllAppend | src/main.rs:428-443 | The despawn step works obstacle by obstacle and keeps the order. |
| Game.SpawnRetained | src/main.rs:428-440 | A freshly spawned obstacle is below the despawn threshold. |
| Game.DespawnStep | src/main.rs:428-443 | The despawn step keeps the state valid, leaves only retained obstacles, and adds 100 points per removed obstacle. |
| Game.GameState.UpdateDespawnObstacles | src/main.rs:428-443 | The new state is `DespawnStep` of the old: the list becomes the retained obstacles, in order, and the score grows by 100 per removed obstacle. Nothing else changes. |
| Game.ResetStep | src/main.rs:415-426 | The reset step keeps the state valid and keeps the obstacles retained. |
| Game.GameState.UpdateResetGame | src/main.rs:415-426 | The new state is `ResetStep` of the old: a pending countdown that is done clears the obstacles, restores a new player and clears the countdown. Otherwise nothing changes. |
| Game.GameState.constructor | src/main.rs:447-465 | A new game has no obstacles, a new player, no countdown, no spawn yet, a 4-second interval, and is running. |
| Game.TickStep | src/main.rs:467-481 | One tick is input, collisions, spawning, despawning and reset, in that order. It keeps the state valid and leaves only retained obstacles. |
| Game.TickRunning | src/main.rs:467-481 | With no countdown pending, the tick's list is the despawn step applied to the aged list plus any due spawn. The player is the moved player, scoring one point per collector contact of the aged obstacles and 100 per obstacle the despawn step removes. |
| Game.TickRunningCountdown | src/main.rs:467-481 | With no countdown pending, a countdown starts now iff an aged obstacle hits the moved player, and it is not done within the same tick. |
| Game.TickSpawnTime | src/main.rs:467-481 | A due spawn sets the last spawn time to now; otherwise it is kept. |
| Game.TickSpawnInterval | src/main.rs:467-481 | A due spawn takes the next interval from the score after the collision step; otherwise the interval is kept. |
| Game.TickQuit | src/main.rs:467-481 | The game keeps running iff it was running and quit was not pressed. |
| Game.TickFrozen | src/main.rs:467-481 | With a countdown pending, a done countdown resets the game (no obstacles, a new player, no countdown). Otherwise the player neither moves nor scores from contacts, the obstacles do not age, and only the spawn and despawn steps apply. |
| Game.GameState.Update | src/main.rs:467-481 | The new state is `TickStep` of the old one, so the `Tick…` lemmas describe it. It stays valid and holds only retained obstacles. |
| Util.Logged | src/util.rs:18-21 | One logging step keeps a 64-slot history and a cursor below 64. |
| Util.FpsGraph.constructor | src/util.rs:11-16 | A new graph holds 64 zero samples, with its cursor at 0. |
| Util.FpsGraph.LogFps | src/util.rs:18-21 | Writes the sample at the cursor and leaves every other slot unchanged. The cursor advances by one modulo 64. |
| Util.FpsGraph.RecentAverageFps | src/util.rs:23-32 | Gives the mean of all 64 samples when every sample is normal, and None otherwise. |
| Util.LogManyCursor | src/util.rs:18-21 | After n samples the cursor has advanced by n modulo 64. |
| Util.LogManyAt | src/util.rs:18-21 | Within one window, sample k lands k slots after the starting cursor and is not overwritten. |
| Util.FullWindowIsNormal | src/util.rs:18-32 | After 64 normal samples every slot is normal, whatever the history held, so an average is reported. |
| Util.FreshHistoryIsNotNormal | src/util.rs:11-32 | A new graph reports no average. |
| Util.NewCountdown | src/util.rs:41-46 | A new countdown has the given duration and 0 elapsed at its start. |
| Util.CountdownDone | src/util.rs:41-54 | A countdown is done exactly when more than its duration has elapsed, so it is never done at its start. |

## Left out

- Drawing is not modelled: `draw`, `draw_field_border`, `draw_hud` and `draw_player`, the obstacle colours and strobe, and the playfield-to-window transform. The warning line's rectangle from `draw_obstacles` is modelled as `Obstacles.WarningLine`.
- `obstacle_spawn_interval` is not modelled. It uses `powf` and a float-to-integer cast, so the spawn step takes the schedule as the parameter `intervalOf`.
- `update_fps_graph` and `fps_update_time` are not modelled. They only feed the HUD, from the window's frame rate and the clock.
- Window closing on quit is not modelled; only the `is_running` flag is. The `println!` on reset and the panic wrapper around update errors are not modelled either.
- The random generator and `Instant::now()` are replaced by the parameters `SpawnDraw` and `now`. All clock readings within one tick are taken to be the same `now`.
- The graphics library's `Rectangle::center`, `with_center` and `overlaps_rectangle` are not part of this model. `Geometry` defines them as the midpoint and strict interior overlap.
- f32/f64 rounding is not modelled: arithmetic is exact over the reals.
- Game.Player: the score is unbounded (`nat`), so the overflow of the source's `u32` score is not modelled. The player's colour is left out because it is only drawn.
- Util.IsNormal: over the reals the only non-normal sample is 0. Subnormals, infinities and NaN do not exist in the model.
- Obstacles.Body requires the rixel to be below 4L, where the source's `unwrap` would panic. It also requires a positive speed, because the source divides by the speed (f32 division by zero gives infinity).
- Game.CollisionPass builds the aged list value by value instead of updating the vector in place. The outcome is the same list, and nothing else aliases it.
