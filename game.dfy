/**
 * The player and the per-tick update pipeline of the game (src/main.rs:153-174,
 * 329-444, 467-481).
 *
 * Inputs the source reads from its environment are parameters here: the keys
 * held this tick (`Input`), the clock (`now`, in seconds), the random draws of a
 * spawn (`SpawnDraw`) and the spawn-interval schedule (`intervalOf`).
 */
module Game {
  import opened Consts
  import opened Geometry
  import opened Obstacles
  import opened Util

  /** How long the game stays frozen after the player is hit, in seconds. */
  const ResetCountdownDuration: real := 2.0

  /** How long the game waits for its first spawn interval, in seconds. */
  const InitialSpawnInterval: real := 4.0

  datatype Player = Player(rect: Rect, score: nat)

  /** The player's square stays inside the field. */
  predicate PlayerValid(p: Player) {
    && p.rect.size == Vec2(50.0, 50.0)
    && 0.0 <= p.rect.pos.x <= FieldEdgeLength - p.rect.size.x
    && 0.0 <= p.rect.pos.y <= FieldEdgeLength - p.rect.size.y
  }

  /** A fresh player: a 50x50 square in the top-left corner, with no score. */
  function NewPlayer(): (p: Player)
    ensures PlayerValid(p) && p.score == 0
    ensures p.rect.pos == Vec2(0.0, 0.0)
  {
    Player(Rect(Vec2(0.0, 0.0), Vec2(50.0, 50.0)), 0)
  }

  /** The scoring zone: a square of CollectorEdgeLength centred on the player. */
  function CollectorRectangle(p: Player): (r: Rect)
    ensures r.size == Vec2(CollectorEdgeLength, CollectorEdgeLength)
    ensures r.Center() == p.rect.Center()
  {
    Rect(Vec2(0.0, 0.0), Vec2(CollectorEdgeLength, CollectorEdgeLength)).WithCenter(p.rect.Center())
  }

  /** The collector surrounds the player's square, so whatever hits the player
      also touches the collector; scoring therefore has to test the hit first. */
  lemma CollectorCoversPlayer(p: Player, r: Rect)
    requires PlayerValid(p) && p.rect.Overlaps(r)
    ensures CollectorRectangle(p).Contains(p.rect)
    ensures CollectorRectangle(p).Overlaps(r)
  {
    OverlapsEnclosing(p.rect, CollectorRectangle(p), r);
  }

  /** The keys held during one tick: one flag per movement direction (each has
      two bindings), the slow-motion modifier and the quit key. */
  datatype Input = Input(left: bool, down: bool, up: bool, right: bool, slow: bool, quit: bool)

  function MoveSpeed(input: Input): real {
    if input.slow then PlayerSpeed / PlayerSlowmoFactor else PlayerSpeed
  }

  function Abs(x: real): real { if x < 0.0 then -x else x }

  /** Pulls one coordinate back so that the square of extent `size` is on the
      field: any coordinate comes back in bounds, and one in bounds is left alone. */
  function ClampAxis(p: real, size: real): (r: real)
    ensures 0.0 <= size <= FieldEdgeLength ==> 0.0 <= r <= FieldEdgeLength - size
    ensures 0.0 <= p <= FieldEdgeLength - size ==> r == p
  {
    if p + size > FieldEdgeLength then FieldEdgeLength - size
    else if p < 0.0 then 0.0
    else p
  }

  /** The player's position after one tick of input handling: the first movement
      key held (left, down, up, right) moves it unless the game is frozen, then
      both coordinates are clamped. */
  function MovedPosition(r: Rect, input: Input, frozen: bool): Vec2 {
    var s := MoveSpeed(input);
    var p :=
      if frozen then r.pos
      else if input.left then r.pos.(x := r.pos.x - s)
      else if input.down then r.pos.(y := r.pos.y + s)
      else if input.up then r.pos.(y := r.pos.y - s)
      else if input.right then r.pos.(x := r.pos.x + s)
      else r.pos;
    Vec2(ClampAxis(p.x, r.size.x), ClampAxis(p.y, r.size.y))
  }

  /**
   * One tick of movement keeps the square on the field, changes at most one
   * coordinate, by at most the move speed (five, or five over 2.2 in slow motion),
   * and changes nothing while the game is frozen.
   */
  lemma MovementBounded(r: Rect, input: Input, frozen: bool)
    requires 0.0 <= r.size.x <= FieldEdgeLength && 0.0 <= r.size.y <= FieldEdgeLength
    requires 0.0 <= r.pos.x <= FieldEdgeLength - r.size.x && 0.0 <= r.pos.y <= FieldEdgeLength - r.size.y
    ensures var q := MovedPosition(r, input, frozen);
            && 0.0 <= q.x <= FieldEdgeLength - r.size.x
            && 0.0 <= q.y <= FieldEdgeLength - r.size.y
            && (q.x == r.pos.x || q.y == r.pos.y)
            && Abs(q.x - r.pos.x) <= MoveSpeed(input)
            && Abs(q.y - r.pos.y) <= MoveSpeed(input)
            && (frozen ==> q == r.pos)
    ensures MoveSpeed(input) <= PlayerSpeed
  {
  }

  predicate AllWellFormed(obs: seq<Obstacle>) {
    forall k :: 0 <= k < |obs| ==> WellFormed(obs[k])
  }

  predicate AllRetained(obs: seq<Obstacle>)
    requires AllWellFormed(obs)
  {
    forall k :: 0 <= k < |obs| ==> Retained(obs[k])
  }

  /** An obstacle one tick older. */
  function Tick(o: Obstacle): (r: Obstacle)
    ensures r.lifetime == o.lifetime + 1.0
    ensures r.(lifetime := o.lifetime) == o
    ensures WellFormed(o) ==> WellFormed(r)
  {
    o.(lifetime := o.lifetime + 1.0)
  }

  /** Every obstacle of the list one tick older, in order. */
  function Ticked(obs: seq<Obstacle>): (r: seq<Obstacle>)
    ensures |r| == |obs|
    ensures AllWellFormed(obs) ==> AllWellFormed(r)
  {
    if obs == [] then [] else Ticked(obs[..|obs| - 1]) + [Tick(obs[|obs| - 1])]
  }

  /** Ageing changes only the lifetime, obstacle by obstacle. */
  lemma {:induction false} TickedAt(obs: seq<Obstacle>, k: int)
    requires 0 <= k < |obs|
    ensures Ticked(obs)[k] == Tick(obs[k])
  {
    var n := |obs| - 1;
    if k < n {
      TickedAt(obs[..n], k);
    }
  }

  /** What the collision pass needs of an obstacle: a side and a speed. */
  predicate AllPlaced(obs: seq<Obstacle>) {
    forall k :: 0 <= k < |obs| ==> obs[k].rixel < 4.0 * FieldEdgeLength && obs[k].speed > 0.0
  }

  /** The obstacle's body overlaps the player's square. */
  predicate HitsPlayer(p: Player, o: Obstacle)
    requires o.rixel < 4.0 * FieldEdgeLength && o.speed > 0.0
  {
    p.rect.Overlaps(Body(o))
  }

  /** The obstacle's body touches the collector but not the player's square. */
  predicate Collects(p: Player, o: Obstacle)
    requires o.rixel < 4.0 * FieldEdgeLength && o.speed > 0.0
  {
    !HitsPlayer(p, o) && CollectorRectangle(p).Overlaps(Body(o))
  }

  /** The number of obstacles that score one point each in a collision pass. */
  function CollectCount(p: Player, obs: seq<Obstacle>): nat
    requires AllPlaced(obs)
  {
    if obs == [] then 0
    else CollectCount(p, obs[..|obs| - 1]) + (if Collects(p, obs[|obs| - 1]) then 1 else 0)
  }

  /** Some obstacle of the pass hits the player. */
  predicate AnyHit(p: Player, obs: seq<Obstacle>)
    requires AllPlaced(obs)
  {
    obs != [] && (AnyHit(p, obs[..|obs| - 1]) || HitsPlayer(p, obs[|obs| - 1]))
  }

  lemma {:induction false} AnyHitExists(p: Player, obs: seq<Obstacle>)
    requires AllPlaced(obs)
    ensures AnyHit(p, obs) <==> exists k :: 0 <= k < |obs| && HitsPlayer(p, obs[k])
  {
    if obs != [] {
      var n := |obs| - 1;
      AnyHitExists(p, obs[..n]);
      assert forall k :: 0 <= k < n ==> obs[..n][k] == obs[k];
    }
  }

  /** Each obstacle scores on its own: a hit earlier in the pass does not stop
      later obstacles from scoring, and the count of a pass adds up over its parts. */
  lemma {:induction false} CollectCountAppend(p: Player, a: seq<Obstacle>, b: seq<Obstacle>)
    requires AllPlaced(a) && AllPlaced(b)
    ensures AllPlaced(a + b)
    ensures CollectCount(p, a + b) == CollectCount(p, a) + CollectCount(p, b)
  {
    if b != [] {
      var n := |b| - 1;
      CollectCountAppend(p, a, b[..n]);
      assert (a + b)[..|a + b| - 1] == a + b[..n];
    } else {
      assert a + b == a;
    }
  }

  /** A pass scores at most one point per obstacle, and none when no obstacle
      touches the collector. */
  lemma {:induction false} CollectCountBound(p: Player, obs: seq<Obstacle>)
    requires AllPlaced(obs)
    ensures CollectCount(p, obs) <= |obs|
    ensures (forall k :: 0 <= k < |obs| ==> !CollectorRectangle(p).Overlaps(Body(obs[k]))) ==>
            CollectCount(p, obs) == 0
  {
    if obs != [] {
      var n := |obs| - 1;
      CollectCountBound(p, obs[..n]);
      assert forall k :: 0 <= k < n ==> obs[..n][k] == obs[k];
    }
  }

  /** The obstacles the despawn step keeps, in their original order. */
  function RetainAll(obs: seq<Obstacle>): (r: seq<Obstacle>)
    requires AllWellFormed(obs)
    ensures AllWellFormed(r) && AllRetained(r)
    ensures |r| <= |obs|
  {
    if obs == [] then []
    else
      var last := obs[|obs| - 1];
      RetainAll(obs[..|obs| - 1]) + (if Retained(last) then [last] else [])
  }

  /** The despawn step only removes: every kept obstacle, with its multiplicity,
      was in the list before. */
  lemma {:induction false} RetainAllSubmultiset(obs: seq<Obstacle>)
    requires AllWellFormed(obs)
    ensures multiset(RetainAll(obs)) <= multiset(obs)
  {
    if obs != [] {
      var last := obs[|obs| - 1];
      RetainAllSubmultiset(obs[..|obs| - 1]);
      assert obs[..|obs| - 1] + [last] == obs;
    }
  }

  /** A single obstacle is kept exactly when it is still retained. */
  lemma RetainAllSingle(o: Obstacle)
    requires WellFormed(o)
    ensures RetainAll([o]) == if Retained(o) then [o] else []
  {
  }

  /** Every obstacle that is still retained survives the despawn step. */
  lemma {:induction false} RetainAllComplete(obs: seq<Obstacle>, k: int)
    requires AllWellFormed(obs) && 0 <= k < |obs| && Retained(obs[k])
    ensures obs[k] in RetainAll(obs)
  {
    var n := |obs| - 1;
    if k < n {
      RetainAllComplete(obs[..n], k);
    }
  }

  /** The despawn step keeps everything exactly when nothing has timed out. */
  lemma {:induction false} RetainAllIdentity(obs: seq<Obstacle>)
    requires AllWellFormed(obs)
    ensures RetainAll(obs) == obs <==> AllRetained(obs)
  {
    if obs != [] {
      var n := |obs| - 1;
      RetainAllIdentity(obs[..n]);
      assert obs[..n] + [obs[n]] == obs;
      if !Retained(obs[n]) {
        assert |RetainAll(obs)| < |obs|;
      }
    }
  }

  /** Despawning works obstacle by obstacle: the result for a list is the results
      for its parts, in order. */
  lemma {:induction false} RetainAllAppend(a: seq<Obstacle>, b: seq<Obstacle>)
    requires AllWellFormed(a) && AllWellFormed(b)
    ensures AllWellFormed(a + b)
    ensures RetainAll(a + b) == RetainAll(a) + RetainAll(b)
  {
    if b != [] {
      var n := |b| - 1;
      RetainAllAppend(a, b[..n]);
      assert (a + b)[..|a + b| - 1] == a + b[..n];
    } else {
      assert a + b == a;
    }
  }

  /** A freshly spawned obstacle is retained. */
  lemma SpawnRetained(d: SpawnDraw)
    requires DrawInRange(d)
    ensures Retained(Spawn(d))
  {
    WellFormedTotalLifetime(Spawn(d));
  }

  /** One step of the collision pass, seen from the player of the pass: its
      score may differ, its square does not. */
  lemma PassStep(p0: Player, p: Player, obs: seq<Obstacle>, ob: Obstacle)
    requires AllPlaced(obs) && ob.rixel < 4.0 * FieldEdgeLength && ob.speed > 0.0 && p.rect == p0.rect
    ensures AllPlaced(obs + [ob])
    ensures CollectCount(p0, obs + [ob]) == CollectCount(p0, obs) + (if Collects(p, ob) then 1 else 0)
    ensures AnyHit(p0, obs + [ob]) <==> AnyHit(p0, obs) || HitsPlayer(p, ob)
  {
    assert (obs + [ob])[..|obs|] == obs;
  }

  /** Nothing has been spawned yet, or more than the spawn interval has passed. */
  predicate SpawnDue(lastSpawned: Option<real>, interval: real, now: real) {
    lastSpawned.None? || now - lastSpawned.value > interval
  }

  /** The obstacle list after the spawn step: one new obstacle at the end when a
      spawn is due. */
  function WithSpawn(obs: seq<Obstacle>, due: bool, draw: SpawnDraw): (r: seq<Obstacle>)
    requires DrawInRange(draw)
    ensures AllWellFormed(obs) ==> AllWellFormed(r)
    ensures |r| == if due then |obs| + 1 else |obs|
    ensures r[..|obs|] == obs
  {
    if due then obs + [Spawn(draw)] else obs
  }

  /** Tests one aged obstacle: a hit starts the countdown, otherwise a touch of
      the collector scores a point. */
  method TestObstacle(p: Player, ob: Obstacle, countdown: Option<Countdown>, now: real)
    returns (p': Player, countdown': Option<Countdown>)
    requires ob.rixel < 4.0 * FieldEdgeLength && ob.speed > 0.0
    ensures p' == p.(score := p.score + if Collects(p, ob) then 1 else 0)
    ensures countdown' == if HitsPlayer(p, ob) then Some(NewCountdown(now, ResetCountdownDuration)) else countdown
  {
    p', countdown' := p, countdown;
    if p.rect.Overlaps(Body(ob)) {
      countdown' := Some(NewCountdown(now, ResetCountdownDuration));
    } else if CollectorRectangle(p).Overlaps(Body(ob)) {
      p' := p.(score := p.score + 1);
    }
  }

  /**
   * The collision pass over the obstacle list: each obstacle in turn is aged by
   * one tick, then tested against the player's square (starting the reset
   * countdown) or else against the collector (scoring a point). A hit does not
   * end the pass.
   */
  method CollisionPass(before: seq<Obstacle>, p0: Player, now: real)
    returns (obs: seq<Obstacle>, p: Player, countdown: Option<Countdown>)
    requires AllWellFormed(before)
    ensures obs == Ticked(before) && AllWellFormed(obs)
    ensures p == p0.(score := p0.score + CollectCount(p0, obs))
    ensures countdown == if AnyHit(p0, obs) then Some(NewCountdown(now, ResetCountdownDuration)) else None
  {
    obs := [];
    p := p0;
    countdown := None;
    for k := 0 to |before|
      invariant obs == Ticked(before[..k]) && AllPlaced(obs)
      invariant p == p0.(score := p0.score + CollectCount(p0, obs))
      invariant countdown == if AnyHit(p0, obs)
                             then Some(NewCountdown(now, ResetCountdownDuration)) else None
    {
      var ob := Tick(before[k]);
      assert before[..k + 1][..k] == before[..k];
      PassStep(p0, p, obs, ob);
      obs := obs + [ob];
      p, countdown := TestObstacle(p, ob, countdown, now);
    }
    assert before[..|before|] == before;
  }

  /** A snapshot of everything one tick of the game reads and writes. */
  datatype World = World(obstacles: seq<Obstacle>, player: Player, lastSpawned: Option<real>,
                         spawnInterval: real, isRunning: bool, resetCountdown: Option<Countdown>)

  predicate WorldValid(w: World) {
    AllWellFormed(w.obstacles) && PlayerValid(w.player)
  }

  /** The input step: the player moves by the first movement key held, unless a
      reset countdown is pending, and is clamped into the field; quit stops the game. */
  function InputStep(w: World, input: Input): (r: World)
    requires WorldValid(w)
    ensures WorldValid(r)
  {
    MovementBounded(w.player.rect, input, w.resetCountdown.Some?);
    w.(player := w.player.(rect := w.player.rect.(pos := MovedPosition(w.player.rect, input, w.resetCountdown.Some?))),
       isRunning := w.isRunning && !input.quit)
  }

  /** The collision step: unless a countdown is pending, every obstacle ages by a
      tick, the player scores a point per collector contact, and the countdown
      starts exactly when an aged obstacle hits the player. */
  function CollisionStep(w: World, now: real): (r: World)
    requires WorldValid(w)
    ensures WorldValid(r)
  {
    if w.resetCountdown.Some? then w
    else
      var aged := Ticked(w.obstacles);
      w.(obstacles := aged,
         player := w.player.(score := w.player.score + CollectCount(w.player, aged)),
         resetCountdown := if AnyHit(w.player, aged) then Some(NewCountdown(now, ResetCountdownDuration)) else None)
  }

  /** The spawn step: when a spawn is due, one new obstacle joins the end of the
      list and the next interval is taken from the current score. */
  function SpawnStep(w: World, now: real, draw: SpawnDraw, intervalOf: nat -> real): (r: World)
    requires WorldValid(w) && DrawInRange(draw)
    ensures WorldValid(r)
  {
    var due := SpawnDue(w.lastSpawned, w.spawnInterval, now);
    w.(obstacles := WithSpawn(w.obstacles, due, draw),
       lastSpawned := if due then Some(now) else w.lastSpawned,
       spawnInterval := if due then intervalOf(w.player.score) else w.spawnInterval)
  }

  /** The despawn step: obstacles whose warning line has receded leave the list,
      100 points each. */
  function DespawnStep(w: World): (r: World)
    requires WorldValid(w)
    ensures WorldValid(r) && AllRetained(r.obstacles)
    ensures r.player.score == w.player.score + 100 * (|w.obstacles| - |r.obstacles|)
  {
    var kept := RetainAll(w.obstacles);
    w.(obstacles := kept, player := w.player.(score := w.player.score + 100 * (|w.obstacles| - |kept|)))
  }

  /** The reset step: once the countdown is done the obstacles are cleared, the
      player starts afresh and the countdown is cleared. */
  function ResetStep(w: World, now: real): (r: World)
    requires WorldValid(w)
    ensures WorldValid(r) && (AllRetained(w.obstacles) ==> AllRetained(r.obstacles))
  {
    if w.resetCountdown.Some? && w.resetCountdown.value.IsDone(now) then
      w.(obstacles := [], player := NewPlayer(), resetCountdown := None)
    else w
  }

  /** One tick: input, collisions, spawning, despawning, reset, in that order. */
  function TickStep(w: World, input: Input, now: real, draw: SpawnDraw, intervalOf: nat -> real): (r: World)
    requires WorldValid(w) && DrawInRange(draw)
    ensures WorldValid(r) && AllRetained(r.obstacles)
  {
    ResetStep(DespawnStep(SpawnStep(CollisionStep(InputStep(w, input), now), now, draw, intervalOf)), now)
  }

  /**
   * A tick with no countdown pending, as seen by the obstacles and the score:
   * the player moves, every obstacle ages, one is spawned at the end when due,
   * and the player scores for collector contacts of the aged obstacles and 100
   * points for every obstacle the despawn step removes.
   */
  lemma TickRunning(w: World, input: Input, now: real, draw: SpawnDraw, intervalOf: nat -> real)
    requires WorldValid(w) && DrawInRange(draw) && w.resetCountdown.None?
    ensures
      var r := TickStep(w, input, now, draw, intervalOf);
      var p1 := w.player.(rect := w.player.rect.(pos := MovedPosition(w.player.rect, input, false)));
      var aged := Ticked(w.obstacles);
      var spawned := WithSpawn(aged, SpawnDue(w.lastSpawned, w.spawnInterval, now), draw);
      && r.obstacles == RetainAll(spawned)
      && r.player == p1.(score := p1.score + CollectCount(p1, aged) + 100 * (|spawned| - |r.obstacles|))
  {
    TickRunningCountdown(w, input, now, draw, intervalOf);
  }

  /**
   * A tick with no countdown pending, as seen by the countdown: it starts exactly
   * when an aged obstacle hits the moved player, and is not done in the same tick.
   */
  lemma TickRunningCountdown(w: World, input: Input, now: real, draw: SpawnDraw, intervalOf: nat -> real)
    requires WorldValid(w) && DrawInRange(draw) && w.resetCountdown.None?
    ensures
      var p1 := w.player.(rect := w.player.rect.(pos := MovedPosition(w.player.rect, input, false)));
      TickStep(w, input, now, draw, intervalOf).resetCountdown
        == if AnyHit(p1, Ticked(w.obstacles)) then Some(NewCountdown(now, ResetCountdownDuration)) else None
  {
    CountdownDone(now, ResetCountdownDuration, now);
  }

  /** Either way, a due spawn restarts the spawn clock at `now`; otherwise the
      time of the last spawn is kept. */
  lemma TickSpawnTime(w: World, input: Input, now: real, draw: SpawnDraw, intervalOf: nat -> real)
    requires WorldValid(w) && DrawInRange(draw)
    ensures TickStep(w, input, now, draw, intervalOf).lastSpawned
              == if SpawnDue(w.lastSpawned, w.spawnInterval, now) then Some(now) else w.lastSpawned
  {
  }

  /** Either way, a due spawn takes the next interval from the score after the
      collision step; otherwise the interval is kept. */
  lemma TickSpawnInterval(w: World, input: Input, now: real, draw: SpawnDraw, intervalOf: nat -> real)
    requires WorldValid(w) && DrawInRange(draw)
    ensures
      var p1 := w.player.(rect := w.player.rect.(pos := MovedPosition(w.player.rect, input, false)));
      var scored := if w.resetCountdown.None? then w.player.score + CollectCount(p1, Ticked(w.obstacles)) else w.player.score;
      TickStep(w, input, now, draw, intervalOf).spawnInterval
        == if SpawnDue(w.lastSpawned, w.spawnInterval, now) then intervalOf(scored) else w.spawnInterval
  {
    var w1 := InputStep(w, input);
    var w2 := CollisionStep(w1, now);
    assert TickStep(w, input, now, draw, intervalOf).spawnInterval
             == SpawnStep(w2, now, draw, intervalOf).spawnInterval;
    if w.resetCountdown.None? {
      assert w2.player.score == w1.player.score + CollectCount(w1.player, Ticked(w.obstacles));
    } else {
      assert w2.player.score == w.player.score;
    }
  }

  /** Quit stops the game; nothing else does. */
  lemma TickQuit(w: World, input: Input, now: real, draw: SpawnDraw, intervalOf: nat -> real)
    requires WorldValid(w) && DrawInRange(draw)
    ensures TickStep(w, input, now, draw, intervalOf).isRunning <==> w.isRunning && !input.quit
  {
  }

  /**
   * A tick with a countdown pending: the player neither moves nor scores from
   * contacts and the obstacles do not age; spawning and despawning go on, and
   * once the countdown is done the game is reset after them.
   */
  lemma TickFrozen(w: World, input: Input, now: real, draw: SpawnDraw, intervalOf: nat -> real)
    requires WorldValid(w) && DrawInRange(draw) && w.resetCountdown.Some?
    ensures
      var r := TickStep(w, input, now, draw, intervalOf);
      var spawned := WithSpawn(w.obstacles, SpawnDue(w.lastSpawned, w.spawnInterval, now), draw);
      && (w.resetCountdown.value.IsDone(now) ==>
            r.obstacles == [] && r.player == NewPlayer() && r.resetCountdown == None)
      && (!w.resetCountdown.value.IsDone(now) ==>
            && r.obstacles == RetainAll(spawned)
            && r.player == w.player.(score := w.player.score + 100 * (|spawned| - |r.obstacles|))
            && r.resetCountdown == w.resetCountdown)
  {
    MovementBounded(w.player.rect, input, true);
  }

  class GameState {
    var obstacles: seq<Obstacle>
    var player: Player
    var lastSpawned: Option<real>
    var spawnInterval: real
    var isRunning: bool
    var resetCountdown: Option<Countdown>

    function State(): World
      reads this
    {
      World(obstacles, player, lastSpawned, spawnInterval, isRunning, resetCountdown)
    }

    ghost predicate Valid()
      reads this
    {
      WorldValid(State())
    }

    constructor ()
      ensures Valid()
      ensures obstacles == [] && player == NewPlayer() && resetCountdown == None
      ensures lastSpawned == None && spawnInterval == InitialSpawnInterval && isRunning
    {
      obstacles := [];
      player := NewPlayer();
      lastSpawned := None;
      spawnInterval := InitialSpawnInterval;
      isRunning := true;
      resetCountdown := None;
    }

    /** Moves the player by the first movement key held, unless a reset countdown
        is pending, clamps it into the field, and stops the game on quit. */
    method UpdateHandleInput(input: Input)
      requires Valid()
      modifies this
      ensures Valid()
      ensures State() == InputStep(old(State()), input)
    {
      var movespeed := if input.slow then PlayerSpeed / PlayerSlowmoFactor else PlayerSpeed;
      var pos := player.rect.pos;
      var size := player.rect.size;

      if resetCountdown.None? {
        if input.left {
          pos := pos.(x := pos.x - movespeed);
        } else if input.down {
          pos := pos.(y := pos.y + movespeed);
        } else if input.up {
          pos := pos.(y := pos.y - movespeed);
        } else if input.right {
          pos := pos.(x := pos.x + movespeed);
        }
      }

      if pos.x + size.x > FieldEdgeLength {
        pos := pos.(x := FieldEdgeLength - size.x);
      } else if pos.x < 0.0 {
        pos := pos.(x := 0.0);
      }
      if pos.y + size.y > FieldEdgeLength {
        pos := pos.(y := FieldEdgeLength - size.y);
      } else if pos.y < 0.0 {
        pos := pos.(y := 0.0);
      }
      player := player.(rect := player.rect.(pos := pos));

      if input.quit {
        isRunning := false;
      }
    }

    /**
     * Unless a reset countdown is pending: ages every obstacle by one tick, starts
     * the countdown when one hits the player, and scores a point for each one that
     * touches only the collector. The countdown test is made once, before the pass.
     */
    method UpdateCheckCollisions(now: real)
      requires Valid()
      modifies this
      ensures Valid()
      ensures State() == CollisionStep(old(State()), now)
    {
      if resetCountdown.None? {
        obstacles, player, resetCountdown := CollisionPass(obstacles, player, now);
      }
    }

    /** Spawns one obstacle when none has been spawned yet or the spawn interval
        has passed, and takes the next interval from the current score. */
    method UpdateSpawnObstacles(now: real, draw: SpawnDraw, intervalOf: nat -> real)
      requires Valid() && DrawInRange(draw)
      modifies this
      ensures Valid()
      ensures State() == SpawnStep(old(State()), now, draw, intervalOf)
    {
      if lastSpawned.None? || now - lastSpawned.value > spawnInterval {
        lastSpawned := Some(now);
        obstacles := obstacles + [Spawn(draw)];
        spawnInterval := intervalOf(player.score);
      }
    }

    /** Removes the obstacles whose warning line has fully receded, keeping the
        others in order, and awards 100 points per removed obstacle. */
    method UpdateDespawnObstacles()
      requires Valid()
      modifies this
      ensures Valid()
      ensures State() == DespawnStep(old(State()))
    {
      var all := obstacles;
      var p := player;
      var kept: seq<Obstacle> := [];
      for k := 0 to |all|
        modifies {}
        invariant kept == RetainAll(all[..k])
        invariant p == old(player).(score := old(player).score + 100 * (k - |kept|))
      {
        var ob := all[k];
        assert all[..k + 1][..k] == all[..k];
        var res := Retained(ob);
        if !res {
          p := p.(score := p.score + 100);
        } else {
          kept := kept + [ob];
        }
      }
      assert all[..|all|] == all;
      obstacles, player := kept, p;
    }

    /** Once the reset countdown is done: clears the obstacles, restores a fresh
        player and clears the countdown. */
    method UpdateResetGame(now: real)
      requires Valid()
      modifies this
      ensures Valid()
      ensures State() == ResetStep(old(State()), now)
    {
      if resetCountdown.Some? {
        if resetCountdown.value.IsDone(now) {
          obstacles := [];
          player := NewPlayer();
          resetCountdown := None;
        }
      }
    }

    /** One tick: input, collisions, spawning, despawning, reset, in that order
        (`TickRunning`, `TickRunningCountdown`, `TickFrozen` and `TickSpawnClock`
        say what the tick does in each case). */
    method Update(input: Input, now: real, draw: SpawnDraw, intervalOf: nat -> real)
      requires Valid() && DrawInRange(draw)
      modifies this
      ensures Valid() && AllRetained(obstacles)
      ensures State() == TickStep(old(State()), input, now, draw, intervalOf)
    {
      UpdateHandleInput(input);
      UpdateCheckCollisions(now);
      UpdateSpawnObstacles(now, draw, intervalOf);
      UpdateDespawnObstacles();
      UpdateResetGame(now);
    }
  }
}
