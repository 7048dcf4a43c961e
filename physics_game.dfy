/** The physics game's bookkeeping: the obstacle tables and the obstacle
    generator, the high-score clock's two intervals, and the player's bounce
    counter and velocity rule. The physics engine is outside the model: what
    it reports (a body's height, a collision's other body, the velocity read
    at the start of a frame) arrives as arguments. */
module PhysicsGame {
  import opened Common

  // ---------------------------------------------------------------------
  // Geometries, half-heights and colliders
  // ---------------------------------------------------------------------

  /** The shared geometries, by their dimension arguments. */
  datatype Geometry =
    | Sphere(radius: real)
    | Icosahedron(radius: real)
    | Cylinder(radiusTop: real, radiusBottom: real, height: real)
    | Box(width: real, height: real, depth: real)

  const SharedGeometries: seq<Geometry> := [Sphere(1.2), Icosahedron(1.2), Cylinder(0.7, 0.7, 1.8), Box(1.6, 1.6, 1.6)]

  /** Half the vertical extent of a geometry at scale 1. */
  function Extent(g: Geometry): real {
    match g
    case Sphere(r) => r
    case Icosahedron(r) => r
    case Cylinder(_, _, h) => h / 2.0
    case Box(_, h, _) => h / 2.0
  }

  /** `getHalfHeight(geometryIdx, scale)`. */
  function GetHalfHeight(geometryIdx: int, scale: real): (h: real)
    ensures 0 <= geometryIdx < |SharedGeometries| ==> h == Extent(SharedGeometries[geometryIdx]) * scale
    ensures !(0 <= geometryIdx < |SharedGeometries|) ==> h == scale
    ensures scale > 0.0 ==> h > 0.0
  {
    if geometryIdx == 0 then 1.2 * scale
    else if geometryIdx == 1 then 1.2 * scale
    else if geometryIdx == 2 then 0.9 * scale
    else if geometryIdx == 3 then 0.8 * scale
    else scale
  }

  datatype ColliderType = Ball | Cuboid

  /** `getColliderType(geometryIdx)`: the round shapes and anything unknown
      get a ball, the cylinder and the cube a cuboid. */
  function GetColliderType(geometryIdx: int): (c: ColliderType)
    ensures c == Cuboid <==> 0 <= geometryIdx < |SharedGeometries| && !SharedGeometries[geometryIdx].Sphere?
                                && !SharedGeometries[geometryIdx].Icosahedron?
  {
    if geometryIdx == 0 || geometryIdx == 1 then Ball
    else if geometryIdx == 2 || geometryIdx == 3 then Cuboid
    else Ball
  }

  /** The obstacle palette. */
  const Tailwind400: seq<string> := [
    "#f87171", "#fb923c", "#facc15", "#4ade80", "#38bdf8",
    "#818cf8", "#a78bfa", "#f472b6", "#34d399", "#fbbf24"
  ]

  /** `getRandomColor()` for the draw `r`. */
  function RandomColor(r: real): (c: string)
    requires 0.0 <= r < 1.0
    ensures c in Tailwind400
  {
    Tailwind400[RandomIndex(r, |Tailwind400|)]
  }

  /** `getRandomScale()` for the draw `r`. */
  function RandomScale(r: real): (s: real)
    requires 0.0 <= r < 1.0
    ensures 0.7 <= s < 2.0
  {
    0.7 + r * 1.3
  }

  // ---------------------------------------------------------------------
  // The obstacle generator
  // ---------------------------------------------------------------------

  const MaxObstacles: nat := 30
  const SpawnRadius: real := 45.0
  /** Draws consumed per obstacle: x, z, geometry, colour, scale, height. */
  const DrawsPerObstacle: nat := 6

  datatype Obstacle = Obstacle(
    key: string, x: real, y: real, z: real,
    geometryIdx: int, color: string, scale: real, collider: ColliderType)

  predicate Draws(r: seq<real>) { forall k :: 0 <= k < |r| ==> 0.0 <= r[k] < 1.0 }

  /** Obstacle `i`, built from its six draws `d`. It rests strictly above the
      plane, inside the spawn square, with a shape, colour, scale and collider
      from the tables. */
  function Spawn(i: nat, d: seq<real>): (o: Obstacle)
    requires |d| == DrawsPerObstacle && Draws(d)
    ensures o.key == "obstacle-" + Decimal(i)
    ensures -SpawnRadius / 2.0 <= o.x < SpawnRadius / 2.0 && -SpawnRadius / 2.0 <= o.z < SpawnRadius / 2.0
    ensures 0 <= o.geometryIdx < |SharedGeometries| && o.color in Tailwind400 && 0.7 <= o.scale < 2.0
    ensures o.collider == GetColliderType(o.geometryIdx)
    ensures GetHalfHeight(o.geometryIdx, o.scale) < o.y < GetHalfHeight(o.geometryIdx, o.scale) + 15.01
  {
    var x := (d[0] - 0.5) * SpawnRadius;
    var z := (d[1] - 0.5) * SpawnRadius;
    var geometryIdx := RandomIndex(d[2], |SharedGeometries|);
    var color := RandomColor(d[3]);
    var scale := RandomScale(d[4]);
    var halfHeight := GetHalfHeight(geometryIdx, scale);
    var y := halfHeight + 0.01 + d[5] * 15.0;
    Obstacle("obstacle-" + Decimal(i), x, y, z, geometryIdx, color, scale, GetColliderType(geometryIdx))
  }

  /** What a registered obstacle ref holds when the clock reads it: nothing
      yet, a live body at height `y`, or a body whose `translation()` throws. */
  datatype RefState = Null | Live(y: real) | Throwing

  /** The six draws obstacle `i` consumes, in the order x, z, geometry,
      colour, scale, height. */
  function ObstacleDraws(draws: seq<real>, i: nat): (d: seq<real>)
    requires Draws(draws) && DrawsPerObstacle * (i + 1) <= |draws|
    ensures |d| == DrawsPerObstacle && Draws(d)
    ensures forall k :: 0 <= k < DrawsPerObstacle ==> d[k] == draws[DrawsPerObstacle * i + k]
  {
    draws[DrawsPerObstacle * i..DrawsPerObstacle * i + DrawsPerObstacle]
  }

  /** The module-level `obstacleRefs` array, shared by the generator and the
      clock. */
  class ObstacleRegistry {
    var refs: seq<RefState>

    constructor()
      ensures refs == []
    {
      refs := [];
    }

    /** The generator's render: it empties the shared array, then creates and
        registers one fresh ref per obstacle, obstacle `i` using draws
        `6 * i .. 6 * i + 6`. */
    method ObstacleGenerator(draws: seq<real>) returns (obstacles: seq<Obstacle>)
      requires |draws| >= MaxObstacles * DrawsPerObstacle && Draws(draws)
      modifies this
      ensures refs == seq(MaxObstacles, _ => Null)
      ensures |obstacles| == MaxObstacles
      ensures forall i :: 0 <= i < MaxObstacles ==> obstacles[i] == Spawn(i, ObstacleDraws(draws, i))
    {
      obstacles := [];
      refs := [];
      for i := 0 to MaxObstacles
        invariant |obstacles| == i && refs == seq(i, _ => Null)
        invariant forall i' :: 0 <= i' < i ==> obstacles[i'] == Spawn(i', ObstacleDraws(draws, i'))
      {
        refs := refs + [Null];
        obstacles := obstacles + [Spawn(i, ObstacleDraws(draws, i))];
      }
    }
  }

  /** Every obstacle of a generator run carries its own key. */
  lemma ObstacleKeysDistinct(i: nat, j: nat, di: seq<real>, dj: seq<real>)
    requires |di| == DrawsPerObstacle && Draws(di) && |dj| == DrawsPerObstacle && Draws(dj)
    requires i != j
    ensures Spawn(i, di).key != Spawn(j, dj).key
  {
    if Spawn(i, di).key == Spawn(j, dj).key {
      PrefixedDecimalInjective("obstacle-", i, j);
    }
  }

  // ---------------------------------------------------------------------
  // The high-score clock
  // ---------------------------------------------------------------------

  const PlaneY: real := -10.0

  /** Whether a ref counts as remaining: a live body above the kill plane. */
  predicate Above(r: RefState) { r.Live? && r.y > PlaneY }

  /** The number of obstacles still in play. */
  function Remaining(refs: seq<RefState>): (n: nat)
    ensures n <= |refs|
    ensures n == 0 <==> forall k :: 0 <= k < |refs| ==> !Above(refs[k])
  {
    if |refs| == 0 then 0
    else Remaining(refs[..|refs| - 1]) + (if Above(refs[|refs| - 1]) then 1 else 0)
  }

  /** The counting loop of the check interval. */
  method CountRemaining(refs: seq<RefState>) returns (remaining: nat)
    ensures remaining == Remaining(refs)
  {
    remaining := 0;
    for k := 0 to |refs|
      invariant remaining == Remaining(refs[..k])
    {
      assert refs[..k + 1][..k] == refs[..k];
      if refs[k].Live? && refs[k].y > PlaneY {
        remaining := remaining + 1;
      }
    }
    assert refs[..|refs|] == refs;
  }

  /** The clock's state: `time`, `isRunning`, `highScore`,
      `obstaclesRemaining`, `hasSpawnedObstacles`, and whether the time
      interval is still installed. */
  datatype ClockState = ClockState(
    time: real, isRunning: bool, highScore: real,
    obstaclesRemaining: nat, hasSpawned: bool, ticking: bool)

  function InitialClock(): (c: ClockState)
    ensures c.time == 0.0 && c.isRunning && c.ticking && c.highScore == 0.0
    ensures c.obstaclesRemaining == MaxObstacles && !c.hasSpawned
  {
    ClockState(0.0, true, 0.0, MaxObstacles, false, true)
  }

  /** The 100 ms interval: a tenth of a second more, while it is installed. */
  function Tick(st: ClockState): (r: ClockState)
    ensures st.ticking ==> r.time == st.time + 0.1
    ensures !st.ticking ==> r == st
    ensures r.highScore == st.highScore && r.isRunning == st.isRunning
    ensures r.obstaclesRemaining == st.obstaclesRemaining && r.hasSpawned == st.hasSpawned
    ensures r.ticking == st.ticking
  {
    if st.ticking then st.(time := st.time + 0.1) else st
  }

  predicate Stops(st: ClockState, refs: seq<RefState>) {
    st.hasSpawned && Remaining(refs) == 0 && |refs| > 0 && st.isRunning
  }

  function Max(a: real, b: real): real { if a >= b then a else b }

  /** The 200 ms check interval, reading the shared refs. Its callback sees
      `hasSpawnedObstacles` and `isRunning` as they were when the interval
      was installed, that is, before this very call set them. */
  function Check(st: ClockState, refs: seq<RefState>): (r: ClockState)
    ensures |refs| == 0 ==> r == st.(obstaclesRemaining := MaxObstacles)
    ensures |refs| > 0 ==> r.hasSpawned && r.obstaclesRemaining == Remaining(refs)
    ensures r.time == st.time
    ensures st.isRunning && !r.isRunning <==> Stops(st, refs)
    ensures Stops(st, refs) ==> r.highScore == Max(st.highScore, st.time) && !r.ticking
    ensures !Stops(st, refs) ==> r.highScore == st.highScore && r.isRunning == st.isRunning && r.ticking == st.ticking
    ensures r.highScore >= st.highScore
  {
    if |refs| == 0 then st.(obstaclesRemaining := MaxObstacles)
    else
      var remaining := Remaining(refs);
      var r := st.(hasSpawned := true, obstaclesRemaining := remaining);
      if Stops(st, refs) then r.(ticking := false, isRunning := false, highScore := Max(st.highScore, st.time))
      else r
  }

  /** The first check that sees the refs only records that obstacles were
      spawned: stopping takes a second check. */
  lemma FirstSightNeverStops(st: ClockState, refs: seq<RefState>)
    requires !st.hasSpawned && st.isRunning
    ensures Check(st, refs).isRunning
    ensures |refs| > 0 && Remaining(refs) == 0 ==> !Check(Check(st, refs), refs).isRunning
  {
  }

  /** Once stopped, the clock is frozen: ticks and checks change neither the
      time nor the high score, which holds the time at which it stopped. */
  lemma StoppedIsFrozen(st: ClockState, refs: seq<RefState>)
    requires !st.isRunning && !st.ticking
    ensures Tick(st).time == st.time && Tick(st).highScore == st.highScore
    ensures Check(st, refs).time == st.time && Check(st, refs).highScore == st.highScore && !Check(st, refs).isRunning
  {
  }

  /** The "Obstacles: remaining/total" line's total. */
  function DisplayedTotal(refs: seq<RefState>): (t: nat)
    ensures t >= MaxObstacles && t >= |refs|
    ensures t == MaxObstacles || t == |refs|
  {
    if |refs| >= MaxObstacles then |refs| else MaxObstacles
  }

  class HighScoreClock {
    var time: real
    var isRunning: bool
    var highScore: real
    var obstaclesRemaining: nat
    var hasSpawnedObstacles: bool
    var ticking: bool

    function State(): ClockState
      reads this
    {
      ClockState(time, isRunning, highScore, obstaclesRemaining, hasSpawnedObstacles, ticking)
    }

    /** Mounting installs both intervals. */
    constructor()
      ensures State() == InitialClock()
    {
      time, isRunning, highScore, obstaclesRemaining, hasSpawnedObstacles, ticking := 0.0, true, 0.0, MaxObstacles, false, true;
    }

    method OnTick()
      modifies this
      ensures State() == Tick(old(State()))
    {
      if ticking {
        time := time + 0.1;
      }
    }

    method OnCheck(refs: seq<RefState>)
      modifies this
      ensures State() == Check(old(State()), refs)
    {
      if |refs| == 0 {
        obstaclesRemaining := MaxObstacles;
        return;
      }
      var spawnedBefore, runningBefore := hasSpawnedObstacles, isRunning;
      if !hasSpawnedObstacles {
        hasSpawnedObstacles := true;
      }
      var remaining := CountRemaining(refs);
      obstaclesRemaining := remaining;
      if spawnedBefore && remaining == 0 && |refs| > 0 && runningBefore {
        ticking := false;
        isRunning := false;
        highScore := Max(highScore, time);
      }
    }
  }

  // ---------------------------------------------------------------------
  // The player
  // ---------------------------------------------------------------------

  const MaxBounces: nat := 3

  /** The bounce counter and the body's two damping coefficients. */
  datatype PlayerState = PlayerState(bounceCount: nat, linearDamping: real, angularDamping: real)

  /** The damping the player's body is created with, and the damping that
      stops its bouncing. */
  predicate SettledDamping(p: PlayerState) { p.linearDamping == 1.2 && p.angularDamping == 0.8 }
  predicate StoppedDamping(p: PlayerState) { p.linearDamping == 15.0 && p.angularDamping == 15.0 }

  function InitialPlayer(): (p: PlayerState)
    ensures p.bounceCount == 0 && SettledDamping(p)
  {
    PlayerState(0, 1.2, 0.8)
  }

  /** `onCollisionEnter`: `otherType` is the other body's `bodyType()` when
      it has a rigid body; a fixed body (type 0) is a bounce. */
  function Collide(p: PlayerState, otherType: Option<int>): (r: PlayerState)
    ensures otherType == Some(0) ==> r.bounceCount == p.bounceCount + 1
    ensures otherType != Some(0) ==> r.bounceCount == p.bounceCount
    ensures r.linearDamping == p.linearDamping && r.angularDamping == p.angularDamping
  {
    if otherType.Some? && otherType.value == 0 then p.(bounceCount := p.bounceCount + 1) else p
  }

  predicate Rising(y: real, vy: real) { y > 3.0 && vy > 0.0 }

  /** The frame's bounce rule, given the position's height and the vertical
      velocity read at the start of the frame. */
  function BounceFrame(p: PlayerState, y: real, vy: real): (r: PlayerState)
    ensures Rising(y, vy) ==> r.bounceCount == 0 && SettledDamping(r)
    ensures !Rising(y, vy) && p.bounceCount >= MaxBounces ==> r.bounceCount == p.bounceCount && StoppedDamping(r)
    ensures !Rising(y, vy) && p.bounceCount < MaxBounces ==> r == p
    ensures (SettledDamping(p) || StoppedDamping(p)) ==> (SettledDamping(r) || StoppedDamping(r))
  {
    var isNearGround := y < 2.5 && vy < -0.1;
    var p1 := if isNearGround && p.bounceCount < MaxBounces then p
              else if p.bounceCount >= MaxBounces then p.(linearDamping := 15.0, angularDamping := 15.0)
              else p;
    if Rising(y, vy) then PlayerState(0, 1.2, 0.8) else p1
  }

  class Player {
    var bounceCount: nat
    var linearDamping: real
    var angularDamping: real

    function State(): PlayerState
      reads this
    {
      PlayerState(bounceCount, linearDamping, angularDamping)
    }

    constructor()
      ensures State() == InitialPlayer()
    {
      bounceCount, linearDamping, angularDamping := 0, 1.2, 0.8;
    }

    method OnCollisionEnter(otherType: Option<int>)
      modifies this
      ensures State() == Collide(old(State()), otherType)
    {
      if otherType.Some? && otherType.value == 0 {
        bounceCount := bounceCount + 1;
      }
    }

    method OnFrame(y: real, vy: real)
      modifies this
      ensures State() == BounceFrame(old(State()), y, vy)
    {
      var isNearGround := y < 2.5 && vy < -0.1;
      if isNearGround && bounceCount < MaxBounces {
      } else if bounceCount >= MaxBounces {
        linearDamping := 15.0;
        angularDamping := 15.0;
      }
      if y > 3.0 && vy > 0.0 {
        bounceCount := 0;
        linearDamping := 1.2;
        angularDamping := 0.8;
      }
    }
  }

  // The frame's velocity rule.

  datatype Vec3 = Vec3(x: real, y: real, z: real)

  const MoveSpeed: real := 20.0
  const SprintMultiplier: real := 3.0

  function CurrentSpeed(sprint: bool): (s: real)
    ensures s == MoveSpeed || s == MoveSpeed * SprintMultiplier
    ensures 0.0 < s <= MoveSpeed * SprintMultiplier
  {
    if sprint then MoveSpeed * SprintMultiplier else MoveSpeed
  }

  /** The held movement keys. */
  datatype MoveKeys = MoveKeys(forward: bool, backward: bool, left: bool, right: bool, sprint: bool)

  predicate MoveActive(k: MoveKeys) { k.forward || k.backward || k.left || k.right }

  /** No movement key held: strong braking of the horizontal velocity. */
  function Brake(v: Vec3): (r: Vec3)
    ensures r.y == v.y
    ensures r.x * r.x <= v.x * v.x && r.z * r.z <= v.z * v.z
    ensures (r.x == 0.0 <==> v.x == 0.0) && (r.z == 0.0 <==> v.z == 0.0)
    ensures r.x * v.x >= 0.0 && r.z * v.z >= 0.0
  {
    Vec3(v.x * 0.6, v.y, v.z * 0.6)
  }

  /** The target velocity for a movement direction `(dx, dz)` of length at
      most one, before the clamp; on such a direction the clamp to
      `moveSpeed * sprintMultiplier` never fires. */
  function TargetVelocity(dx: real, dz: real, sprint: bool, v: Vec3): (r: Vec3)
    requires dx * dx + dz * dz <= 1.0
    ensures r.y == v.y
    ensures r.x == dx * CurrentSpeed(sprint) && r.z == dz * CurrentSpeed(sprint)
    ensures r.x * r.x + r.z * r.z <= (MoveSpeed * SprintMultiplier) * (MoveSpeed * SprintMultiplier)
  {
    var s := CurrentSpeed(sprint);
    assert (dx * s) * (dx * s) + (dz * s) * (dz * s) == (dx * dx + dz * dz) * (s * s);
    assert (dx * dx + dz * dz) * (s * s) <= s * s;
    assert s * s <= 3600.0;
    Vec3(dx * s, v.y, dz * s)
  }

  /** The velocity a frame sets. */
  function FrameVelocity(k: MoveKeys, dx: real, dz: real, v: Vec3): (r: Vec3)
    requires dx * dx + dz * dz <= 1.0
    ensures !MoveActive(k) ==> r == Brake(v)
    ensures MoveActive(k) ==> r == TargetVelocity(dx, dz, k.sprint, v)
    ensures r.y == v.y
  {
    if MoveActive(k) then TargetVelocity(dx, dz, k.sprint, v) else Brake(v)
  }
}
