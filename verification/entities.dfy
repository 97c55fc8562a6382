/** The entity rules of Ship.py: bullets, the gun, and the ship's damage,
    death, respawn, collision and steering rules. Objects that the source
    mutates in place are immutable values here; every operation returns the
    updated values. */
module Entities {
  import opened Wrappers
  import opened Geometry
  import opened Controls

  type ShipId = int

  const RespawnTimer: real := 5.0
  const FireInterval: real := 0.2
  const BulletTtl: real := 3.0
  const MaxVelocity: real := 15.0
  const FullHitpoints: int := 10
  const SpawnRange: int := 400
  /** The age a bullet is given when it hits, so that expiry removes it. */
  const Tombstone: real := 1000.0

  /** What the model does not compute itself: sprite sizes (from image
      assets), the trigonometric displacements, the muzzle position and the
      bullet sweep. Each is a parameter of the operations that use it. */
  datatype Physics = Physics(
    shipSize: (int, int),
    bulletSize: (int, int),
    /** `Ship.update`'s rounded displacement for a (direction, velocity). */
    shipStep: (real, real) -> (int, int),
    /** `Bullet.update`'s displacement at speed 60 for a direction. */
    bulletStep: real -> (int, int),
    /** Where a shot starts, from the ship's rect, direction and velocity. */
    muzzle: (Rect, real, real) -> (int, int),
    /** `Bullet.interpolate`: the rectangles from the old corner to the new rect. */
    sweep: (int, int, Rect) -> seq<Rect>)

  // ---------------------------------------------------------------- Bullet

  datatype Bullet = Bullet(rect: Rect, direction: real, age: real, time: real)

  /** A bullet survives expiry while it is younger than its time to live. */
  predicate Live(b: Bullet) {
    b.age < BulletTtl
  }

  /** A direction of 0 is stored as 360. */
  function NormalizeDirection(d: real): (r: real)
    ensures r != 0.0
    ensures d != 0.0 ==> r == d
    ensures r == 360.0 || r == d
  {
    if d == 0.0 then 360.0 else d
  }

  /** `Bullet.update`: one step of flight, and the age grows by the time
      elapsed since the bullet's clock up to `now`. */
  function Fly(b: Bullet, phys: Physics, now: real): (r: Bullet)
    ensures r.rect == MoveBy(b.rect, phys.bulletStep(b.direction)) && r.direction == b.direction
    ensures r.time == now && r.age - b.age == now - b.time
  {
    Bullet(MoveBy(b.rect, phys.bulletStep(b.direction)), b.direction, b.age + (now - b.time), now)
  }

  /** The `Bullet` constructor: placed at (x, y), direction normalised, age 0,
      clock `now`, and then moved one step by `update()`. */
  function NewBullet(direction: real, x: int, y: int, phys: Physics, now: real): (b: Bullet)
    ensures b.age == 0.0 && b.time == now
    ensures b.direction != 0.0 && (direction != 0.0 ==> b.direction == direction)
    ensures b.rect == MoveBy(Rect(x, y, phys.bulletSize.0, phys.bulletSize.1), phys.bulletStep(b.direction))
  {
    Fly(Bullet(Rect(x, y, phys.bulletSize.0, phys.bulletSize.1), NormalizeDirection(direction), 0.0, now), phys, now)
  }

  // ---------------------------------------------------------------- Gun

  datatype Gun = Gun(lastTimeFired: real, bullets: seq<Bullet>)

  const NewGun: Gun := Gun(0.0, [])

  /** `Gun.shoot`: fires only when more than `FireInterval` has passed since
      the last shot; firing appends exactly one new bullet and restarts the
      interval. */
  function Shoot(g: Gun, direction: real, at: (int, int), phys: Physics, now: real): (r: Gun)
    ensures now - g.lastTimeFired > FireInterval ==>
              r.bullets == g.bullets + [NewBullet(direction, at.0, at.1, phys, now)] && r.lastTimeFired == now
    ensures now - g.lastTimeFired <= FireInterval ==> r == g
  {
    if now - g.lastTimeFired > FireInterval then
      Gun(now, g.bullets + [NewBullet(direction, at.0, at.1, phys, now)])
    else
      g
  }

  /** Two trigger pulls no more than `FireInterval` apart add at most one bullet. */
  lemma ShootRateLimited(g: Gun, d1: real, at1: (int, int), t1: real, d2: real, at2: (int, int), t2: real, phys: Physics)
    requires t1 <= t2 <= t1 + FireInterval
    ensures |Shoot(Shoot(g, d1, at1, phys, t1), d2, at2, phys, t2).bullets| <= |g.bullets| + 1
  {
  }

  /** `Gun.expireOldBullets`: keeps exactly the live bullets, in order. */
  function ExpireOldBullets(bs: seq<Bullet>): (r: seq<Bullet>)
    ensures |r| <= |bs|
    ensures forall i | 0 <= i < |r| :: Live(r[i])
    decreases |bs|
  {
    if bs == [] then []
    else (if Live(bs[0]) then [bs[0]] else []) + ExpireOldBullets(bs[1..])
  }

  /** Expiry keeps every live bullet as often as it occurs, and no other. */
  lemma {:induction false} ExpireCounts(bs: seq<Bullet>)
    ensures forall b :: multiset(ExpireOldBullets(bs))[b] == if Live(b) then multiset(bs)[b] else 0
    decreases |bs|
  {
    if bs != [] {
      assert bs == [bs[0]] + bs[1..];
      ExpireCounts(bs[1..]);
    }
  }

  /** Expiry works element by element: filtering a concatenation filters each part. */
  lemma {:induction false} ExpireDistributes(xs: seq<Bullet>, ys: seq<Bullet>)
    ensures ExpireOldBullets(xs + ys) == ExpireOldBullets(xs) + ExpireOldBullets(ys)
    decreases |xs|
  {
    if xs == [] {
      assert xs + ys == ys;
    } else {
      assert (xs + ys)[1..] == xs[1..] + ys;
      ExpireDistributes(xs[1..], ys);
    }
  }

  /** Expiry keeps a sequence of live bullets whole, so applying it twice
      changes nothing more. */
  lemma {:induction false} ExpireKeepsLive(bs: seq<Bullet>)
    requires forall i | 0 <= i < |bs| :: Live(bs[i])
    ensures ExpireOldBullets(bs) == bs
    decreases |bs|
  {
    if bs != [] {
      ExpireKeepsLive(bs[1..]);
    }
  }

  lemma ExpireIdempotent(bs: seq<Bullet>)
    ensures ExpireOldBullets(ExpireOldBullets(bs)) == ExpireOldBullets(bs)
  {
    ExpireKeepsLive(ExpireOldBullets(bs));
  }

  // ---------------------------------------------------------------- Ship

  datatype Ship = Ship(
    rect: Rect,
    velocity: real,
    direction: real,
    colliding: bool,
    hitpoints: int,
    dead: bool,
    deadStamp: real,
    gun: Gun)

  /** The `Ship` constructor: the rect comes from the ship image's size. */
  function NewShip(x: int, y: int, hitpoints: int, phys: Physics): (s: Ship)
    ensures s.rect == Rect(x, y, phys.shipSize.0, phys.shipSize.1) && s.hitpoints == hitpoints
    ensures s.velocity == 0.0 && s.direction == 360.0
    ensures !s.colliding && !s.dead && s.deadStamp == 0.0
    ensures s.gun.bullets == [] && s.gun.lastTimeFired == 0.0
    ensures 0 <= hitpoints <= FullHitpoints ==> Sane(s)
  {
    Ship(Rect(x, y, phys.shipSize.0, phys.shipSize.1), 0.0, 360.0, false, hitpoints, false, 0.0, NewGun)
  }

  /** The ranges the game keeps: hitpoints within [0, 10], speed within [0, 15]. */
  predicate Sane(s: Ship) {
    0 <= s.hitpoints <= FullHitpoints && 0.0 <= s.velocity <= MaxVelocity
  }

  predicate AllSane(m: map<ShipId, Ship>) {
    forall k | k in m :: Sane(m[k])
  }

  /** `Ship.takeDamage`: a ship with hitpoints left loses `damage` of them,
      floored at 0; a ship at 0 or below is left alone. Only hitpoints change. */
  function TakeDamage(s: Ship, damage: int): (r: Ship)
    ensures r == s.(hitpoints := r.hitpoints)
    ensures s.hitpoints <= 0 ==> r == s
    ensures s.hitpoints > 0 ==> r.hitpoints == if s.hitpoints - damage < 0 then 0 else s.hitpoints - damage
  {
    if s.hitpoints > 0 then
      var h := s.hitpoints - damage;
      s.(hitpoints := if h < 0 then 0 else h)
    else
      s
  }

  /** Non-negative damage keeps hitpoints in [0, 10] and never raises them. */
  lemma TakeDamageBounds(s: Ship, damage: int)
    requires 0 <= s.hitpoints <= FullHitpoints && damage >= 0
    ensures 0 <= TakeDamage(s, damage).hitpoints <= s.hitpoints
  {
  }

  /** Two hits in a row cost the same as one hit of their sum. */
  lemma TakeDamageAdds(s: Ship, a: int, b: int)
    requires a >= 0 && b >= 0
    ensures TakeDamage(TakeDamage(s, a), b) == TakeDamage(s, a + b)
  {
  }

  /** `Ship.handleDeath`: with no hitpoints left the ship is dead, and the
      death stamp is taken only if none was recorded. */
  function HandleDeath(s: Ship, now: real): (r: Ship)
    ensures s.hitpoints > 0 ==> r == s
    ensures s.hitpoints <= 0 ==> r.dead && r == s.(dead := true, deadStamp := r.deadStamp)
    ensures s.hitpoints <= 0 && s.deadStamp != 0.0 ==> r.deadStamp == s.deadStamp
    ensures s.hitpoints <= 0 && s.deadStamp == 0.0 ==> r.deadStamp == now
  {
    if s.hitpoints <= 0 then
      s.(dead := true, deadStamp := if s.deadStamp == 0.0 then now else s.deadStamp)
    else
      s
  }

  /** The death stamp is written once: repeated death checks at later clock
      readings do not move it (clock readings are never 0). */
  lemma HandleDeathIdempotent(s: Ship, t1: real, t2: real)
    requires t1 != 0.0
    ensures HandleDeath(HandleDeath(s, t1), t2) == HandleDeath(s, t1)
  {
  }

  /** `Ship.spawn`: a ship dead for longer than the respawn timer comes back
      at a random position within [0, 400] with full hitpoints, no speed and
      no death stamp; any other ship is left as it is. */
  function Spawn(s: Ship, now: real, at: (int, int)): (r: Ship)
    requires 0 <= at.0 <= SpawnRange && 0 <= at.1 <= SpawnRange
    ensures r.dead <==> s.dead && now - s.deadStamp <= RespawnTimer
    ensures r.dead || !s.dead ==> r == s
    ensures s.dead && !r.dead ==>
              && r.hitpoints == FullHitpoints && r.deadStamp == 0.0 && r.velocity == 0.0 && !r.colliding
              && 0 <= r.rect.x <= SpawnRange && 0 <= r.rect.y <= SpawnRange
    ensures r.gun == s.gun && r.direction == s.direction && r.rect.w == s.rect.w && r.rect.h == s.rect.h
  {
    if s.dead && now - s.deadStamp > RespawnTimer then
      s.(rect := s.rect.(x := at.0, y := at.1), dead := false, deadStamp := 0.0,
         velocity := 0.0, hitpoints := FullHitpoints, colliding := false)
    else
      s
  }

  // ------------------------------------------------------ ship-ship collision

  /** The outcome of `handleInterShipCollision`: whether any neighbour was
      touched, which neighbour (if any) was resolved, and the updated ships. */
  datatype Contact = Contact(collided: bool, partner: Option<ShipId>, ship: Ship, ships: map<ShipId, Ship>)

  /** Resolving a pair: both are marked, each loses 1 hitpoint, they exchange
      (velocity, direction) and each moves one step with what it received. */
  function Bounce(a: Ship, b: Ship, phys: Physics): (r: (Ship, Ship))
    ensures r.0.colliding && r.1.colliding
    ensures r.0.velocity == b.velocity && r.0.direction == b.direction
    ensures r.1.velocity == a.velocity && r.1.direction == a.direction
    ensures r.0.hitpoints == TakeDamage(a, 1).hitpoints && r.1.hitpoints == TakeDamage(b, 1).hitpoints
    ensures r.0.gun == a.gun && r.0.dead == a.dead && r.0.deadStamp == a.deadStamp
    ensures r.1.gun == b.gun && r.1.dead == b.dead && r.1.deadStamp == b.deadStamp
    ensures r.0.rect == MoveBy(a.rect, phys.shipStep(b.direction, b.velocity))
    ensures r.1.rect == MoveBy(b.rect, phys.shipStep(a.direction, a.velocity))
  {
    var a1 := TakeDamage(a, 1).(colliding := true, velocity := b.velocity, direction := b.direction);
    var b1 := TakeDamage(b, 1).(colliding := true, velocity := a.velocity, direction := a.direction);
    (a1.(rect := MoveBy(a1.rect, phys.shipStep(a1.direction, a1.velocity))),
     b1.(rect := MoveBy(b1.rect, phys.shipStep(b1.direction, b1.velocity))))
  }

  /** Resolution treats the two ships alike. */
  lemma BounceSymmetric(a: Ship, b: Ship, phys: Physics)
    ensures Bounce(a, b, phys) == (Bounce(b, a, phys).1, Bounce(b, a, phys).0)
  {
  }

  predicate Eligible(s: Ship, other: Ship) {
    Overlaps(s.rect, other.rect) && !other.colliding
  }

  predicate InMap(nbrs: seq<ShipId>, m: map<ShipId, Ship>) {
    forall j | 0 <= j < |nbrs| :: nbrs[j] in m
  }

  /** Index `i` is the first neighbour the ship touches that has not been in
      a collision yet. */
  predicate FirstEligible(s: Ship, m: map<ShipId, Ship>, nbrs: seq<ShipId>, i: int)
    requires InMap(nbrs, m)
  {
    && 0 <= i < |nbrs|
    && Eligible(s, m[nbrs[i]])
    && forall j | 0 <= j < i :: !Eligible(s, m[nbrs[j]])
  }

  /** `Ship.handleInterShipCollision` against the neighbours `nbrs` (ids of
      the ships in `m`), checked in list order. */
  function HandleInterShipCollision(s: Ship, m: map<ShipId, Ship>, nbrs: seq<ShipId>, phys: Physics): (c: Contact)
    requires InMap(nbrs, m)
    ensures c.ships.Keys == m.Keys
    ensures c.ship.gun == s.gun
    ensures c.partner.None? ==> c.ship == s && c.ships == m
    ensures s.colliding ==> c.partner.None?
    decreases |nbrs|
  {
    if nbrs == [] then Contact(false, None, s, m)
    else
      var k := nbrs[0];
      var touch := Overlaps(s.rect, m[k].rect);
      if touch && !s.colliding && !m[k].colliding then
        var pair := Bounce(s, m[k], phys);
        var rest := HandleInterShipCollision(pair.0, m[k := pair.1], nbrs[1..], phys);
        Contact(true, Some(k), rest.ship, rest.ships)
      else
        var rest := HandleInterShipCollision(s, m, nbrs[1..], phys);
        Contact(touch || rest.collided, rest.partner, rest.ship, rest.ships)
  }

  /** The collision result: it reports a collision exactly when the ship's
      rect overlaps some neighbour; at most one pair is resolved per call, and
      it is the ship with the first touching neighbour not yet colliding,
      provided the ship itself is not colliding; nothing else changes. */
  lemma {:induction false} CollisionResolvesFirstEligible(s: Ship, m: map<ShipId, Ship>, nbrs: seq<ShipId>, phys: Physics)
    requires InMap(nbrs, m)
    ensures var c := HandleInterShipCollision(s, m, nbrs, phys);
      && (c.collided <==> exists i | 0 <= i < |nbrs| :: Overlaps(s.rect, m[nbrs[i]].rect))
      && (c.partner.None? <==> s.colliding || forall i | 0 <= i < |nbrs| :: !Eligible(s, m[nbrs[i]]))
      && (c.partner.Some? ==>
            var k := c.partner.value;
            && k in m
            && (exists i :: FirstEligible(s, m, nbrs, i) && nbrs[i] == k)
            && c.ship == Bounce(s, m[k], phys).0
            && c.ships == m[k := Bounce(s, m[k], phys).1])
    decreases |nbrs|
  {
    if nbrs != [] {
      var k := nbrs[0];
      var tail := nbrs[1..];
      assert forall j | 1 <= j < |nbrs| :: nbrs[j] == tail[j - 1];
      var touch := Overlaps(s.rect, m[k].rect);
      if touch && !s.colliding && !m[k].colliding {
        assert FirstEligible(s, m, nbrs, 0);
      } else {
        CollisionResolvesFirstEligible(s, m, tail, phys);
        var c := HandleInterShipCollision(s, m, nbrs, phys);
        if c.partner.Some? {
          var i :| FirstEligible(s, m, tail, i) && tail[i] == c.partner.value;
          FirstEligibleShift(s, m, nbrs, i);
        }
      }
    }
  }

  /** A first eligible neighbour of the tail is the first of the whole list
      when the head is not eligible. */
  lemma FirstEligibleShift(s: Ship, m: map<ShipId, Ship>, nbrs: seq<ShipId>, i: int)
    requires InMap(nbrs, m) && nbrs != [] && !Eligible(s, m[nbrs[0]])
    requires InMap(nbrs[1..], m) && FirstEligible(s, m, nbrs[1..], i)
    ensures FirstEligible(s, m, nbrs, i + 1) && nbrs[i + 1] == nbrs[1..][i]
  {
    forall j | 1 <= j <= i
      ensures !Eligible(s, m[nbrs[j]])
    {
      assert nbrs[j] == nbrs[1..][j - 1];
    }
  }

  // ------------------------------------------------------ steering and update

  /** The speed change of `handleMovementInput`: W (which wins over S) adds
      5 per second up to 15; S removes 20 per second down to 0. */
  function Throttle(v: real, keys: Keys, dt: real): (r: real)
    ensures !keys.w && !keys.s ==> r == v
    ensures keys.w ==> r == if v + 5.0 * dt > MaxVelocity then MaxVelocity else v + 5.0 * dt
    ensures !keys.w && keys.s ==> r == if v - 20.0 * dt < 0.0 then 0.0 else v - 20.0 * dt
    ensures keys.w ==> r <= MaxVelocity && (dt >= 0.0 && v <= MaxVelocity ==> v <= r)
    ensures !keys.w && keys.s ==> r >= 0.0 && (dt >= 0.0 && v >= 0.0 ==> r <= v)
    ensures dt >= 0.0 && 0.0 <= v <= MaxVelocity ==> 0.0 <= r <= MaxVelocity
  {
    if keys.w then
      var up := 5.0 * dt + v;
      if up > MaxVelocity then MaxVelocity else up
    else if keys.s then
      var down := v - 20.0 * dt;
      if down < 0.0 then 0.0 else down
    else
      v
  }

  /** The direction change of `handleMovementInput`: A (which wins over D)
      turns by +180 degrees per second, D by -180. */
  function Turn(dir: real, keys: Keys, dt: real): (r: real)
    ensures keys.a ==> r - dir == 180.0 * dt
    ensures !keys.a && keys.d ==> r - dir == -180.0 * dt
    ensures !keys.a && !keys.d ==> r == dir
  {
    if keys.a then dir + 180.0 * dt
    else if keys.d then dir - 180.0 * dt
    else dir
  }

  /** W wins over S and A wins over D: with the first key of a pair held,
      the second one makes no difference. */
  lemma KeyPriority(v: real, dir: real, keys: Keys, dt: real)
    ensures keys.w ==> Throttle(v, keys, dt) == Throttle(v, keys.(s := false), dt)
    ensures keys.a ==> Turn(dir, keys, dt) == Turn(dir, keys.(d := false), dt)
  {
  }

  /** `Ship.update`: collide with the neighbours, then the death check, then
      move one step with the (possibly exchanged) velocity and direction. */
  function Update(s: Ship, m: map<ShipId, Ship>, nbrs: seq<ShipId>, phys: Physics, now: real): (r: (Ship, map<ShipId, Ship>))
    requires InMap(nbrs, m)
    ensures r.1.Keys == m.Keys
    ensures r.0.hitpoints <= 0 ==> r.0.dead
    ensures r.0.gun == s.gun
    ensures s.colliding ==> r.1 == m
    ensures HandleInterShipCollision(s, m, nbrs, phys).partner.None? ==>
              r.1 == m && r.0 == HandleDeath(s, now).(rect := MoveBy(s.rect, phys.shipStep(s.direction, s.velocity)))
  {
    var c := HandleInterShipCollision(s, m, nbrs, phys);
    var d := HandleDeath(c.ship, now);
    (d.(rect := MoveBy(d.rect, phys.shipStep(d.direction, d.velocity))), c.ships)
  }

  /** How `update` moves a ship. With no neighbour to resolve it moves one
      step along its own heading at its own speed. Otherwise it takes the
      first eligible neighbour's heading and speed, loses a hitpoint, and
      moves two steps with them: one in the bounce and one in the update. */
  lemma UpdateMoves(s: Ship, m: map<ShipId, Ship>, nbrs: seq<ShipId>, phys: Physics, now: real)
    requires InMap(nbrs, m)
    ensures var r := Update(s, m, nbrs, phys, now);
      (s.colliding || forall i | 0 <= i < |nbrs| :: !Eligible(s, m[nbrs[i]])) ==>
        r.1 == m && r.0 == HandleDeath(s, now).(rect := MoveBy(s.rect, phys.shipStep(s.direction, s.velocity)))
    ensures var r := Update(s, m, nbrs, phys, now);
      forall i | FirstEligible(s, m, nbrs, i) && !s.colliding ::
        var o := m[nbrs[i]];
        var step := phys.shipStep(o.direction, o.velocity);
        && r.0.velocity == o.velocity && r.0.direction == o.direction
        && r.0.rect == MoveBy(MoveBy(s.rect, step), step)
        && r.0.hitpoints == TakeDamage(s, 1).hitpoints
        && r.1 == m[nbrs[i] := Bounce(s, o, phys).1]
  {
    CollisionResolvesFirstEligible(s, m, nbrs, phys);
    forall i | FirstEligible(s, m, nbrs, i) && !s.colliding
      ensures HandleInterShipCollision(s, m, nbrs, phys).partner == Some(nbrs[i])
    {
      var c := HandleInterShipCollision(s, m, nbrs, phys);
      var j :| FirstEligible(s, m, nbrs, j) && nbrs[j] == c.partner.value;
    }
  }

  /** `Ship.handleMovementInput`: a dead ship ignores input; otherwise steer,
      fire if SPACE is held, and update against the neighbours. */
  function HandleMovementInput(s: Ship, keys: Keys, dt: real, m: map<ShipId, Ship>, nbrs: seq<ShipId>,
                               phys: Physics, now: real): (r: (Ship, map<ShipId, Ship>))
    requires InMap(nbrs, m)
    ensures r.1.Keys == m.Keys
    ensures s.dead ==> r == (s, m)
    ensures !s.dead && !keys.space ==> r.0.gun == s.gun
  {
    if s.dead then (s, m)
    else
      var v := Throttle(s.velocity, keys, dt);
      var dir := Turn(s.direction, keys, dt);
      var steered := s.(velocity := v, direction := dir);
      var armed :=
        if keys.space then steered.(gun := Shoot(steered.gun, dir, phys.muzzle(steered.rect, dir, v), phys, now))
        else steered;
      Update(armed, m, nbrs, phys, now)
  }

  /** A living ship with no neighbour to resolve takes the speed of
      `Throttle` and the heading of `Turn`, fires if SPACE is held, moves one
      step with the new speed and heading, and then the death check runs;
      the other ships are untouched. */
  lemma SteerMoves(s: Ship, keys: Keys, dt: real, m: map<ShipId, Ship>, nbrs: seq<ShipId>,
                   phys: Physics, now: real)
    requires InMap(nbrs, m) && !s.dead
    requires s.colliding || forall i | 0 <= i < |nbrs| :: !Eligible(s, m[nbrs[i]])
    ensures var r := HandleMovementInput(s, keys, dt, m, nbrs, phys, now);
      var v, dir := Throttle(s.velocity, keys, dt), Turn(s.direction, keys, dt);
      var gun := if keys.space then Shoot(s.gun, dir, phys.muzzle(s.rect, dir, v), phys, now) else s.gun;
      && r.1 == m
      && r.0 == HandleDeath(s, now).(velocity := v, direction := dir, gun := gun,
                                     rect := MoveBy(s.rect, phys.shipStep(dir, v)))
  {
    var v, dir := Throttle(s.velocity, keys, dt), Turn(s.direction, keys, dt);
    var gun := if keys.space then Shoot(s.gun, dir, phys.muzzle(s.rect, dir, v), phys, now) else s.gun;
    var armed := s.(velocity := v, direction := dir, gun := gun);
    UpdateMoves(armed, m, nbrs, phys, now);
  }

  /** Steering input with a non-negative frame time keeps every ship involved
      within the game's ranges: hitpoints in [0, 10] and speed in [0, 15]. */
  lemma MovementKeepsSane(s: Ship, keys: Keys, dt: real, m: map<ShipId, Ship>, nbrs: seq<ShipId>,
                          phys: Physics, now: real)
    requires InMap(nbrs, m)
    requires Sane(s) && AllSane(m) && dt >= 0.0
    ensures var r := HandleMovementInput(s, keys, dt, m, nbrs, phys, now);
      Sane(r.0) && AllSane(r.1)
  {
    if !s.dead {
      var v := Throttle(s.velocity, keys, dt);
      var dir := Turn(s.direction, keys, dt);
      var steered := s.(velocity := v, direction := dir);
      var armed :=
        if keys.space then steered.(gun := Shoot(steered.gun, dir, phys.muzzle(steered.rect, dir, v), phys, now))
        else steered;
      assert Sane(armed);
      ContactKeepsSane(armed, m, nbrs, phys);
      var c := HandleInterShipCollision(armed, m, nbrs, phys);
      var u := Update(armed, m, nbrs, phys, now);
      assert u.0.hitpoints == c.ship.hitpoints && u.0.velocity == c.ship.velocity && u.1 == c.ships;
    }
  }

  /** A collision keeps both ships within the game's ranges. */
  lemma ContactKeepsSane(s: Ship, m: map<ShipId, Ship>, nbrs: seq<ShipId>, phys: Physics)
    requires InMap(nbrs, m) && Sane(s) && AllSane(m)
    ensures var c := HandleInterShipCollision(s, m, nbrs, phys);
      Sane(c.ship) && AllSane(c.ships)
  {
    CollisionResolvesFirstEligible(s, m, nbrs, phys);
    var c := HandleInterShipCollision(s, m, nbrs, phys);
    if c.partner.Some? {
      var k := c.partner.value;
      TakeDamageBounds(s, 1);
      TakeDamageBounds(m[k], 1);
    }
  }
}
