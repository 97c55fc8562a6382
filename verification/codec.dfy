/** The record form of ships, guns and bullets sent between server and
    client (the dictionaries built by the `jsonSerialize` methods of Ship.py),
    decoding, and `Ship.deepCopy`, which is decode after encode. */
module Codec {
  import opened Geometry
  import opened Entities

  datatype BulletState = BulletState(time: real, x: int, y: int, direction: real, age: real)

  datatype GunState = GunState(bullets: seq<BulletState>, lastTimeFired: real)

  datatype ShipState = ShipState(
    x: int, y: int, h: int, w: int,
    velocity: real,
    hitpoints: int,
    colliding: bool,
    dead: bool,
    deadStamp: real,
    gun: GunState,
    direction: real)

  /** `Bullet.jsonSerialize`: the clock, the rect's corner, the heading and
      the age; the rect's size is not recorded. */
  function SerializeBullet(b: Bullet): (d: BulletState)
    ensures d.time == b.time && d.x == b.rect.x && d.y == b.rect.y
    ensures d.direction == b.direction && d.age == b.age
  {
    BulletState(b.time, b.rect.x, b.rect.y, b.direction, b.age)
  }

  /** `Bullet.jsonDeserialize`: a new bullet at the recorded corner (which
      the constructor moves one step), then the recorded clock and age. */
  function DeserializeBullet(d: BulletState, phys: Physics, now: real): (b: Bullet)
    ensures b.time == d.time && b.age == d.age
    ensures b.direction == NormalizeDirection(d.direction)
  {
    NewBullet(d.direction, d.x, d.y, phys, now).(time := d.time, age := d.age)
  }

  function SerializeBullets(bs: seq<Bullet>): (r: seq<BulletState>)
    ensures |r| == |bs|
    ensures forall i | 0 <= i < |bs| :: r[i] == SerializeBullet(bs[i])
  {
    seq(|bs|, i requires 0 <= i < |bs| => SerializeBullet(bs[i]))
  }

  function DeserializeBullets(ds: seq<BulletState>, phys: Physics, now: real): (r: seq<Bullet>)
    ensures |r| == |ds|
    ensures forall i | 0 <= i < |ds| :: r[i] == DeserializeBullet(ds[i], phys, now)
  {
    seq(|ds|, i requires 0 <= i < |ds| => DeserializeBullet(ds[i], phys, now))
  }

  /** `Gun.jsonSerialize`: the bullets' records in order and the last
      firing time. */
  function SerializeGun(g: Gun): (d: GunState)
    ensures d.lastTimeFired == g.lastTimeFired && |d.bullets| == |g.bullets|
    ensures forall i | 0 <= i < |g.bullets| :: d.bullets[i] == SerializeBullet(g.bullets[i])
  {
    GunState(SerializeBullets(g.bullets), g.lastTimeFired)
  }

  /** `Gun.jsonDeserialize`: the recorded firing time and one decoded
      bullet per record, in order. */
  function DeserializeGun(d: GunState, phys: Physics, now: real): (g: Gun)
    ensures g.lastTimeFired == d.lastTimeFired && |g.bullets| == |d.bullets|
    ensures forall i | 0 <= i < |d.bullets| :: g.bullets[i] == DeserializeBullet(d.bullets[i], phys, now)
  {
    Gun(d.lastTimeFired, DeserializeBullets(d.bullets, phys, now))
  }

  /** `Ship.jsonSerialize`: one record field per ship attribute, the rect's
      corner and size included, and the gun in its own record form. */
  function SerializeShip(s: Ship): (r: ShipState)
    ensures r.x == s.rect.x && r.y == s.rect.y && r.w == s.rect.w && r.h == s.rect.h
    ensures r.velocity == s.velocity && r.hitpoints == s.hitpoints && r.direction == s.direction
    ensures r.colliding == s.colliding && r.dead == s.dead && r.deadStamp == s.deadStamp
    ensures r.gun.lastTimeFired == s.gun.lastTimeFired && r.gun.bullets == SerializeBullets(s.gun.bullets)
  {
    ShipState(s.rect.x, s.rect.y, s.rect.h, s.rect.w, s.velocity, s.hitpoints, s.colliding,
              s.dead, s.deadStamp, SerializeGun(s.gun), s.direction)
  }

  /** `Ship.jsonDeserialize`: a new ship at the recorded position (sized by
      the ship image, not by the recorded `w`/`h`), the recorded fields, and
      then the death check. */
  function DeserializeShip(d: ShipState, phys: Physics, now: real): (r: Ship)
    ensures r.rect == Rect(d.x, d.y, phys.shipSize.0, phys.shipSize.1)
    ensures r.velocity == d.velocity && r.hitpoints == d.hitpoints && r.colliding == d.colliding
    ensures r.direction == d.direction && r.gun == DeserializeGun(d.gun, phys, now)
    ensures r.dead <==> d.dead || d.hitpoints <= 0
    ensures r.deadStamp == if d.hitpoints <= 0 && d.deadStamp == 0.0 then now else d.deadStamp
  {
    var blank := NewShip(d.x, d.y, d.hitpoints, phys);
    var filled := blank.(velocity := d.velocity, colliding := d.colliding, dead := d.dead,
                         deadStamp := d.deadStamp, gun := DeserializeGun(d.gun, phys, now),
                         direction := d.direction);
    HandleDeath(filled, now)
  }

  /** `Ship.deepCopy`. It keeps position, speed, hitpoints, the colliding
      flag, direction, the gun's last firing time and the bullets' clocks and
      ages; the rect takes the ship image's size; a ship without hitpoints
      comes back dead with a death stamp; and every bullet is moved one step
      by the bullet constructor. */
  function DeepCopy(s: Ship, phys: Physics, now: real): (r: Ship)
    ensures r.rect == Rect(s.rect.x, s.rect.y, phys.shipSize.0, phys.shipSize.1)
    ensures r.velocity == s.velocity && r.hitpoints == s.hitpoints && r.colliding == s.colliding
    ensures r.direction == s.direction && r.gun.lastTimeFired == s.gun.lastTimeFired
    ensures r.dead <==> s.dead || s.hitpoints <= 0
    ensures r.deadStamp == if s.hitpoints <= 0 && s.deadStamp == 0.0 then now else s.deadStamp
    ensures |r.gun.bullets| == |s.gun.bullets|
    ensures forall i | 0 <= i < |s.gun.bullets| ::
              var b, c := s.gun.bullets[i], r.gun.bullets[i];
              && c.time == b.time && c.age == b.age && c.direction == NormalizeDirection(b.direction)
              && c.rect == MoveBy(Rect(b.rect.x, b.rect.y, phys.bulletSize.0, phys.bulletSize.1),
                                  phys.bulletStep(c.direction))
  {
    DeserializeShip(SerializeShip(s), phys, now)
  }

  /** A ship in its settled form (image-sized rect, no bullets in flight, and
      a death stamp whenever it has no hitpoints) survives the copy exactly. */
  lemma DeepCopyIdentity(s: Ship, phys: Physics, now: real)
    requires s.rect.w == phys.shipSize.0 && s.rect.h == phys.shipSize.1
    requires s.gun.bullets == []
    requires s.hitpoints <= 0 ==> s.dead && s.deadStamp != 0.0
    ensures DeepCopy(s, phys, now) == s
  {
  }

  /** Copying twice is copying once, apart from the bullets, which the
      second copy moves one step further. */
  lemma DeepCopyStable(s: Ship, phys: Physics, t1: real, t2: real)
    requires t1 != 0.0
    ensures var once := DeepCopy(s, phys, t1);
      DeepCopy(once, phys, t2) == once.(gun := DeepCopy(once, phys, t2).gun)
  {
  }

  /** Encoding after decoding gives back every recorded field except the
      size (taken from the image), the bullets (moved one step), and the
      death fields, which the death check fills in. */
  lemma DecodeEncode(d: ShipState, phys: Physics, now: real)
    ensures var e := SerializeShip(DeserializeShip(d, phys, now));
      && e.x == d.x && e.y == d.y && e.velocity == d.velocity && e.hitpoints == d.hitpoints
      && e.colliding == d.colliding && e.direction == d.direction
      && e.gun.lastTimeFired == d.gun.lastTimeFired && |e.gun.bullets| == |d.gun.bullets|
      && (d.hitpoints > 0 ==> e.dead == d.dead && e.deadStamp == d.deadStamp)
  {
  }
}
