/** The prototype client of echoClient.py: its ship's heading
    (`getDirection`), its decoder, its bullets, the reconciliation of its own
    ship with the server's, and one iteration of its main loop up to the
    send of its buffered inputs. */
module EchoClient {
  import opened Wrappers
  import opened Geometry
  import opened Controls
  import opened Sessions
  import opened Trust
  import opened Echo

  // ---------------------------------------------------------------- heading

  /** Whether an angle is one of the eight compass headings the client
      draws, in degrees counter-clockwise from up. */
  predicate Compass(angle: int) {
    0 <= angle < 360 && angle % 45 == 0
  }

  /** `getDirection`: the heading of a velocity, decided case by case; a
      still ship faces up. */
  function GetDirection(v: (real, real)): (angle: int)
    ensures Compass(angle)
    ensures v == (0.0, 0.0) ==> angle == 0
  {
    var (vx, vy) := v;
    if vx > 0.0 && vy == 0.0 then 270
    else if vx < 0.0 && vy == 0.0 then 90
    else if vx == 0.0 && vy > 0.0 then 180
    else if vx == 0.0 && vy < 0.0 then 0
    else if vx == 0.0 && vy == 0.0 then 0
    else if vy > 0.0 && vx > 0.0 then 225
    else if vy > 0.0 && vx < 0.0 then 135
    else if vy < 0.0 && vx > 0.0 then 315
    else if vy < 0.0 && vx < 0.0 then 45
    else 0
  }

  /** Reversing a moving ship's velocity turns its heading half way round. */
  lemma DirectionOpposite(v: (real, real))
    requires v != (0.0, 0.0)
    ensures GetDirection((-v.0, -v.1)) == (GetDirection(v) + 180) % 360
  {
  }

  /** Reflecting the velocity left to right reflects the heading. */
  lemma DirectionMirror(v: (real, real))
    ensures GetDirection((-v.0, v.1)) == (360 - GetDirection(v)) % 360
  {
  }

  /** The heading the keys give on a frame of positive length, W beating S
      and A beating D: up is 0, left 90, down 180, right 270, and a diagonal
      lies half way between its two axes. */
  lemma DirectionOfKeys(k: Keys, dt: real)
    requires dt > 0.0
    ensures var angle := GetDirection(Steer(k, dt));
      var up := k.w;
      var down := !k.w && k.s;
      var left := k.a;
      var right := !k.a && k.d;
      && (!up && !down && !left && !right ==> angle == 0)
      && (up && !left && !right ==> angle == 0)
      && (up && left ==> angle == 45)
      && (!up && !down && left ==> angle == 90)
      && (down && left ==> angle == 135)
      && (down && !left && !right ==> angle == 180)
      && (down && right ==> angle == 225)
      && (!up && !down && right ==> angle == 270)
      && (up && right ==> angle == 315)
  {
  }

  // ---------------------------------------------------------------- decoding

  /** The client's `jsonDeserialize`: a new ship of the client's image size
      `size` (width, height) at the recorded corner, with the recorded
      velocity. */
  function ClientDecode(d: EchoState, size: (int, int)): (s: EchoShip)
    ensures s.rect.x == d.x && s.rect.y == d.y && s.velocity == d.velocity
    ensures s.rect.w == size.0 && s.rect.h == size.1
  {
    EchoShip(Rect(d.x, d.y, size.0, size.1), d.velocity)
  }

  /** Decoding what was serialised gives the ship back, velocity included. */
  lemma ClientDecodeEncode(s: EchoShip)
    ensures ClientDecode(Serialize(s), (s.rect.w, s.rect.h)) == s
  {
  }

  // ---------------------------------------------------------------- bullets

  /** A prototype bullet: a 10 x 10 rect, a heading in degrees and an age
      that nothing advances. */
  datatype EchoBullet = EchoBullet(rect: Rect, direction: int, age: int)

  /** The `Bullet` constructor: a bullet at the corner `(x, y)` with age 0;
      a heading of 0 is stored as 360, which points the same way. */
  function NewEchoBullet(direction: int, x: int, y: int): (b: EchoBullet)
    ensures b.rect == Rect(x, y, 10, 10) && b.age == 0
    ensures b.direction != 0 && b.direction % 360 == direction % 360
    ensures direction != 0 ==> b.direction == direction
  {
    EchoBullet(Rect(x, y, 10, 10), if direction == 0 then 360 else direction, 0)
  }

  /** `Bullet.update`: the bullet moves by `fly(direction)`, the whole-pixel
      displacement of 100 pixels along its heading. */
  function FlyEcho(b: EchoBullet, fly: int -> (int, int)): (r: EchoBullet)
    ensures r.rect == MoveBy(b.rect, fly(b.direction)) && r.direction == b.direction && r.age == b.age
  {
    b.(rect := MoveBy(b.rect, fly(b.direction)))
  }

  /** The bullets of one frame: a held trigger adds a bullet at the corner
      `(x, y)` along `heading`, then every bullet flies one step. */
  function FireAndFly(bullets: seq<EchoBullet>, fire: bool, heading: int, x: int, y: int,
                      fly: int -> (int, int)): (r: seq<EchoBullet>)
    requires Compass(heading)
    ensures |r| == |bullets| + (if fire then 1 else 0)
    ensures forall i | 0 <= i < |bullets| :: r[i] == FlyEcho(bullets[i], fly)
    ensures fire ==> r[|bullets|] == FlyEcho(NewEchoBullet(heading, x, y), fly)
  {
    var shots := if fire then bullets + [NewEchoBullet(heading, x, y)] else bullets;
    seq(|shots|, i requires 0 <= i < |shots| => FlyEcho(shots[i], fly))
  }

  // ---------------------------------------------------------------- frames


  /** The client's state between frames: its id, its ship once it has one,
      the recent positions it has sent, the inputs not yet sent, its
      bullets, and the times of the last send and the last frame. */
  datatype EchoClientState = EchoClientState(
    id: ClientId,
    ship: Option<EchoShip>,
    trust: seq<PosKey>,
    buffer: seq<Input>,
    bullets: seq<EchoBullet>,
    lastSentTime: real,
    oldTime: real)

  /** The client has a ship of its own once it has recorded a position. */
  predicate Consistent(c: EchoClientState) {
    |c.trust| > 0 ==> c.ship.Some?
  }

  function Position(s: EchoShip): PosKey {
    (s.rect.x, s.rect.y)
  }

  /** The reconciliation at the top of the loop: with no recorded position
      the server's ship is taken; otherwise the server's ship replaces the
      local one only when its corner is not among the recorded positions. */
  function Reconcile(trust: seq<PosKey>, server: EchoState, local: Option<EchoShip>, size: (int, int)): (s: EchoShip)
    requires |trust| > 0 ==> local.Some?
    ensures !Trusts(trust, (server.x, server.y)) ==> s == ClientDecode(server, size)
    ensures Trusts(trust, (server.x, server.y)) ==> s == local.value
  {
    if |trust| == 0 then ClientDecode(server, size)
    else
      var serverShip := ClientDecode(server, size);
      if Position(serverShip) !in trust then serverShip else local.value
  }

  /** What a frame leaves behind: the client and the update sent, if any. */
  datatype EchoFrame = EchoFrame(client: EchoClientState, sent: Option<Request>)

  /** One iteration of the main loop at clock reading `now`, with the keys
      `pressed` and the ship table `ships` of the last packet. The own ship
      is reconciled; its velocity is set from the keys; a held space fires a
      bullet from the ship's corner along the new heading; the ship moves;
      every bullet flies one step; the input joins the buffer; and once at
      least `SendInterval` has passed since the last send, the buffer goes
      out, the ship's position is recorded and the buffer is emptied. */
  function RunEchoFrame(c: EchoClientState, ships: map<ClientId, EchoState>, pressed: Keys, size: (int, int),
                        fly: int -> (int, int), now: real): (f: EchoFrame)
    requires Consistent(c) && c.id in ships
    ensures Consistent(f.client)
    ensures f.client.id == c.id && f.client.oldTime == now
    ensures var ship := Reconcile(c.trust, ships[c.id], c.ship, size);
      f.client.ship == Some(EchoMove(ship, pressed, now - c.oldTime))
    ensures f.sent.Some? <==> now - c.lastSentTime >= SendInterval
    ensures f.client.trust == EchoUpkeep(c.trust, Position(f.client.ship.value), f.sent.Some?)
  {
    var ship := Reconcile(c.trust, ships[c.id], c.ship, size);
    var dt := now - c.oldTime;
    var flown := FireAndFly(c.bullets, pressed.space, GetDirection(Steer(pressed, dt)), ship.rect.x, ship.rect.y, fly);
    Dispatch(c, EchoMove(ship, pressed, dt), flown, Input(pressed, dt, None), now)
  }

  /** The end of a frame: the moved ship and the flown bullets are kept, the
      frame's input joins the buffer, and once `SendInterval` has passed
      since the last send the buffer goes out and the position is recorded. */
  function Dispatch(c: EchoClientState, moved: EchoShip, flown: seq<EchoBullet>, input: Input, now: real): (f: EchoFrame)
    ensures f.client.id == c.id && f.client.oldTime == now
    ensures f.client.ship == Some(moved) && f.client.bullets == flown
    ensures f.sent.Some? <==> now - c.lastSentTime >= SendInterval
    ensures f.sent.Some? ==>
              f.sent.value == Update(c.id, c.buffer + [input], now) && f.client.buffer == [] && f.client.lastSentTime == now
    ensures f.sent.None? ==> f.client.buffer == c.buffer + [input] && f.client.lastSentTime == c.lastSentTime
    ensures f.client.trust == EchoUpkeep(c.trust, Position(moved), f.sent.Some?)
  {
    var buffered := c.buffer + [input];
    var send := now - c.lastSentTime >= SendInterval;
    EchoFrame(
      EchoClientState(c.id, Some(moved), EchoUpkeep(c.trust, Position(moved), send),
                      if send then [] else buffered, flown, if send then now else c.lastSentTime, now),
      if send then Some(Update(c.id, buffered, now)) else None)
  }

  /** The bullets after a frame: a held space adds exactly one bullet, made
      at the ship's corner before it moved and pointing along the heading of
      the new velocity; then every bullet, old and new, flies one step. */
  lemma EchoFrameBullets(c: EchoClientState, ships: map<ClientId, EchoState>, pressed: Keys, size: (int, int),
                         fly: int -> (int, int), now: real)
    requires Consistent(c) && c.id in ships
    ensures var f := RunEchoFrame(c, ships, pressed, size, fly, now);
      && |f.client.bullets| == |c.bullets| + (if pressed.space then 1 else 0)
      && (forall i | 0 <= i < |c.bullets| :: f.client.bullets[i] == FlyEcho(c.bullets[i], fly))
      && (pressed.space ==>
            var ship := Reconcile(c.trust, ships[c.id], c.ship, size);
            var heading := GetDirection(Steer(pressed, now - c.oldTime));
            f.client.bullets[|c.bullets|] == FlyEcho(NewEchoBullet(heading, ship.rect.x, ship.rect.y), fly))
  {
  }

  /** The send of a frame: the frame's input joins the buffer; on a send
      frame the whole buffer goes out under the client's id and the frame's
      clock, and the buffer is emptied; otherwise it is kept for later. */
  lemma EchoFrameSend(c: EchoClientState, ships: map<ClientId, EchoState>, pressed: Keys, size: (int, int),
                      fly: int -> (int, int), now: real)
    requires Consistent(c) && c.id in ships
    ensures var f := RunEchoFrame(c, ships, pressed, size, fly, now);
      var buffered := c.buffer + [Input(pressed, now - c.oldTime, None)];
      && (f.sent.Some? ==>
            f.sent.value == Update(c.id, buffered, now) && f.client.buffer == [] && f.client.lastSentTime == now)
      && (f.sent.None? ==> f.client.buffer == buffered && f.client.lastSentTime == c.lastSentTime)
  {
    var ship := Reconcile(c.trust, ships[c.id], c.ship, size);
    var dt := now - c.oldTime;
    var flown := FireAndFly(c.bullets, pressed.space, GetDirection(Steer(pressed, dt)), ship.rect.x, ship.rect.y, fly);
    var f := Dispatch(c, EchoMove(ship, pressed, dt), flown, Input(pressed, dt, None), now);
    assert RunEchoFrame(c, ships, pressed, size, fly, now) == f;
  }

  /** After a frame that sent, a server that reports the position the client
      just predicted leaves the prediction in place. */
  lemma EchoedPositionKeepsPrediction(c: EchoClientState, ships: map<ClientId, EchoState>, pressed: Keys,
                                      size: (int, int), fly: int -> (int, int), now: real, server: EchoState)
    requires Consistent(c) && c.id in ships
    ensures var f := RunEchoFrame(c, ships, pressed, size, fly, now);
      var me := f.client.ship.value;
      f.sent.Some? && (server.x, server.y) == Position(me) ==>
        Reconcile(f.client.trust, server, f.client.ship, size) == me
  {
    var f := RunEchoFrame(c, ships, pressed, size, fly, now);
    UpkeepTrustsLatest(c.trust, Position(f.client.ship.value), f.sent.Some?, false);
  }

  /** The server replays a sent input exactly as the client moved: the
      replay of a one-input buffer is the client's own movement step. */
  lemma ServerReplaysClientStep(s: EchoShip, pressed: Keys, dt: real)
    ensures EchoReplay(s, [Input(pressed, dt, None)]) == EchoMove(s, pressed, dt)
  {
  }
}
