/** The ship of the prototype client and server (`Ship` in echoServer.py
    and echoClient.py): a rectangle and a two-component velocity. Its
    movement rule is stateless: every input sets the velocity afresh from
    the keys and the frame time, and the rectangle moves by the rounded
    velocity. */
module Echo {
  import opened Geometry
  import opened Controls

  /** Pixels per second along either axis. */
  const Speed: real := 100.0

  /** A prototype ship: its rect and its velocity `[vx, vy]`. */
  datatype EchoShip = EchoShip(rect: Rect, velocity: (real, real))

  /** `jsonSerialize`: the fields `x`, `y`, `h`, `w` and `velocity`. */
  datatype EchoState = EchoState(x: int, y: int, h: int, w: int, velocity: (real, real))

  function Serialize(s: EchoShip): (d: EchoState)
    ensures d.x == s.rect.x && d.y == s.rect.y && d.w == s.rect.w && d.h == s.rect.h
    ensures d.velocity == s.velocity
  {
    EchoState(s.rect.x, s.rect.y, s.rect.h, s.rect.w, s.velocity)
  }

  /** One axis of `handleMovementInput`: the negative key wins over the
      positive one; with neither the component is 0. */
  function Axis(neg: bool, pos: bool, dt: real): real {
    if neg then -Speed * dt else if pos then Speed * dt else 0.0
  }

  /** The velocity the keys give for a frame of `dt` seconds: A and D act on
      the horizontal component, W and S on the vertical one (y grows
      downwards). W beats S and A beats D; a lone key gives a component of
      magnitude `Speed * dt` with its sign; no key gives 0. */
  function Steer(pressed: Keys, dt: real): (v: (real, real))
    ensures pressed.w ==> v.1 == -Speed * dt
    ensures !pressed.w && pressed.s ==> v.1 == Speed * dt
    ensures !pressed.w && !pressed.s ==> v.1 == 0.0
    ensures pressed.a ==> v.0 == -Speed * dt
    ensures !pressed.a && pressed.d ==> v.0 == Speed * dt
    ensures !pressed.a && !pressed.d ==> v.0 == 0.0
  {
    (Axis(pressed.a, pressed.d, dt), Axis(pressed.w, pressed.s, dt))
  }

  /** The keys with W and S exchanged and A and D exchanged. */
  function Mirror(k: Keys): Keys {
    k.(w := k.s, s := k.w, a := k.d, d := k.a)
  }

  /** Mirrored keys give the opposite velocity, as long as no opposing pair
      is held together (then the priority breaks the symmetry). */
  lemma SteerMirror(pressed: Keys, dt: real)
    requires !(pressed.w && pressed.s) && !(pressed.a && pressed.d)
    ensures Steer(Mirror(pressed), dt) == (-Steer(pressed, dt).0, -Steer(pressed, dt).1)
  {
  }

  /** `update`: the rect moves by the velocity rounded to whole pixels. */
  function Displacement(v: (real, real)): (int, int) {
    (RoundHalfEven(v.0), RoundHalfEven(v.1))
  }

  /** `handleMovementInput`: the velocity is reset from the keys, then the
      ship moves by it. The previous velocity plays no part, and the size of
      the rect never changes. */
  function EchoMove(s: EchoShip, pressed: Keys, dt: real): (r: EchoShip)
    ensures r.velocity == Steer(pressed, dt)
    ensures r.rect.w == s.rect.w && r.rect.h == s.rect.h
  {
    var v := Steer(pressed, dt);
    EchoShip(MoveBy(s.rect, Displacement(v)), v)
  }

  /** The ship moves by its new velocity to within half a pixel on each axis. */
  lemma EchoMoveRounds(s: EchoShip, pressed: Keys, dt: real)
    ensures var r := EchoMove(s, pressed, dt);
      && -0.5 <= (r.rect.x - s.rect.x) as real - r.velocity.0 <= 0.5
      && -0.5 <= (r.rect.y - s.rect.y) as real - r.velocity.1 <= 0.5
  {
  }

  /** The movement rule does not depend on the velocity the ship had. */
  lemma EchoMoveStateless(s: EchoShip, u: (real, real), pressed: Keys, dt: real)
    ensures EchoMove(s.(velocity := u), pressed, dt) == EchoMove(s, pressed, dt)
  {
  }

  /** Without a movement key the ship stops where it is. */
  lemma EchoMoveIdle(s: EchoShip, pressed: Keys, dt: real)
    requires !pressed.w && !pressed.s && !pressed.a && !pressed.d
    ensures EchoMove(s, pressed, dt).rect == s.rect
    ensures EchoMove(s, pressed, dt).velocity == (0.0, 0.0)
  {
    RoundHalfEvenIntegral(0);
  }

  /** Mirrored keys move the ship by the opposite number of pixels. */
  lemma EchoMoveMirror(s: EchoShip, pressed: Keys, dt: real)
    requires !(pressed.w && pressed.s) && !(pressed.a && pressed.d)
    ensures var r := EchoMove(s, pressed, dt);
      var q := EchoMove(s, Mirror(pressed), dt);
      q.rect.x - s.rect.x == -(r.rect.x - s.rect.x) && q.rect.y - s.rect.y == -(r.rect.y - s.rect.y)
  {
    var v := Steer(pressed, dt);
    SteerMirror(pressed, dt);
    RoundHalfEvenOdd(v.0);
    RoundHalfEvenOdd(v.1);
  }

  /** A buffer of inputs replayed in order on a ship, each with its own
      frame time. */
  function EchoReplay(s: EchoShip, inputs: seq<Input>): (r: EchoShip)
    ensures r.rect.w == s.rect.w && r.rect.h == s.rect.h
    ensures inputs == [] ==> r == s
    decreases |inputs|
  {
    if inputs == [] then s
    else EchoReplay(EchoMove(s, inputs[0].pressed, inputs[0].delta), inputs[1..])
  }

  /** The pixels an input moves a ship by, wherever the ship is. */
  function Shift(i: Input): (int, int) {
    Displacement(Steer(i.pressed, i.delta))
  }

  /** The pixels a whole buffer moves a ship by: the sum of its inputs'
      shifts. */
  function TotalShift(inputs: seq<Input>): (d: (int, int))
    decreases |inputs|
  {
    if inputs == [] then (0, 0)
    else
      var t := TotalShift(inputs[1..]);
      (Shift(inputs[0]).0 + t.0, Shift(inputs[0]).1 + t.1)
  }

  /** Because movement is stateless, a replay moves the ship by the sum of
      its inputs' shifts, and the ship ends with the velocity of the last
      input. */
  lemma {:induction false} EchoReplayShift(s: EchoShip, inputs: seq<Input>)
    ensures EchoReplay(s, inputs).rect == MoveBy(s.rect, TotalShift(inputs))
    ensures inputs != [] ==>
              EchoReplay(s, inputs).velocity == Steer(inputs[|inputs| - 1].pressed, inputs[|inputs| - 1].delta)
    decreases |inputs|
  {
    if inputs != [] {
      var s1 := EchoMove(s, inputs[0].pressed, inputs[0].delta);
      EchoReplayShift(s1, inputs[1..]);
      if |inputs| > 1 {
        assert inputs[1..][|inputs[1..]| - 1] == inputs[|inputs| - 1];
      }
    }
  }

  /** Replaying two buffers one after the other is replaying their
      concatenation. */
  lemma {:induction false} EchoReplayAppend(s: EchoShip, xs: seq<Input>, ys: seq<Input>)
    ensures EchoReplay(s, xs + ys) == EchoReplay(EchoReplay(s, xs), ys)
    decreases |xs|
  {
    if xs == [] {
      assert xs + ys == ys;
    } else {
      assert (xs + ys)[0] == xs[0];
      assert (xs + ys)[1..] == xs[1..] + ys;
      EchoReplayAppend(EchoMove(s, xs[0].pressed, xs[0].delta), xs[1..], ys);
    }
  }
}
