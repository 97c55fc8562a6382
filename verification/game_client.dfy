/** The game client of gameClient.py: what it does with a packet from the
    server, the reconciliation of its own ship with the server's
    (`getValidatedShip`), the local simulation of every ship for one frame
    (`handleShipMovements`, the swept `handleBullets`, `handleBarriers`), the
    update message (`createMessage`) and the trust record's upkeep. */
module GameClient {
  import opened Wrappers
  import opened Seqs
  import opened Geometry
  import opened Controls
  import opened Entities
  import opened Codec
  import opened Sessions
  import opened Arena
  import opened Trust
  import GameServer

  /** The server's view as the client holds it: the ships of the last
      packet, decoded, in the packet's key order, and the inputs of the last
      packet, which the frames consume one by one. */
  datatype View = View(order: seq<ShipId>, ships: map<ShipId, Ship>, inputs: map<ClientId, seq<Input>>)

  predicate WellFormed(v: View) {
    Distinct(v.order) && InMap(v.order, v.ships) && (forall k | k in v.ships :: k in v.order)
  }

  /** `GameClientProtocol.datagram_received`: the view is replaced by the
      packet's ship table, each ship decoded at clock `now`, and its inputs.
      `order` is the order of the table's keys in the datagram. */
  function Receive(packet: Packet<ShipState>, order: seq<ShipId>, phys: Physics, now: real): (v: View)
    requires Distinct(order) && (forall j | 0 <= j < |order| :: order[j] in packet.ships)
    requires forall k | k in packet.ships :: k in order
    ensures WellFormed(v) && v.order == order && v.inputs == packet.inputs
    ensures v.ships.Keys == packet.ships.Keys
    ensures forall k | k in packet.ships :: v.ships[k] == DeserializeShip(packet.ships[k], phys, now)
  {
    View(order, map k | k in packet.ships :: DeserializeShip(packet.ships[k], phys, now), packet.inputs)
  }

  function Position(s: Ship): PosKey {
    (s.rect.x, s.rect.y)
  }

  /** `getValidatedShip`. With an empty trust record, or when the server
      puts the ship somewhere the client has not recently been, the server's
      ship is taken whole. Otherwise the local prediction is kept and only
      the server's hitpoints are copied onto it; the death flag is not. */
  function GetValidatedShip(trust: seq<PosKey>, server: Ship, local: Option<Ship>): (r: Ship)
    requires |trust| > 0 ==> local.Some?
    ensures r.hitpoints == server.hitpoints
    ensures !Trusts(trust, Position(server)) ==> r == server
    ensures Trusts(trust, Position(server)) ==> r == local.value.(hitpoints := server.hitpoints)
  {
    if |trust| == 0 then server
    else if Position(server) !in trust then server
    else local.value.(hitpoints := server.hitpoints)
  }

  /** Apart from its hitpoints, the client's ship is either exactly the
      server's or exactly its own prediction, and it is the server's
      whenever the two disagree about an untrusted position. */
  lemma ValidatedShipSources(trust: seq<PosKey>, server: Ship, local: Option<Ship>)
    requires |trust| > 0 ==> local.Some?
    ensures var r := GetValidatedShip(trust, server, local);
      || r == server
      || (local.Some? && r == local.value.(hitpoints := server.hitpoints))
    ensures var r := GetValidatedShip(trust, server, local);
      Position(r) != Position(server) ==> local.Some? && Position(local.value) == Position(r) && Trusts(trust, Position(server))
  {
  }

  /** The frame's movement step over every ship, in dictionary order, after
      the colliding flags are cleared: a ship with queued inputs takes the
      first one off its queue and steers with that input's keys for the
      frame's own time `dt`, against every other ship. */
  function HandleShipMovements(m: map<ShipId, Ship>, order: seq<ShipId>, inputs: map<ClientId, seq<Input>>,
                               dt: real, phys: Physics, now: real): (r: (map<ShipId, Ship>, map<ClientId, seq<Input>>))
    requires InMap(order, m) && forall j | 0 <= j < |order| :: order[j] in inputs
    ensures r.0.Keys == m.Keys && r.1.Keys == inputs.Keys
  {
    Movements(GameServer.ClearColliding(m), order, order, inputs, dt, phys, now)
  }

  /** The loop of `handleShipMovements` over the ids in `todo`. */
  function Movements(m: map<ShipId, Ship>, order: seq<ShipId>, todo: seq<ShipId>, inputs: map<ClientId, seq<Input>>,
                     dt: real, phys: Physics, now: real): (r: (map<ShipId, Ship>, map<ClientId, seq<Input>>))
    requires InMap(order, m) && forall j | 0 <= j < |order| :: order[j] in inputs
    requires forall j | 0 <= j < |todo| :: todo[j] in order
    ensures r.0.Keys == m.Keys && r.1.Keys == inputs.Keys
    ensures forall k | k in inputs && k !in todo :: r.1[k] == inputs[k]
    decreases |todo|
  {
    if todo == [] then (m, inputs)
    else
      var key := todo[0];
      assert key in order && key in m && key in inputs;
      if |inputs[key]| > 0 then
        var out := HandleMovementInput(m[key], inputs[key][0].pressed, dt, m, Neighbours(order, key, m), phys, now);
        Movements(out.1[key := out.0], order, todo[1..], inputs[key := inputs[key][1..]], dt, phys, now)
      else
        Movements(m, order, todo[1..], inputs, dt, phys, now)
  }

  /** Each queue listed once loses exactly its first input, if it has one;
      other queues are untouched. */
  lemma {:induction false} MovementsPopOnce(m: map<ShipId, Ship>, order: seq<ShipId>, todo: seq<ShipId>,
                                            inputs: map<ClientId, seq<Input>>, dt: real, phys: Physics, now: real)
    requires InMap(order, m) && forall j | 0 <= j < |order| :: order[j] in inputs
    requires forall j | 0 <= j < |todo| :: todo[j] in order
    requires Distinct(todo)
    ensures var r := Movements(m, order, todo, inputs, dt, phys, now);
      forall k | k in inputs :: r.1[k] == if k in todo && |inputs[k]| > 0 then inputs[k][1..] else inputs[k]
    decreases |todo|
  {
    if todo != [] {
      var key := todo[0];
      assert Distinct(todo[1..]) && key !in todo[1..];
      assert forall k :: k in todo <==> k == key || k in todo[1..];
      if |inputs[key]| > 0 {
        var out := HandleMovementInput(m[key], inputs[key][0].pressed, dt, m, Neighbours(order, key, m), phys, now);
        MovementsPopOnce(out.1[key := out.0], order, todo[1..], inputs[key := inputs[key][1..]], dt, phys, now);
      } else {
        MovementsPopOnce(m, order, todo[1..], inputs, dt, phys, now);
      }
    }
  }

  /** With every queue empty the movement step changes no ship. */
  lemma {:induction false} MovementsIdle(m: map<ShipId, Ship>, order: seq<ShipId>, todo: seq<ShipId>,
                                         inputs: map<ClientId, seq<Input>>, dt: real, phys: Physics, now: real)
    requires InMap(order, m) && forall j | 0 <= j < |order| :: order[j] in inputs
    requires forall j | 0 <= j < |todo| :: todo[j] in order
    requires forall j | 0 <= j < |todo| :: inputs[todo[j]] == []
    ensures Movements(m, order, todo, inputs, dt, phys, now) == (m, inputs)
    decreases |todo|
  {
    if todo != [] {
      MovementsIdle(m, order, todo[1..], inputs, dt, phys, now);
    }
  }

  /** The state of the movement loop as it reaches the `i`-th id of `todo`:
      the ships and queues the visits of the ids before it left. */
  function MoveTime(m: map<ShipId, Ship>, order: seq<ShipId>, todo: seq<ShipId>, i: nat,
                    inputs: map<ClientId, seq<Input>>, dt: real, phys: Physics, now: real)
    : (r: (map<ShipId, Ship>, map<ClientId, seq<Input>>))
    requires InMap(order, m) && forall j | 0 <= j < |order| :: order[j] in inputs
    requires (forall j | 0 <= j < |todo| :: todo[j] in order) && i <= |todo|
    ensures r.0.Keys == m.Keys && r.1.Keys == inputs.Keys && InMap(order, r.0)
    ensures i == 0 ==> r == (m, inputs)
    ensures i == |todo| ==> r == Movements(m, order, todo, inputs, dt, phys, now)
  {
    assert todo[..|todo|] == todo;
    Movements(m, order, todo[..i], inputs, dt, phys, now)
  }

  /** Running the loop over `a + b` is running it over `a`, then over `b`
      from where `a` left the ships and queues. */
  lemma {:induction false} MovementsAppend(m: map<ShipId, Ship>, order: seq<ShipId>, a: seq<ShipId>, b: seq<ShipId>,
                                           inputs: map<ClientId, seq<Input>>, dt: real, phys: Physics, now: real)
    requires InMap(order, m) && forall j | 0 <= j < |order| :: order[j] in inputs
    requires (forall j | 0 <= j < |a| :: a[j] in order) && (forall j | 0 <= j < |b| :: b[j] in order)
    ensures forall j | 0 <= j < |a + b| :: (a + b)[j] in order
    ensures var p := Movements(m, order, a, inputs, dt, phys, now);
      InMap(order, p.0) && Movements(m, order, a + b, inputs, dt, phys, now) == Movements(p.0, order, b, p.1, dt, phys, now)
    decreases |a|
  {
    if a == [] {
      assert a + b == b;
    } else {
      var key := a[0];
      assert (a + b)[0] == key && (a + b)[1..] == a[1..] + b;
      if |inputs[key]| > 0 {
        var out := HandleMovementInput(m[key], inputs[key][0].pressed, dt, m, Neighbours(order, key, m), phys, now);
        MovementsAppend(out.1[key := out.0], order, a[1..], b, inputs[key := inputs[key][1..]], dt, phys, now);
      } else {
        MovementsAppend(m, order, a[1..], b, inputs, dt, phys, now);
      }
    }
  }

  /** One visit of the movement loop to the ship `key`: with a queued
      input, the ship takes the front one off its queue and steers with that
      input's keys for the frame time `dt` (not the delta recorded in the
      input), against the other ships, which its collision may change; with
      an empty queue it is skipped. */
  function MoveOne(m: map<ShipId, Ship>, order: seq<ShipId>, key: ShipId, inputs: map<ClientId, seq<Input>>,
                   dt: real, phys: Physics, now: real): (r: (map<ShipId, Ship>, map<ClientId, seq<Input>>))
    requires InMap(order, m) && (forall j | 0 <= j < |order| :: order[j] in inputs) && key in order
    ensures r.0.Keys == m.Keys && r.1.Keys == inputs.Keys && InMap(order, r.0)
    ensures r.1 == if |inputs[key]| > 0 then inputs[key := inputs[key][1..]] else inputs
    ensures |inputs[key]| == 0 ==> r.0 == m
    ensures |inputs[key]| > 0 ==>
              var out := HandleMovementInput(m[key], inputs[key][0].pressed, dt, m, Neighbours(order, key, m), phys, now);
              r.0[key] == out.0 && forall k | k in m && k != key :: r.0[k] == out.1[k]
  {
    if |inputs[key]| > 0 then
      var out := HandleMovementInput(m[key], inputs[key][0].pressed, dt, m, Neighbours(order, key, m), phys, now);
      (out.1[key := out.0], inputs[key := inputs[key][1..]])
    else (m, inputs)
  }

  /** The visit of the `i`-th id of a repeat-free `todo`: its queue is still
      the one the loop started with, and the loop moves on by one `MoveOne`
      of that ship from the ships and queues the earlier visits left. */
  lemma MovementsVisitAt(m: map<ShipId, Ship>, order: seq<ShipId>, todo: seq<ShipId>,
                         inputs: map<ClientId, seq<Input>>, dt: real, phys: Physics, now: real, i: nat)
    requires InMap(order, m) && forall j | 0 <= j < |order| :: order[j] in inputs
    requires (forall j | 0 <= j < |todo| :: todo[j] in order) && Distinct(todo) && i < |todo|
    ensures var before := MoveTime(m, order, todo, i, inputs, dt, phys, now);
      && before.1[todo[i]] == inputs[todo[i]]
      && MoveTime(m, order, todo, i + 1, inputs, dt, phys, now) == MoveOne(before.0, order, todo[i], before.1, dt, phys, now)
  {
    var key := todo[i];
    assert todo[..i + 1] == todo[..i] + [key];
    assert key !in todo[..i];
    MovementsAppend(m, order, todo[..i], [key], inputs, dt, phys, now);
  }

  /** The loop over a repeat-free `todo` visits each of its ids once, in
      turn: the `i`-th id's queue is still the one the loop started with,
      and the loop moves on by one `MoveOne` of that ship from the ships and
      queues the earlier visits left. */
  predicate VisitsInTurn(m: map<ShipId, Ship>, order: seq<ShipId>, todo: seq<ShipId>,
                         inputs: map<ClientId, seq<Input>>, dt: real, phys: Physics, now: real)
    requires InMap(order, m) && forall j | 0 <= j < |order| :: order[j] in inputs
    requires forall j | 0 <= j < |todo| :: todo[j] in order
  {
    forall i | 0 <= i < |todo| :: VisitedInTurn(m, order, todo, i, inputs, dt, phys, now)
  }

  /** The visit of the `i`-th id of `todo`, as `VisitsInTurn` describes it. */
  predicate VisitedInTurn(m: map<ShipId, Ship>, order: seq<ShipId>, todo: seq<ShipId>, i: nat,
                          inputs: map<ClientId, seq<Input>>, dt: real, phys: Physics, now: real)
    requires InMap(order, m) && forall j | 0 <= j < |order| :: order[j] in inputs
    requires (forall j | 0 <= j < |todo| :: todo[j] in order) && i < |todo|
  {
    var before := MoveTime(m, order, todo, i, inputs, dt, phys, now);
    && before.1[todo[i]] == inputs[todo[i]]
    && MoveTime(m, order, todo, i + 1, inputs, dt, phys, now) == MoveOne(before.0, order, todo[i], before.1, dt, phys, now)
  }

  /** Every id of a repeat-free `todo` is visited in turn. */
  lemma MovementsVisits(m: map<ShipId, Ship>, order: seq<ShipId>, todo: seq<ShipId>,
                        inputs: map<ClientId, seq<Input>>, dt: real, phys: Physics, now: real)
    requires InMap(order, m) && forall j | 0 <= j < |order| :: order[j] in inputs
    requires (forall j | 0 <= j < |todo| :: todo[j] in order) && Distinct(todo)
    ensures VisitsInTurn(m, order, todo, inputs, dt, phys, now)
  {
    forall i | 0 <= i < |todo|
      ensures VisitedInTurn(m, order, todo, i, inputs, dt, phys, now)
    {
      MovementsVisitAt(m, order, todo, inputs, dt, phys, now, i);
    }
  }

  /** The client's movement pass: it starts from every ship with its
      colliding flag cleared, visits the ids of a repeat-free order once
      each, in that order, and ends where the visit of the last id leaves
      it. */
  lemma HandleShipMovementsVisits(m: map<ShipId, Ship>, order: seq<ShipId>, inputs: map<ClientId, seq<Input>>,
                                  dt: real, phys: Physics, now: real)
    requires InMap(order, m) && forall j | 0 <= j < |order| :: order[j] in inputs
    requires Distinct(order)
    ensures var c := GameServer.ClearColliding(m);
      && InMap(order, c)
      && (forall k | k in m :: c[k] == m[k].(colliding := false))
      && MoveTime(c, order, order, 0, inputs, dt, phys, now) == (c, inputs)
      && HandleShipMovements(m, order, inputs, dt, phys, now) == MoveTime(c, order, order, |order|, inputs, dt, phys, now)
      && VisitsInTurn(c, order, order, inputs, dt, phys, now)
  {
    var c := GameServer.ClearColliding(m);
    assert InMap(order, c);
    MovementsVisits(c, order, order, inputs, dt, phys, now);
  }

  /** With every listed queue empty the movement pass only clears the
      colliding flags. */
  lemma HandleShipMovementsIdle(m: map<ShipId, Ship>, order: seq<ShipId>, inputs: map<ClientId, seq<Input>>,
                                dt: real, phys: Physics, now: real)
    requires InMap(order, m) && forall j | 0 <= j < |order| :: order[j] in inputs
    requires forall j | 0 <= j < |order| :: inputs[order[j]] == []
    ensures HandleShipMovements(m, order, inputs, dt, phys, now) == (map k | k in m :: m[k].(colliding := false), inputs)
  {
    var c := GameServer.ClearColliding(m);
    assert InMap(order, c);
    MovementsIdle(c, order, order, inputs, dt, phys, now);
    assert c == map k | k in m :: m[k].(colliding := false);
  }

  /** `createMessage`: an update carrying every input buffered since the
      last send, the client's id and the send time. */
  function CreateMessage(buffer: seq<Input>, id: ClientId, time: real): (req: Request)
    ensures req.Update? && req.clientId == id && req.inputs == buffer && req.timeStamp == time
  {
    Update(id, buffer, time)
  }

  /** The local simulation of one frame: movements, the swept bullet pass
      and the barrier pass, over all ships in dictionary order. */
  function Simulate(m: map<ShipId, Ship>, order: seq<ShipId>, inputs: map<ClientId, seq<Input>>,
                    dt: real, phys: Physics, now: real): (r: (map<ShipId, Ship>, map<ClientId, seq<Input>>))
    requires InMap(order, m) && forall j | 0 <= j < |order| :: order[j] in inputs
    ensures r.0.Keys == m.Keys && r.1.Keys == inputs.Keys
  {
    var moved := HandleShipMovements(m, order, inputs, dt, phys, now);
    var shot := BulletsPass(moved.0, order, Swept, phys, now);
    (BarriersPass(shot, order, Barriers), moved.1)
  }

  /** A frame's simulation runs its three passes in the order of
      gameClient.py: the movement pass, then the swept bullet pass on the
      moved ships, then the barrier pass; only the movement pass touches the
      queues. */
  lemma SimulatePhases(m: map<ShipId, Ship>, order: seq<ShipId>, inputs: map<ClientId, seq<Input>>,
                       dt: real, phys: Physics, now: real)
    requires InMap(order, m) && forall j | 0 <= j < |order| :: order[j] in inputs
    ensures var moved := HandleShipMovements(m, order, inputs, dt, phys, now);
      && InMap(order, moved.0)
      && Simulate(m, order, inputs, dt, phys, now)
         == (BarriersPass(BulletsPass(moved.0, order, Swept, phys, now), order, Barriers), moved.1)
  {
  }

  /** The client's own state between frames. */
  datatype Client = Client(
    id: ClientId,
    ship: Option<Ship>,
    trust: seq<PosKey>,
    buffer: seq<Input>,
    lastSentTime: real,
    oldTime: real)

  /** The client keeps a ship once it has trusted a position. */
  predicate Consistent(c: Client) {
    |c.trust| > 0 ==> c.ship.Some?
  }

  /** What a frame leaves behind: the client, the view, and the update sent, if any. */
  datatype Frame = Frame(client: Client, view: View, sent: Option<Request>)

  /** One frame of the client's main loop at clock reading `now` with the
      keys `pressed`: reconcile the own ship, queue this frame's input as the
      own ship's only pending input, simulate every ship, then end the frame.
      The frame time is `now - oldTime`. */
  function RunFrame(c: Client, v: View, pressed: Keys, phys: Physics, now: real): (f: Frame)
    requires Consistent(c) && WellFormed(v) && c.id in v.ships
    requires forall j | 0 <= j < |v.order| :: v.order[j] == c.id || v.order[j] in v.inputs
    ensures Consistent(f.client) && WellFormed(f.view)
    ensures f.view.order == v.order && f.view.ships.Keys == v.ships.Keys
    ensures f.client.id == c.id && f.client.oldTime == now
    ensures f.client.ship == Some(f.view.ships[c.id])
    ensures f.sent.Some? <==> now - c.lastSentTime >= SendInterval
    ensures f.sent.Some? ==>
              && f.sent == Some(Update(c.id, c.buffer + [Input(pressed, now - c.oldTime, Some(now))], now))
              && f.client.buffer == [] && f.client.lastSentTime == now
    ensures f.sent.None? ==>
              f.client.buffer == c.buffer + [Input(pressed, now - c.oldTime, Some(now))] && f.client.lastSentTime == c.lastSentTime
    ensures f.client.trust == Upkeep(c.trust, Position(f.view.ships[c.id]), f.sent.Some?, f.view.ships[c.id].dead)
    ensures f.view == Step(v, c.id, GetValidatedShip(c.trust, v.ships[c.id], c.ship),
                           Input(pressed, now - c.oldTime, Some(now)), phys, now)
  {
    var ship := GetValidatedShip(c.trust, v.ships[c.id], c.ship);
    var input := Input(pressed, now - c.oldTime, Some(now));
    var w := Step(v, c.id, ship, input, phys, now);
    var me := w.ships[c.id];
    var send := now - c.lastSentTime >= SendInterval;
    var buffered := c.buffer + [input];
    var trust := Upkeep(c.trust, Position(me), send, me.dead);
    Frame(Client(c.id, Some(me), trust, if send then [] else buffered, if send then now else c.lastSentTime, now),
          w,
          if send then Some(CreateMessage(buffered, c.id, now)) else None)
  }

  /** The simulation half of a frame: the own ship `id` is replaced by its
      reconciled state `ship`, `input` becomes its only pending input, and
      every ship is simulated for the input's delta. */
  function Step(v: View, id: ClientId, ship: Ship, input: Input, phys: Physics, now: real): (w: View)
    requires WellFormed(v) && id in v.ships
    requires forall j | 0 <= j < |v.order| :: v.order[j] == id || v.order[j] in v.inputs
    ensures WellFormed(w) && w.order == v.order && w.ships.Keys == v.ships.Keys
  {
    var m := v.ships[id := ship];
    var inputs := v.inputs[id := [input]];
    assert m.Keys == v.ships.Keys;
    assert InMap(v.order, m) && forall j | 0 <= j < |v.order| :: v.order[j] in inputs;
    var sim := Simulate(m, v.order, inputs, input.delta, phys, now);
    assert sim.0.Keys == m.Keys;
    View(v.order, sim.0, sim.1)
  }

  /** A step simulates the view's ships with the own ship replaced by
      `ship` and the own queue by `[input]`, for the input's delta, which is
      the frame time. */
  lemma StepSimulates(v: View, id: ClientId, ship: Ship, input: Input, phys: Physics, now: real)
    requires WellFormed(v) && id in v.ships
    requires forall j | 0 <= j < |v.order| :: v.order[j] == id || v.order[j] in v.inputs
    ensures var m := v.ships[id := ship];
      var inputs := v.inputs[id := [input]];
      && InMap(v.order, m) && (forall j | 0 <= j < |v.order| :: v.order[j] in inputs)
      && var sim := Simulate(m, v.order, inputs, input.delta, phys, now);
         Step(v, id, ship, input, phys, now) == View(v.order, sim.0, sim.1)
  {
    var m := v.ships[id := ship];
    assert m.Keys == v.ships.Keys;
  }

  /** A step consumes the frame's input from the own queue and the first
      input of every other ship's queue; queues of ids without a ship stay
      as they were. */
  lemma StepConsumesQueues(v: View, id: ClientId, ship: Ship, input: Input, phys: Physics, now: real)
    requires WellFormed(v) && id in v.ships
    requires forall j | 0 <= j < |v.order| :: v.order[j] == id || v.order[j] in v.inputs
    ensures var w := Step(v, id, ship, input, phys, now);
      && w.inputs.Keys == v.inputs.Keys + {id} && w.inputs[id] == []
      && forall k | k in v.inputs && k != id ::
           w.inputs[k] == if k in v.order && |v.inputs[k]| > 0 then v.inputs[k][1..] else v.inputs[k]
  {
    var m := v.ships[id := ship];
    var inputs := v.inputs[id := [input]];
    assert m.Keys == v.ships.Keys;
    assert InMap(v.order, m) && forall j | 0 <= j < |v.order| :: v.order[j] in inputs;
    assert Step(v, id, ship, input, phys, now).inputs == Simulate(m, v.order, inputs, input.delta, phys, now).1;
    var cleared := SimulateQueues(m, v.order, inputs, input.delta, phys, now);
    OwnQueueConsumed(cleared, v.order, v.inputs, id, input, phys, now);
  }

  /** The queues after a frame's simulation are those the movement pass
      leaves, run on the ships with their colliding flags cleared. */
  lemma SimulateQueues(m: map<ShipId, Ship>, order: seq<ShipId>, inputs: map<ClientId, seq<Input>>,
                       dt: real, phys: Physics, now: real) returns (cleared: map<ShipId, Ship>)
    requires InMap(order, m) && forall j | 0 <= j < |order| :: order[j] in inputs
    ensures InMap(order, cleared)
    ensures Simulate(m, order, inputs, dt, phys, now).1 == Movements(cleared, order, order, inputs, dt, phys, now).1
  {
    cleared := GameServer.ClearColliding(m);
    assert InMap(order, cleared);
  }

  /** The movement pass over every ship with `[input]` as the own queue. */
  lemma OwnQueueConsumed(m: map<ShipId, Ship>, order: seq<ShipId>, queues: map<ClientId, seq<Input>>,
                         id: ClientId, input: Input, phys: Physics, now: real)
    requires InMap(order, m) && Distinct(order) && id in order
    requires forall j | 0 <= j < |order| :: order[j] == id || order[j] in queues
    ensures var r := Movements(m, order, order, queues[id := [input]], input.delta, phys, now).1;
      && r.Keys == queues.Keys + {id} && r[id] == []
      && forall k | k in queues && k != id ::
           r[k] == if k in order && |queues[k]| > 0 then queues[k][1..] else queues[k]
  {
    var inputs := queues[id := [input]];
    MovementsPopOnce(m, order, order, inputs, input.delta, phys, now);
    var r := Movements(m, order, order, inputs, input.delta, phys, now).1;
    assert r[id] == [input][1..];
    forall k | k in queues && k != id
      ensures r[k] == if k in order && |queues[k]| > 0 then queues[k][1..] else queues[k]
    {
      assert inputs[k] == queues[k];
    }
  }

  /** The own ship and the own queue the view holds play no part in a step:
      the reconciled ship replaces the first and the frame's input replaces
      the second before any ship moves. */
  lemma StepReplacesOwn(v: View, id: ClientId, ship: Ship, input: Input, phys: Physics, now: real,
                        x: Ship, q: seq<Input>)
    requires WellFormed(v) && id in v.ships
    requires forall j | 0 <= j < |v.order| :: v.order[j] == id || v.order[j] in v.inputs
    ensures Step(v.(ships := v.ships[id := x], inputs := v.inputs[id := q]), id, ship, input, phys, now)
            == Step(v, id, ship, input, phys, now)
  {
    var u := v.(ships := v.ships[id := x], inputs := v.inputs[id := q]);
    assert u.ships[id := ship] == v.ships[id := ship];
    assert u.inputs[id := [input]] == v.inputs[id := [input]];
  }

  /** The reconciliation after a frame: when the server next reports the
      position the client just predicted for its living ship, the client
      keeps its prediction and takes only the server's hitpoints. */
  lemma EchoedPositionKeepsPrediction(c: Client, v: View, pressed: Keys, phys: Physics, now: real, server: Ship)
    requires Consistent(c) && WellFormed(v) && c.id in v.ships
    requires forall j | 0 <= j < |v.order| :: v.order[j] == c.id || v.order[j] in v.inputs
    ensures var f := RunFrame(c, v, pressed, phys, now);
      var me := f.view.ships[c.id];
      !me.dead && Position(server) == Position(me) ==>
        GetValidatedShip(f.client.trust, server, f.client.ship) == me.(hitpoints := server.hitpoints)
  {
    var f := RunFrame(c, v, pressed, phys, now);
    var me := f.view.ships[c.id];
    UpkeepTrustsLatest(c.trust, Position(me), f.sent.Some?, me.dead);
  }

  /** An update built by `createMessage` reaches a server that knows the
      client, and the server's buffer for it grows by exactly the inputs
      buffered since the last send, in the order they were taken; a server
      that does not know the id refuses it. */
  lemma MessageBuffered(st: GameServer.State, buffer: seq<Input>, id: ClientId, time: real, addr: Addr,
                        d: GameServer.Draw, phys: Physics, now: real)
    requires Valid(st) && GameServer.DrawInRange(d)
    ensures var r := GameServer.DatagramReceived(st, CreateMessage(buffer, id, time), addr, d, phys, now);
      && (r.Success? <==> id in st.item)
      && (r.Success? ==> id in r.value.state.inputBuffer && r.value.state.inputBuffer[id] == st.inputBuffer[id] + buffer)
  {
  }
}
