/** The authoritative game server of gameServer.py: the datagram handler
    (`GameServerProtocol.datagram_received`) and one iteration of the main
    loop, the tick. A tick replays every client's buffered inputs on a copy
    of its ship, runs the bullet, barrier and respawn passes over the copies,
    broadcasts one packet per client, empties the buffers and makes the
    copies authoritative. */
module GameServer {
  import opened Wrappers
  import opened Seqs
  import opened Controls
  import opened Entities
  import opened Codec
  import opened Sessions
  import opened Arena

  type State = ServerState<Ship>

  /** The three random draws of a handshake: the client id and the spawn corner. */
  datatype Draw = Draw(clientId: ClientId, x: int, y: int)

  predicate DrawInRange(d: Draw) {
    0 <= d.clientId <= 2000 && 0 <= d.x <= 720 && 0 <= d.y <= 480
  }

  /** The new state and the datagrams sent in reply. */
  datatype Reply = Reply(state: State, packets: seq<(Addr, Packet<ShipState>)>)

  /** `datagram_received`. A handshake answers the sender with its new id
      and a fresh full-health ship at the drawn corner, then registers it. An
      update appends its inputs to the sender's buffer and records its time
      stamp; it is answered by the next tick, not here. An update from an id
      that never shook hands fails and changes nothing. */
  function DatagramReceived(st: State, req: Request, addr: Addr, d: Draw, phys: Physics, now: real): (r: Result<Reply, RequestError>)
    requires Valid(st) && DrawInRange(d)
    ensures r.Success? ==> Valid(r.value.state)
    ensures req.Handshake? ==>
              && r.Success?
              && var ship := NewShip(d.x, d.y, FullHitpoints, phys);
              && r.value.packets == [(addr, HandshakeReply(d.clientId, map[d.clientId := SerializeShip(ship)], map[]))]
              && d.clientId in r.value.state.item && r.value.state.item[d.clientId] == ship
              && d.clientId in r.value.state.clients && r.value.state.clients[d.clientId] == addr
              && d.clientId in r.value.state.inputBuffer && r.value.state.inputBuffer[d.clientId] == []
    ensures req.Update? ==>
              && (r.Failure? <==> req.clientId !in st.item)
              && (r.Success? ==>
                    && r.value.packets == []
                    && req.clientId in r.value.state.inputBuffer
                    && r.value.state.inputBuffer[req.clientId] == st.inputBuffer[req.clientId] + req.inputs
                    && r.value.state.item == st.item && r.value.state.order == st.order
                    && r.value.state.clients == st.clients
                    && req.clientId in r.value.state.timeStamps && r.value.state.timeStamps[req.clientId] == req.timeStamp
                    && (forall k | k in st.inputBuffer && k != req.clientId ::
                          r.value.state.inputBuffer[k] == st.inputBuffer[k]))
  {
    match req
    case Handshake =>
      var ship := NewShip(d.x, d.y, FullHitpoints, phys);
      var reply := HandshakeReply(d.clientId, map[d.clientId := SerializeShip(ship)], map[]);
      Success(Reply(Register(st, d.clientId, addr, ship, now), [(addr, reply)]))
    case Update(id, inputs, ts) =>
      match Enqueue(st, id, inputs, ts)
      case Failure(e) => Failure(e)
      case Success(st2) => Success(Reply(st2, []))
  }

  /** A handshake's ship starts inside the 720 x 480 window, alive, at full
      health and still. */
  lemma HandshakeShipFresh(st: State, addr: Addr, d: Draw, phys: Physics, now: real)
    requires Valid(st) && DrawInRange(d)
    ensures var r := DatagramReceived(st, Handshake, addr, d, phys, now);
      && r.Success? && d.clientId in r.value.state.item
      && var s := r.value.state.item[d.clientId];
      && 0 <= s.rect.x <= 720 && 0 <= s.rect.y <= 480
      && Sane(s) && !s.dead && s.hitpoints == FullHitpoints && s.velocity == 0.0 && s.gun.bullets == []
  {
  }

  // ---------------------------------------------------------------- replay

  /** The first loop of a tick: every ship stops colliding. */
  function ClearColliding(m: map<ShipId, Ship>): (r: map<ShipId, Ship>)
    ensures r.Keys == m.Keys
    ensures forall k | k in m :: r[k] == m[k].(colliding := false) && !r[k].colliding
  {
    map k | k in m :: m[k].(colliding := false)
  }

  /** The inputs of one buffer applied in order to a ship, each against the
      neighbours `nbrs` in `m`, which the collisions may change. */
  function ApplyInputs(s: Ship, inputs: seq<Input>, m: map<ShipId, Ship>, nbrs: seq<ShipId>,
                       phys: Physics, now: real): (r: (Ship, map<ShipId, Ship>))
    requires InMap(nbrs, m)
    ensures r.1.Keys == m.Keys
    ensures s.dead ==> r == (s, m)
    ensures inputs == [] ==> r == (s, m)
    decreases |inputs|
  {
    if inputs == [] then (s, m)
    else
      var h := HandleMovementInput(s, inputs[0].pressed, inputs[0].delta, m, nbrs, phys, now);
      ApplyInputs(h.0, inputs[1..], h.1, nbrs, phys, now)
  }

  /** A buffer of one input is one call of `handleMovementInput`. */
  lemma ApplyInputsOne(s: Ship, i: Input, m: map<ShipId, Ship>, nbrs: seq<ShipId>, phys: Physics, now: real)
    requires InMap(nbrs, m)
    ensures ApplyInputs(s, [i], m, nbrs, phys, now) == HandleMovementInput(s, i.pressed, i.delta, m, nbrs, phys, now)
  {
  }

  /** Applying two buffers one after the other is applying their
      concatenation, so two updates buffered in arrival order replay the same
      as one update carrying both. */
  lemma {:induction false} ApplyInputsAppend(s: Ship, xs: seq<Input>, ys: seq<Input>, m: map<ShipId, Ship>,
                                             nbrs: seq<ShipId>, phys: Physics, now: real)
    requires InMap(nbrs, m)
    ensures var h := ApplyInputs(s, xs, m, nbrs, phys, now);
      ApplyInputs(s, xs + ys, m, nbrs, phys, now) == ApplyInputs(h.0, ys, h.1, nbrs, phys, now)
    decreases |xs|
  {
    if xs == [] {
      assert xs + ys == ys;
    } else {
      var h := HandleMovementInput(s, xs[0].pressed, xs[0].delta, m, nbrs, phys, now);
      assert (xs + ys)[0] == xs[0];
      assert (xs + ys)[1..] == xs[1..] + ys;
      ApplyInputsAppend(h.0, xs[1..], ys, h.1, nbrs, phys, now);
    }
  }

  /** Non-negative frame times keep every ship involved within the game's
      ranges through a whole buffer. */
  lemma {:induction false} ApplyInputsKeepsSane(s: Ship, inputs: seq<Input>, m: map<ShipId, Ship>,
                                                nbrs: seq<ShipId>, phys: Physics, now: real)
    requires InMap(nbrs, m) && Sane(s) && AllSane(m)
    requires forall i | 0 <= i < |inputs| :: inputs[i].delta >= 0.0
    ensures var r := ApplyInputs(s, inputs, m, nbrs, phys, now);
      Sane(r.0) && AllSane(r.1)
    decreases |inputs|
  {
    if inputs != [] {
      MovementKeepsSane(s, inputs[0].pressed, inputs[0].delta, m, nbrs, phys, now);
      var h := HandleMovementInput(s, inputs[0].pressed, inputs[0].delta, m, nbrs, phys, now);
      ApplyInputsKeepsSane(h.0, inputs[1..], h.1, nbrs, phys, now);
    }
  }

  /** The replay loop's accumulators: the authoritative ships (which the
      collisions of the replays change, because the neighbours of a copy are
      the authoritative ships themselves), the replayed copies, and the
      serialised ship each client's packet entry recorded when it was visited. */
  datatype Replay = Replay(auth: map<ShipId, Ship>, next: map<ShipId, Ship>, visited: map<ClientId, ShipState>)

  predicate Covers(todo: seq<ClientId>, order: seq<ClientId>, auth: map<ShipId, Ship>, buffers: map<ClientId, seq<Input>>) {
    forall j | 0 <= j < |todo| :: todo[j] in order && todo[j] in auth && todo[j] in buffers
  }

  /** The second loop of a tick over the ids in `todo`: record the visited
      ship, copy it, and replay its buffer on the copy against all the other
      authoritative ships, in dictionary order. */
  function ReplayFrom(order: seq<ClientId>, todo: seq<ClientId>, buffers: map<ClientId, seq<Input>>,
                      rp: Replay, phys: Physics, now: real): (r: Replay)
    requires InMap(order, rp.auth) && Covers(todo, order, rp.auth, buffers)
    ensures r.auth.Keys == rp.auth.Keys && InMap(order, r.auth)
    decreases |todo|
  {
    if todo == [] then rp
    else
      var rp1 := Visit(order, todo[0], buffers, rp, phys, now);
      assert forall j | 0 <= j < |todo[1..]| :: todo[1..][j] == todo[j + 1];
      ReplayFrom(order, todo[1..], buffers, rp1, phys, now)
  }

  /** The replay keeps the authoritative ships' ids, and gives every visited
      client a copy and a visit-time record. */
  lemma {:induction false} ReplayKeys(order: seq<ClientId>, todo: seq<ClientId>, buffers: map<ClientId, seq<Input>>,
                                      rp: Replay, phys: Physics, now: real)
    requires InMap(order, rp.auth) && Covers(todo, order, rp.auth, buffers)
    ensures var r := ReplayFrom(order, todo, buffers, rp, phys, now);
      && r.auth.Keys == rp.auth.Keys
      && (forall k :: k in r.next <==> k in rp.next || k in todo)
      && (forall k :: k in r.visited <==> k in rp.visited || k in todo)
    decreases |todo|
  {
    if todo != [] {
      var rp1 := Visit(order, todo[0], buffers, rp, phys, now);
      assert forall j | 0 <= j < |todo[1..]| :: todo[1..][j] == todo[j + 1];
      var r := ReplayFrom(order, todo[1..], buffers, rp1, phys, now);
      assert ReplayFrom(order, todo, buffers, rp, phys, now) == r;
      ReplayKeys(order, todo[1..], buffers, rp1, phys, now);
      assert forall k :: k in todo <==> k == todo[0] || k in todo[1..];
    }
  }

  /** One round of that loop: the visited ship is recorded as it stands and
      gets a new ship; no other client's entries change. */
  function Visit(order: seq<ClientId>, key: ClientId, buffers: map<ClientId, seq<Input>>,
                 rp: Replay, phys: Physics, now: real): (r: Replay)
    requires InMap(order, rp.auth) && key in order && key in rp.auth && key in buffers
    ensures r.auth.Keys == rp.auth.Keys && InMap(order, r.auth)
    ensures r.next.Keys == rp.next.Keys + {key}
    ensures r.visited.Keys == rp.visited.Keys + {key}
    ensures r.visited[key] == SerializeShip(rp.auth[key])
    ensures forall k | k in rp.next && k != key :: r.next[k] == rp.next[k]
    ensures forall k | k in rp.visited && k != key :: r.visited[k] == rp.visited[k]
  {
    var shown := SerializeShip(rp.auth[key]);
    var copy := DeepCopy(rp.auth[key], phys, now);
    var out := ApplyInputs(copy, buffers[key], rp.auth, Neighbours(order, key, rp.auth), phys, now);
    Replay(out.1, rp.next[key := out.0], rp.visited[key := shown])
  }

  /** The new ship of a round is a copy of the visited ship with the
      client's buffer replayed in order, against the other authoritative
      ships (not their copies), which the replay's collisions change in
      place. */
  lemma VisitReplays(order: seq<ClientId>, key: ClientId, buffers: map<ClientId, seq<Input>>,
                     rp: Replay, phys: Physics, now: real)
    requires InMap(order, rp.auth) && key in order && key in rp.auth && key in buffers
    ensures var r := Visit(order, key, buffers, rp, phys, now);
      var out := ApplyInputs(DeepCopy(rp.auth[key], phys, now), buffers[key], rp.auth,
                             Neighbours(order, key, rp.auth), phys, now);
      r.next[key] == out.0 && r.auth == out.1
  {
  }

  /** The accumulators as the loop reaches the `i`-th id of `todo`: what the
      visits of the ids before it left. */
  function VisitTime(order: seq<ClientId>, todo: seq<ClientId>, i: nat, buffers: map<ClientId, seq<Input>>,
                     rp: Replay, phys: Physics, now: real): (r: Replay)
    requires InMap(order, rp.auth) && Covers(todo, order, rp.auth, buffers) && i <= |todo|
    ensures r.auth.Keys == rp.auth.Keys && InMap(order, r.auth)
  {
    assert Covers(todo[..i], order, rp.auth, buffers);
    ReplayFrom(order, todo[..i], buffers, rp, phys, now)
  }

  /** What the loop makes of each client, visited once: its record is its
      authoritative ship as the earlier visits left it, and its new ship is
      the copy of that ship with its buffer replayed against the other
      authoritative ships as the earlier visits left them. */
  lemma {:induction false} ReplayVisits(order: seq<ClientId>, todo: seq<ClientId>, buffers: map<ClientId, seq<Input>>,
                                        rp: Replay, phys: Physics, now: real)
    requires InMap(order, rp.auth) && Covers(todo, order, rp.auth, buffers) && Distinct(todo)
    ensures var r := ReplayFrom(order, todo, buffers, rp, phys, now);
      forall i | 0 <= i < |todo| ::
        var a := VisitTime(order, todo, i, buffers, rp, phys, now).auth;
        && todo[i] in r.next && todo[i] in r.visited
        && r.next[todo[i]] == ApplyInputs(DeepCopy(a[todo[i]], phys, now), buffers[todo[i]], a,
                                          Neighbours(order, todo[i], a), phys, now).0
        && r.visited[todo[i]] == SerializeShip(a[todo[i]])
    decreases |todo|
  {
    if todo != [] {
      var key, rest := todo[0], todo[1..];
      var rp1 := Visit(order, key, buffers, rp, phys, now);
      assert forall j | 0 <= j < |rest| :: rest[j] == todo[j + 1];
      assert Covers(rest, order, rp1.auth, buffers);
      var r := ReplayFrom(order, rest, buffers, rp1, phys, now);
      assert ReplayFrom(order, todo, buffers, rp, phys, now) == r;
      assert Distinct(rest);
      assert key !in rest;
      ReplayLeavesOthers(order, rest, buffers, rp1, phys, now);
      ReplayVisits(order, rest, buffers, rp1, phys, now);
      forall i | 0 <= i < |todo|
        ensures var a := VisitTime(order, todo, i, buffers, rp, phys, now).auth;
          && todo[i] in r.next && todo[i] in r.visited
          && r.next[todo[i]] == ApplyInputs(DeepCopy(a[todo[i]], phys, now), buffers[todo[i]], a,
                                            Neighbours(order, todo[i], a), phys, now).0
          && r.visited[todo[i]] == SerializeShip(a[todo[i]])
      {
        VisitTimeStep(order, todo, i, buffers, rp, phys, now);
        if i == 0 {
          VisitReplays(order, key, buffers, rp, phys, now);
        } else {
          assert todo[i] == rest[i - 1];
        }
      }
    }
  }

  /** The loop leaves the entries of clients it does not visit alone. */
  lemma {:induction false} ReplayLeavesOthers(order: seq<ClientId>, todo: seq<ClientId>,
                                              buffers: map<ClientId, seq<Input>>, rp: Replay, phys: Physics, now: real)
    requires InMap(order, rp.auth) && Covers(todo, order, rp.auth, buffers)
    ensures var r := ReplayFrom(order, todo, buffers, rp, phys, now);
      && (forall k | k in rp.next && k !in todo :: k in r.next && r.next[k] == rp.next[k])
      && (forall k | k in rp.visited && k !in todo :: k in r.visited && r.visited[k] == rp.visited[k])
    decreases |todo|
  {
    if todo != [] {
      var rest := todo[1..];
      var rp1 := Visit(order, todo[0], buffers, rp, phys, now);
      assert forall j | 0 <= j < |rest| :: rest[j] == todo[j + 1];
      ReplayLeavesOthers(order, rest, buffers, rp1, phys, now);
      var r := ReplayFrom(order, rest, buffers, rp1, phys, now);
      assert ReplayFrom(order, todo, buffers, rp, phys, now) == r;
      forall k | k in rp.next && k !in todo
        ensures k in r.next && r.next[k] == rp.next[k]
      {
        assert k != todo[0] && k !in rest;
      }
      forall k | k in rp.visited && k !in todo
        ensures k in r.visited && r.visited[k] == rp.visited[k]
      {
        assert k != todo[0] && k !in rest;
      }
    }
  }

  /** Reaching the `i`-th id after a first visit is reaching the `i - 1`-th id
      of the rest from the state that visit left. */
  lemma VisitTimeStep(order: seq<ClientId>, todo: seq<ClientId>, i: nat, buffers: map<ClientId, seq<Input>>,
                      rp: Replay, phys: Physics, now: real)
    requires InMap(order, rp.auth) && Covers(todo, order, rp.auth, buffers) && 0 <= i < |todo|
    ensures var rest := todo[1..];
      var rp1 := Visit(order, todo[0], buffers, rp, phys, now);
      Covers(rest, order, rp1.auth, buffers) &&
      VisitTime(order, todo, i, buffers, rp, phys, now)
        == if i == 0 then rp else VisitTime(order, rest, i - 1, buffers, rp1, phys, now)
  {
    var rest := todo[1..];
    var rp1 := Visit(order, todo[0], buffers, rp, phys, now);
    assert forall j | 0 <= j < |rest| :: rest[j] == todo[j + 1];
    if i == 0 {
      assert todo[..0] == [];
    } else {
      var pre := todo[..i];
      assert pre[0] == todo[0];
      assert pre[1..] == rest[..i - 1];
      assert forall j | 0 <= j < |pre[1..]| :: pre[1..][j] == pre[j + 1];
    }
  }

  /** With every buffer empty the replay changes no authoritative ship, and
      each client gets the plain copy of its ship. */
  lemma {:induction false} ReplayIdle(order: seq<ClientId>, todo: seq<ClientId>, buffers: map<ClientId, seq<Input>>,
                                      rp: Replay, phys: Physics, now: real)
    requires InMap(order, rp.auth) && Covers(todo, order, rp.auth, buffers) && Distinct(todo)
    requires forall k | k in buffers :: buffers[k] == []
    ensures var r := ReplayFrom(order, todo, buffers, rp, phys, now);
      && r.auth == rp.auth
      && (forall k | k in todo :: k in r.next && r.next[k] == DeepCopy(rp.auth[k], phys, now))
      && (forall k | k in todo :: k in r.visited && r.visited[k] == SerializeShip(rp.auth[k]))
      && (forall k | k in rp.next && k !in todo :: k in r.next && r.next[k] == rp.next[k])
      && (forall k | k in rp.visited && k !in todo :: k in r.visited && r.visited[k] == rp.visited[k])
    decreases |todo|
  {
    ReplayKeys(order, todo, buffers, rp, phys, now);
    if todo != [] {
      var key := todo[0];
      var rp1 := Replay(rp.auth, rp.next[key := DeepCopy(rp.auth[key], phys, now)],
                        rp.visited[key := SerializeShip(rp.auth[key])]);
      var nbrs := Neighbours(order, key, rp.auth);
      assert buffers[key] == [];
      assert ApplyInputs(DeepCopy(rp.auth[key], phys, now), buffers[key], rp.auth, nbrs, phys, now)
               == (DeepCopy(rp.auth[key], phys, now), rp.auth);
      var r := ReplayFrom(order, todo[1..], buffers, rp1, phys, now);
      assert ReplayFrom(order, todo, buffers, rp, phys, now) == r;
      assert Distinct(todo[1..]);
      assert key !in todo[1..];
      assert Covers(todo[1..], order, rp1.auth, buffers);
      ReplayIdle(order, todo[1..], buffers, rp1, phys, now);
      forall k | k in todo
        ensures r.next[k] == DeepCopy(rp.auth[k], phys, now) && r.visited[k] == SerializeShip(rp.auth[k])
      {
        if k != key {
          assert k in todo[1..];
        }
      }
    }
  }

  /** A client whose ship is dead gets the copy of its ship untouched by its
      inputs, whatever they are. */
  lemma ApplyInputsDead(s: Ship, inputs: seq<Input>, m: map<ShipId, Ship>, nbrs: seq<ShipId>, phys: Physics, now: real)
    requires InMap(nbrs, m) && s.dead
    ensures ApplyInputs(s, inputs, m, nbrs, phys, now) == (s, m)
  {
  }

  predicate NonNegativeDeltas(buffers: map<ClientId, seq<Input>>) {
    forall k, i | k in buffers && 0 <= i < |buffers[k]| :: buffers[k][i].delta >= 0.0
  }

  /** Replaying buffers with non-negative frame times keeps all ships, the
      authoritative ones and the copies, within the game's ranges. */
  lemma {:induction false} ReplayKeepsSane(order: seq<ClientId>, todo: seq<ClientId>, buffers: map<ClientId, seq<Input>>,
                                           rp: Replay, phys: Physics, now: real)
    requires InMap(order, rp.auth) && Covers(todo, order, rp.auth, buffers)
    requires AllSane(rp.auth) && AllSane(rp.next) && NonNegativeDeltas(buffers)
    ensures var r := ReplayFrom(order, todo, buffers, rp, phys, now);
      AllSane(r.auth) && AllSane(r.next)
    decreases |todo|
  {
    if todo != [] {
      var key := todo[0];
      var copy := DeepCopy(rp.auth[key], phys, now);
      var nbrs := Neighbours(order, key, rp.auth);
      ApplyInputsKeepsSane(copy, buffers[key], rp.auth, nbrs, phys, now);
      var out := ApplyInputs(copy, buffers[key], rp.auth, nbrs, phys, now);
      var rp1 := Replay(out.1, rp.next[key := out.0], rp.visited[key := SerializeShip(rp.auth[key])]);
      ReplayKeepsSane(order, todo[1..], buffers, rp1, phys, now);
    }
  }

  // ---------------------------------------------------------------- tick

  /** The new state and the datagrams broadcast by a tick. */
  datatype TickResult = TickResult(state: State, packets: seq<(Addr, Packet<ShipState>)>)

  /** One iteration of the server loop at clock reading `now`: clear the
      colliding flags, replay, run the passes, broadcast, and make the copies
      authoritative. */
  function Tick(st: State, phys: Physics, now: real, draw: ShipId -> (int, int)): (r: TickResult)
    requires Valid(st) && DrawsInRange(draw)
    ensures Valid(r.state)
    ensures r.state.order == st.order && r.state.clients == st.clients && r.state.timeStamps == st.timeStamps
    ensures r.state.item.Keys == st.item.Keys
    ensures forall k | k in r.state.inputBuffer :: r.state.inputBuffer[k] == []
    ensures |r.packets| == |st.order|
    ensures forall k | k in r.state.item :: AllLive(r.state.item[k].gun)
  {
    var rp := TickReplay(st, phys, now);
    Conclude(st, rp, TickPasses(st, rp.next, phys, now, draw), now)
  }

  /** The serialised form of every ship. */
  function Snapshot(m: map<ShipId, Ship>): (r: map<ClientId, ShipState>)
    ensures r.Keys == m.Keys
    ensures forall k | k in m :: r[k] == SerializeShip(m[k])
  {
    map k | k in m :: SerializeShip(m[k])
  }

  /** The replay of a tick over all clients in dictionary order, after the
      colliding flags are cleared. */
  function TickReplay(st: State, phys: Physics, now: real): (rp: Replay)
    requires Valid(st)
    ensures rp.auth.Keys == st.item.Keys && rp.next.Keys == st.item.Keys && rp.visited.Keys == st.item.Keys
  {
    var start := TickStart(st);
    ReplayKeys(st.order, st.order, st.inputBuffer, start, phys, now);
    var r := ReplayFrom(st.order, st.order, st.inputBuffer, start, phys, now);
    OrderedKeys(st, r.next, start.next);
    OrderedKeys(st, r.visited, start.visited);
    r
  }

  /** The replay's accumulators at the start of a tick: every authoritative
      ship with its colliding flag cleared, and no copies or records yet. */
  function TickStart(st: State): (r: Replay)
    requires Valid(st)
    ensures InMap(st.order, r.auth) && Covers(st.order, st.order, r.auth, st.inputBuffer)
    ensures r.auth == ClearColliding(st.item) && r.next == map[] && r.visited == map[]
  {
    ValidOrder(st);
    Replay(ClearColliding(st.item), map[], map[])
  }

  /** The replay of a tick, client by client in dictionary order: the
      packet entry recorded for a client is its ship (flag cleared) as the
      replays of the clients before it left it, and its new ship is the copy
      of that ship with its whole buffer replayed in order against the other
      authoritative ships as those replays left them. */
  lemma TickReplayVisits(st: State, phys: Physics, now: real)
    requires Valid(st)
    ensures var start := TickStart(st);
      var rp := TickReplay(st, phys, now);
      forall i | 0 <= i < |st.order| ::
        var k, a := st.order[i], VisitTime(st.order, st.order, i, st.inputBuffer, start, phys, now).auth;
        && rp.next[k] == ApplyInputs(DeepCopy(a[k], phys, now), st.inputBuffer[k], a,
                                     Neighbours(st.order, k, a), phys, now).0
        && rp.visited[k] == SerializeShip(a[k])
  {
    var start := TickStart(st);
    assert TickReplay(st, phys, now) == ReplayFrom(st.order, st.order, st.inputBuffer, start, phys, now);
    ReplayVisits(st.order, st.order, st.inputBuffer, start, phys, now);
  }

  /** A map holding exactly the ids of the dictionary order has the key set
      of the server's maps. */
  lemma OrderedKeys<V>(st: State, a: map<ClientId, V>, empty: map<ClientId, V>)
    requires Valid(st) && empty == map[]
    requires forall k :: k in a <==> k in empty || k in st.order
    ensures a.Keys == st.item.Keys
  {
    ValidOrder(st);
    assert forall k :: k in a <==> k in st.item;
  }

  /** `handleBullets`, `handleBarriers` and `handleRespawns` on the copies:
      afterwards every gun holds only live bullets, and ships within the
      game's ranges stay within them. */
  function TickPasses(st: State, next: map<ShipId, Ship>, phys: Physics, now: real, draw: ShipId -> (int, int)): (r: map<ShipId, Ship>)
    requires Valid(st) && next.Keys == st.item.Keys && DrawsInRange(draw)
    ensures r.Keys == next.Keys
    ensures forall k | k in r :: AllLive(r[k].gun)
  {
    ValidOrder(st);
    var shot := BulletsPass(next, st.order, Direct, phys, now);
    var walled := BarriersPass(shot, st.order, Barriers);
    Respawns(walled, st.order, now, draw)
  }

  /** The passes keep ships within the game's ranges. */
  lemma TickPassesKeepSane(st: State, next: map<ShipId, Ship>, phys: Physics, now: real, draw: ShipId -> (int, int))
    requires Valid(st) && next.Keys == st.item.Keys && DrawsInRange(draw) && AllSane(next)
    ensures AllSane(TickPasses(st, next, phys, now, draw))
  {
    ValidOrder(st);
    var shot := BulletsPass(next, st.order, Direct, phys, now);
    BarriersPassKeepsSane(shot, st.order, Barriers);
    RespawnsKeepSane(BarriersPass(shot, st.order, Barriers), st.order, now, draw);
  }

  /** The end of a tick, given the replay's accumulators and the copies
      after the passes: one packet per client, in dictionary order; then the
      buffers are emptied and the copies become the server's ships. */
  function Conclude(st: State, rp: Replay, next: map<ShipId, Ship>, now: real): (r: TickResult)
    requires Valid(st)
    requires rp.auth.Keys == st.item.Keys && rp.visited.Keys == st.item.Keys && next.Keys == st.item.Keys
    ensures Valid(r.state)
    ensures r.state == st.(item := next, inputBuffer := r.state.inputBuffer)
    ensures forall k | k in r.state.inputBuffer :: r.state.inputBuffer[k] == []
    ensures |r.packets| == |st.order|
  {
    ValidOrder(st);
    var own := Snapshot(next);
    var settled := Snapshot(rp.auth);
    assert rp.visited.Keys <= settled.Keys;
    var packets := Outbox(st.order, st.clients, own, settled, rp.visited, st.inputBuffer, now);
    var state := ServerState(st.order, st.clients, next, st.timeStamps, Drain(st).inputBuffer);
    assert Valid(state);
    TickResult(state, packets)
  }

  /** The packet for the client at position `p` of dictionary order: it is
      addressed to that client, tagged with its id and the tick's clock, and
      carries all buffered inputs as they were before the drain. Its ship
      table has an entry for every ship: the client's own ship in its new
      state; another ship as the server held it after the replay if that
      ship's client comes earlier in dictionary order (its entry was put back
      after its own packet went out), and as it was when the replay visited
      it otherwise. */
  lemma ConcludeBroadcast(st: State, rp: Replay, next: map<ShipId, Ship>, now: real, p: int)
    requires Valid(st) && 0 <= p < |st.order|
    requires rp.auth.Keys == st.item.Keys && rp.visited.Keys == st.item.Keys && next.Keys == st.item.Keys
    ensures var r := Conclude(st, rp, next, now);
      var id := st.order[p];
      && id in st.clients && id in next
      && r.packets[p].0 == st.clients[id]
      && r.packets[p].1.Broadcast?
      && r.packets[p].1.clientId == id && r.packets[p].1.timeStamp == now
      && r.packets[p].1.inputs == st.inputBuffer
      && r.packets[p].1.ships.Keys == st.item.Keys
      && r.packets[p].1.ships[id] == SerializeShip(next[id])
      && forall j | j in st.item && j != id ::
           r.packets[p].1.ships[j] == if j in st.order[..p] then SerializeShip(rp.auth[j]) else rp.visited[j]
  {
    ValidOrder(st);
    var id := st.order[p];
    var own := Snapshot(next);
    var settled := Snapshot(rp.auth);
    var e := Entries(st.order, p, own, settled, rp.visited);
    KeysAbsorb(rp.visited, id);
    var packets := Outbox(st.order, st.clients, own, settled, rp.visited, st.inputBuffer, now);
    OutboxPacket(st.order, st.clients, own, settled, rp.visited, st.inputBuffer, now, p);
  }

  /** How a tick's result is put together from its phases. */
  lemma TickPhases(st: State, phys: Physics, now: real, draw: ShipId -> (int, int))
    requires Valid(st) && DrawsInRange(draw)
    ensures var rp := TickReplay(st, phys, now);
      Tick(st, phys, now, draw) == Conclude(st, rp, TickPasses(st, rp.next, phys, now, draw), now)
  {
  }

  /** Replaying buffers with non-negative frame times keeps the copies
      within the game's ranges. */
  lemma TickReplayKeepsSane(st: State, phys: Physics, now: real)
    requires Valid(st) && AllSane(st.item) && NonNegativeDeltas(st.inputBuffer)
    ensures AllSane(TickReplay(st, phys, now).next)
  {
    ValidOrder(st);
    var cleared := ClearColliding(st.item);
    assert Covers(st.order, st.order, cleared, st.inputBuffer);
    ReplayKeepsSane(st.order, st.order, st.inputBuffer, Replay(cleared, map[], map[]), phys, now);
  }

  /** A tick whose inputs all have non-negative frame times keeps every ship
      within the game's ranges. */
  lemma TickKeepsSane(st: State, phys: Physics, now: real, draw: ShipId -> (int, int))
    requires Valid(st) && DrawsInRange(draw) && AllSane(st.item) && NonNegativeDeltas(st.inputBuffer)
    ensures AllSane(Tick(st, phys, now, draw).state.item)
  {
    TickReplayKeepsSane(st, phys, now);
    TickPhases(st, phys, now, draw);
    var rp := TickReplay(st, phys, now);
    TickPassesKeepSane(st, rp.next, phys, now, draw);
  }

  /** With no inputs buffered the replay changes no ship the server holds
      (beyond clearing the colliding flags), records each ship as it was,
      and gives each client the plain copy of its ship. */
  lemma IdleReplay(st: State, phys: Physics, now: real)
    requires Valid(st)
    requires forall k | k in st.inputBuffer :: st.inputBuffer[k] == []
    ensures var rp := TickReplay(st, phys, now);
      && rp.auth == ClearColliding(st.item)
      && (forall k | k in st.item :: rp.visited[k] == SerializeShip(st.item[k].(colliding := false)))
      && (forall k | k in st.item :: rp.next[k] == DeepCopy(st.item[k].(colliding := false), phys, now))
  {
    ValidOrder(st);
    var cleared := ClearColliding(st.item);
    assert Covers(st.order, st.order, cleared, st.inputBuffer);
    ReplayIdle(st.order, st.order, st.inputBuffer, Replay(cleared, map[], map[]), phys, now);
  }

  /** With no inputs buffered, every packet shows the other clients' ships
      exactly as the server held them before the tick (with the colliding
      flag cleared), whatever the passes did: other ships lag one tick behind
      the recipient's own. */
  lemma IdleTickShowsPreviousState(st: State, phys: Physics, now: real, draw: ShipId -> (int, int), p: int)
    requires Valid(st) && DrawsInRange(draw) && 0 <= p < |st.order|
    requires forall k | k in st.inputBuffer :: st.inputBuffer[k] == []
    ensures var r := Tick(st, phys, now, draw);
      forall j | j in st.item && j != st.order[p] ::
        j in r.packets[p].1.ships && r.packets[p].1.ships[j] == SerializeShip(st.item[j].(colliding := false))
  {
    IdleReplay(st, phys, now);
    TickPhases(st, phys, now, draw);
    var rp := TickReplay(st, phys, now);
    ConcludeBroadcast(st, rp, TickPasses(st, rp.next, phys, now, draw), now, p);
  }
}
