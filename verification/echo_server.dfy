/** The prototype server of echoServer.py: the datagram handler
    (`EchoServerProtocol.datagram_received`) and one iteration of its main
    loop. A tick replays every client's buffered inputs on a copy of its
    ship, sends each client its own new ship with every other ship as it was
    before the tick, empties the buffers and makes the copies authoritative.
    There are no collisions, bullets or barriers. */
module EchoServer {
  import opened Wrappers
  import opened Geometry
  import opened Sessions
  import opened Echo

  /** The server draws its ships as 32 x 32 squares. */
  const ShipSize: int := 32

  type State = ServerState<EchoShip>

  /** `Ship()`: a still square at the origin. */
  const Spawned: EchoShip := EchoShip(Rect(0, 0, ShipSize, ShipSize), (0.0, 0.0))

  predicate Square(s: EchoShip) {
    s.rect.w == ShipSize && s.rect.h == ShipSize
  }

  predicate AllSquare(m: map<ClientId, EchoShip>) {
    forall k | k in m :: Square(m[k])
  }

  /** The server's `jsonDeserialize`: a new ship is moved to the recorded
      corner; the recorded size and velocity are not restored. */
  function Decode(d: EchoState): (s: EchoShip)
    ensures Square(s) && s.velocity == (0.0, 0.0)
    ensures s.rect.x == d.x && s.rect.y == d.y
  {
    EchoShip(Rect(d.x, d.y, ShipSize, ShipSize), (0.0, 0.0))
  }

  /** Decoding what was serialised gives back a square ship with its
      velocity lost. */
  lemma DecodeEncode(s: EchoShip)
    requires Square(s)
    ensures Decode(Serialize(s)) == s.(velocity := (0.0, 0.0))
  {
  }

  /** `deepCopy`: the corner and the velocity are carried over to a new
      ship. */
  function DeepCopy(s: EchoShip): (r: EchoShip)
    ensures Square(r)
    ensures r.rect.x == s.rect.x && r.rect.y == s.rect.y && r.velocity == s.velocity
  {
    EchoShip(Rect(s.rect.x, s.rect.y, ShipSize, ShipSize), s.velocity)
  }

  /** Every ship the server holds is a square, so a copy of it equals it;
      unlike the decoder, the copy keeps the velocity. */
  lemma DeepCopyIdentity(s: EchoShip)
    requires Square(s)
    ensures DeepCopy(s) == s
    ensures DeepCopy(s) == Decode(Serialize(s)).(velocity := s.velocity)
  {
  }

  /** The new state and the datagrams sent in reply. */
  datatype Reply = Reply(state: State, packets: seq<(Addr, Packet<EchoState>)>)

  /** `datagram_received`. A handshake answers the sender with its drawn id
      and a ship at the origin, then registers it. An update appends its
      inputs to the sender's buffer and records its time stamp. An update
      from an id that never shook hands fails and changes nothing. */
  function DatagramReceived(st: State, req: Request, addr: Addr, draw: ClientId, now: real): (r: Result<Reply, RequestError>)
    requires Valid(st) && 0 <= draw <= 2000
    ensures r.Success? ==> Valid(r.value.state)
    ensures AllSquare(st.item) && r.Success? ==> AllSquare(r.value.state.item)
    ensures req.Handshake? ==>
              && r.Success?
              && r.value.packets == [(addr, HandshakeReply(draw, map[draw := Serialize(Spawned)], map[]))]
              && r.value.state.clients.Keys == st.clients.Keys + {draw}
              && draw in r.value.state.item && r.value.state.item[draw] == Spawned
              && draw in r.value.state.clients && r.value.state.clients[draw] == addr
              && draw in r.value.state.inputBuffer && r.value.state.inputBuffer[draw] == []
    ensures req.Update? ==>
              && (r.Failure? <==> req.clientId !in st.item)
              && (r.Success? ==>
                    && r.value.packets == []
                    && req.clientId in r.value.state.inputBuffer
                    && r.value.state.inputBuffer[req.clientId] == st.inputBuffer[req.clientId] + req.inputs
                    && (forall k | k in st.inputBuffer && k != req.clientId ::
                          k in r.value.state.inputBuffer && r.value.state.inputBuffer[k] == st.inputBuffer[k])
                    && r.value.state.item == st.item && r.value.state.order == st.order)
  {
    match req
    case Handshake =>
      var reply := HandshakeReply(draw, map[draw := Serialize(Spawned)], map[]);
      Success(Reply(Register(st, draw, addr, Spawned, now), [(addr, reply)]))
    case Update(id, inputs, ts) =>
      match Enqueue(st, id, inputs, ts)
      case Failure(e) => Failure(e)
      case Success(st2) => Success(Reply(st2, []))
  }

  /** What a tick leaves behind: the new state and one packet per client. */
  datatype TickResult = TickResult(state: State, packets: seq<(Addr, Packet<EchoState>)>)

  /** The serialised form of every ship. */
  function Snapshot(m: map<ClientId, EchoShip>): (r: map<ClientId, EchoState>)
    ensures r.Keys == m.Keys
    ensures forall k | k in m :: r[k] == Serialize(m[k])
  {
    map k | k in m :: Serialize(m[k])
  }

  /** Each ship's successor: a copy with its client's buffer replayed. */
  function Successors(st: State): (r: map<ClientId, EchoShip>)
    requires Valid(st)
    ensures r.Keys == st.item.Keys && AllSquare(r)
    ensures forall k | k in st.item :: r[k] == EchoReplay(DeepCopy(st.item[k]), st.inputBuffer[k])
  {
    map k | k in st.item :: EchoReplay(DeepCopy(st.item[k]), st.inputBuffer[k])
  }

  /** One iteration of the main loop at clock reading `now`. The message
      dictionary's ship table holds every ship as it was; the entry of a
      recipient is swapped for its new ship while its packet is sent and
      swapped back afterwards, so every recipient sees the others unmoved.
      The buffers are emptied and the new ships replace the old. */
  function Tick(st: State, now: real): (r: TickResult)
    requires Valid(st)
    ensures Valid(r.state) && AllSquare(r.state.item)
    ensures r.state == st.(item := r.state.item, inputBuffer := r.state.inputBuffer)
    ensures r.state.item.Keys == st.item.Keys
    ensures forall k | k in st.item :: r.state.item[k] == EchoReplay(DeepCopy(st.item[k]), st.inputBuffer[k])
    ensures forall k | k in r.state.inputBuffer :: r.state.inputBuffer[k] == []
    ensures |r.packets| == |st.order|
  {
    ValidOrder(st);
    var before := Snapshot(st.item);
    var next := Successors(st);
    TickResult(Drain(st).(item := next), Outbox(st.order, st.clients, Snapshot(next), before, before, st.inputBuffer, now))
  }

  /** The packet for the client at position `p` of the dictionary order: it
      goes to that client's address, names it, carries every buffer as it
      was before the tick, holds the recipient's own new ship, and holds
      every other ship as it was before the tick. */
  lemma TickBroadcast(st: State, now: real, p: int)
    requires Valid(st) && 0 <= p < |st.order|
    ensures var r := Tick(st, now);
      var id := st.order[p];
      && id in st.clients && id in r.state.item
      && r.packets[p].0 == st.clients[id]
      && r.packets[p].1 == Broadcast(now, id, r.packets[p].1.ships, st.inputBuffer)
      && r.packets[p].1.ships.Keys == st.item.Keys
      && r.packets[p].1.ships[id] == Serialize(r.state.item[id])
      && forall j | j in st.item && j != id :: r.packets[p].1.ships[j] == Serialize(st.item[j])
  {
    ValidOrder(st);
    var id := st.order[p];
    var before := Snapshot(st.item);
    var next := Successors(st);
    KeysAbsorb(before, id);
    OutboxPacket(st.order, st.clients, Snapshot(next), before, before, st.inputBuffer, now, p);
  }

  /** With every buffer empty a tick moves no ship. */
  lemma IdleTick(st: State, now: real)
    requires Valid(st) && AllSquare(st.item)
    requires forall k | k in st.inputBuffer :: st.inputBuffer[k] == []
    ensures Tick(st, now).state.item == st.item
  {
    var r := Tick(st, now);
    forall k | k in st.item
      ensures r.state.item[k] == st.item[k]
    {
      DeepCopyIdentity(st.item[k]);
    }
  }

  /** A tick moves each ship by the sum of the shifts of its buffered
      inputs. */
  lemma TickShift(st: State, now: real, k: ClientId)
    requires Valid(st) && k in st.item
    ensures Tick(st, now).state.item[k].rect == MoveBy(DeepCopy(st.item[k]).rect, TotalShift(st.inputBuffer[k]))
  {
    EchoReplayShift(DeepCopy(st.item[k]), st.inputBuffer[k]);
  }
}
