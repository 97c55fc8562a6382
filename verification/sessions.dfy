/** The per-client bookkeeping both servers keep (`GameServerProtocol` in
    gameServer.py and `EchoServerProtocol` in echoServer.py): the client
    addresses, one ship per client, the last update time and the buffered
    inputs, all keyed by client id. The two servers differ only in the ship
    they store, so the state is generic in the ship type `S`. */
module Sessions {
  import opened Wrappers
  import opened Controls
  import opened Seqs

  type ClientId = int

  /** A datagram peer address. */
  datatype Addr = Addr(host: string, port: int)

  /** The datagrams a client sends: a handshake, or an update carrying the
      inputs buffered since the last one. */
  datatype Request = Handshake | Update(clientId: ClientId, inputs: seq<Input>, timeStamp: real)

  /** The datagrams a server sends. `St` is the serialised ship form. */
  datatype Packet<St> =
    | HandshakeReply(clientId: ClientId, ships: map<ClientId, St>, inputs: map<ClientId, seq<Input>>)
    | Broadcast(timeStamp: real, clientId: ClientId, ships: map<ClientId, St>, inputs: map<ClientId, seq<Input>>)

  /** Why a request was not handled: an update named a client that never
      shook hands, so the dictionary lookups of the handler fail before any
      state is changed. */
  datatype RequestError = UnknownClient(clientId: ClientId)

  /** The server's maps. `order` is the insertion order of the client ids,
      which is the order Python iterates these dictionaries in. */
  datatype ServerState<S> = ServerState(
    order: seq<ClientId>,
    clients: map<ClientId, Addr>,
    item: map<ClientId, S>,
    timeStamps: map<ClientId, real>,
    inputBuffer: map<ClientId, seq<Input>>)

  /** The four maps have the same keys, which are exactly the ids in `order`. */
  predicate Valid<S>(st: ServerState<S>) {
    && Distinct(st.order)
    && (forall p | 0 <= p < |st.order| :: st.order[p] in st.clients)
    && (forall k | k in st.clients :: k in st.order)
    && st.item.Keys == st.clients.Keys
    && st.timeStamps.Keys == st.clients.Keys
    && st.inputBuffer.Keys == st.clients.Keys
  }

  /** Every id in `order` has an entry in each map, and every map key is in `order`. */
  lemma ValidOrder<S>(st: ServerState<S>)
    requires Valid(st)
    ensures forall p | 0 <= p < |st.order| ::
              st.order[p] in st.clients && st.order[p] in st.item
              && st.order[p] in st.timeStamps && st.order[p] in st.inputBuffer
    ensures forall k | k in st.clients :: k in st.order
  {
  }

  /** The ids in `order` are exactly the keys of the maps. */
  lemma OrderKeys<S>(st: ServerState<S>)
    requires Valid(st)
    ensures (set k | k in st.order) == st.clients.Keys
  {
    var keys := set k | k in st.order;
    assert forall k | k in st.clients :: k in keys;
  }

  /** The registration half of a handshake: the client's address, ship, time
      and an empty input buffer are recorded under its id. An id that is
      already present (the id is drawn at random) is overwritten in place. */
  function Register<S>(st: ServerState<S>, id: ClientId, addr: Addr, ship: S, now: real): (r: ServerState<S>)
    requires Valid(st)
    ensures Valid(r)
    ensures r.clients.Keys == st.clients.Keys + {id}
    ensures id in r.clients && id in r.item && id in r.timeStamps && id in r.inputBuffer
    ensures r.clients[id] == addr && r.item[id] == ship && r.timeStamps[id] == now && r.inputBuffer[id] == []
    ensures r.order == if id in st.order then st.order else st.order + [id]
    ensures forall k | k in st.clients && k != id ::
              && r.clients[k] == st.clients[k] && r.item[k] == st.item[k]
              && r.timeStamps[k] == st.timeStamps[k] && r.inputBuffer[k] == st.inputBuffer[k]
  {
    var r := ServerState(if id in st.order then st.order else st.order + [id], st.clients[id := addr],
                         st.item[id := ship], st.timeStamps[id := now], st.inputBuffer[id := []]);
    RegisterValid(st, id, r);
    r
  }

  /** A state with one id added to the order and to each map is valid. */
  lemma RegisterValid<S>(st: ServerState<S>, id: ClientId, r: ServerState<S>)
    requires Valid(st)
    requires r.order == if id in st.order then st.order else st.order + [id]
    requires r.clients.Keys == st.clients.Keys + {id} && r.item.Keys == r.clients.Keys
    requires r.timeStamps.Keys == r.clients.Keys && r.inputBuffer.Keys == r.clients.Keys
    ensures Valid(r)
  {
    assert forall k :: k in r.order <==> k in st.order || k == id;
    if id !in st.order {
      forall i, j | 0 <= i < j < |r.order|
        ensures r.order[i] != r.order[j]
      {
        if j == |st.order| {
          assert r.order[i] == st.order[i];
        }
      }
    }
  }

  /** The update half: the inputs are appended, in the order received, to
      that client's buffer, and its time is recorded. Nothing else changes.
      An unknown id is refused and the state is left alone. */
  function Enqueue<S>(st: ServerState<S>, id: ClientId, inputs: seq<Input>, ts: real): (r: Result<ServerState<S>, RequestError>)
    requires Valid(st)
    ensures r.Failure? <==> id !in st.item
    ensures r.Success? ==>
              && Valid(r.value) && id in r.value.inputBuffer && id in r.value.timeStamps
              && r.value.inputBuffer[id] == st.inputBuffer[id] + inputs
              && r.value.timeStamps[id] == ts
              && r.value.order == st.order && r.value.clients == st.clients && r.value.item == st.item
              && (forall k | k in st.inputBuffer && k != id ::
                    r.value.inputBuffer[k] == st.inputBuffer[k] && r.value.timeStamps[k] == st.timeStamps[k])
  {
    if id !in st.item then Failure(UnknownClient(id))
    else
      Success(st.(inputBuffer := st.inputBuffer[id := st.inputBuffer[id] + inputs],
                  timeStamps := st.timeStamps[id := ts]))
  }

  /** Two updates from one client are buffered in the order they arrived. */
  lemma EnqueueInArrivalOrder<S>(st: ServerState<S>, id: ClientId, xs: seq<Input>, t1: real, ys: seq<Input>, t2: real)
    requires Valid(st) && id in st.item
    ensures Enqueue(st, id, xs, t1).Success?
    ensures Enqueue(Enqueue(st, id, xs, t1).value, id, ys, t2).Success?
    ensures Enqueue(Enqueue(st, id, xs, t1).value, id, ys, t2).value.inputBuffer[id] == st.inputBuffer[id] + xs + ys
  {
  }

  /** After a tick's broadcast every buffer is empty; nothing else changes. */
  function Drain<S>(st: ServerState<S>): (r: ServerState<S>)
    requires Valid(st)
    ensures Valid(r)
    ensures forall k | k in r.inputBuffer :: r.inputBuffer[k] == []
    ensures r == st.(inputBuffer := r.inputBuffer)
  {
    st.(inputBuffer := map k | k in st.inputBuffer :: [])
  }

  /** The ship table a recipient at position `p` of `order` receives: its own
      entry is `own`; an entry of a client earlier in `order` (already sent
      to, whose entry was put back afterwards) is `settled`; any other entry
      is the one recorded in `visited`. */
  function Entries<St>(order: seq<ClientId>, p: int, own: map<ClientId, St>, settled: map<ClientId, St>,
                       visited: map<ClientId, St>): (r: map<ClientId, St>)
    requires 0 <= p < |order|
    requires order[p] in own && visited.Keys <= settled.Keys
    ensures r.Keys == visited.Keys + {order[p]}
    ensures r[order[p]] == own[order[p]]
    ensures forall j | j in visited && j != order[p] ::
              r[j] == if j in order[..p] then settled[j] else visited[j]
  {
    map j | j in visited.Keys + {order[p]} ::
      if j == order[p] then own[j] else if j in order[..p] then settled[j] else visited[j]
  }

  /** The broadcast loop: one packet per client in `order`, sent to its
      address and tagged with its id, all carrying the same inputs. */
  function Outbox<St>(order: seq<ClientId>, clients: map<ClientId, Addr>, own: map<ClientId, St>,
                      settled: map<ClientId, St>, visited: map<ClientId, St>,
                      inputs: map<ClientId, seq<Input>>, now: real): (r: seq<(Addr, Packet<St>)>)
    requires forall p | 0 <= p < |order| :: order[p] in clients && order[p] in own
    requires visited.Keys <= settled.Keys
    ensures |r| == |order|
  {
    seq(|order|, p requires 0 <= p < |order| =>
      (clients[order[p]], Broadcast(now, order[p], Entries(order, p, own, settled, visited), inputs)))
  }

  /** The packet at position `p` goes to the address of the client at that
      position, names it, and carries that client's ship table. */
  lemma OutboxPacket<St>(order: seq<ClientId>, clients: map<ClientId, Addr>, own: map<ClientId, St>,
                         settled: map<ClientId, St>, visited: map<ClientId, St>,
                         inputs: map<ClientId, seq<Input>>, now: real, p: int)
    requires forall p | 0 <= p < |order| :: order[p] in clients && order[p] in own
    requires visited.Keys <= settled.Keys
    requires 0 <= p < |order|
    ensures var r := Outbox(order, clients, own, settled, visited, inputs, now);
      && r[p].0 == clients[order[p]]
      && r[p].1 == Broadcast(now, order[p], Entries(order, p, own, settled, visited), inputs)
  {
  }

  /** Adding a key already present leaves a map's key set as it was. */
  lemma KeysAbsorb<K, V>(m: map<K, V>, k: K)
    requires k in m
    ensures m.Keys + {k} == m.Keys
  {
  }
}
