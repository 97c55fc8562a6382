/** The clients' record of their own recent positions (`oldShipSet` in
    gameClient.py and echoClient.py). A server position the client has been
    at recently is trusted and the local prediction is kept; any other
    server position overrides the prediction. */
module Trust {

  /** A position `(x, y)`; the source keys it as the JSON text `{"x": x, "y": y}`. */
  type PosKey = (int, int)

  /** Above this many entries a send trims the record. */
  const TrimThreshold: nat := 15
  /** A trim keeps this many of the most recent entries. */
  const TrimKeep: nat := 30

  /** Whether a server position counts as one of the client's own recent
      positions: the record must be non-empty and contain it. */
  predicate Trusts(trust: seq<PosKey>, pos: PosKey) {
    |trust| > 0 && pos in trust
  }

  /** `oldShipSet[-30:]` when the record has more than 15 entries. The slice
      keeps the whole record until it is longer than 30, so records of 16 to
      30 entries are not shortened. */
  function Trim(trust: seq<PosKey>): (r: seq<PosKey>)
    ensures |trust| <= TrimKeep ==> r == trust
    ensures |trust| > TrimKeep ==> |r| == TrimKeep
    ensures |r| <= |trust| && r == trust[|trust| - |r|..]
  {
    if |trust| > TrimThreshold then
      var start := if |trust| > TrimKeep then |trust| - TrimKeep else 0;
      trust[start..]
    else
      trust
  }

  /** Trimming twice is trimming once. */
  lemma TrimIdempotent(trust: seq<PosKey>)
    ensures Trim(Trim(trust)) == Trim(trust)
  {
  }

  /** A trim never forgets the latest position, nor any position among the
      last 30. */
  lemma TrimKeepsRecent(trust: seq<PosKey>, i: int)
    requires 0 <= i < |trust| && |trust| - i <= TrimKeep
    ensures trust[i] in Trim(trust)
    ensures |trust| > 0 ==> Trusts(Trim(trust), trust[|trust| - 1])
  {
    var r := Trim(trust);
    assert r[i - (|trust| - |r|)] == trust[i];
  }

  /** The per-frame upkeep of gameClient.py: record the position; on a send
      frame trim the record; if the ship is dead forget everything. */
  function Upkeep(trust: seq<PosKey>, pos: PosKey, send: bool, dead: bool): (r: seq<PosKey>)
    ensures dead ==> r == []
    ensures !dead && !send ==> r == trust + [pos]
    ensures !dead && send ==> r == Trim(trust + [pos])
  {
    var recorded := trust + [pos];
    var trimmed := if send then Trim(recorded) else recorded;
    if dead then [] else trimmed
  }

  /** The per-frame upkeep of echoClient.py: the position is recorded only
      on a send frame, and the record is then trimmed. */
  function EchoUpkeep(trust: seq<PosKey>, pos: PosKey, send: bool): (r: seq<PosKey>)
    ensures !send ==> r == trust
    ensures send ==> r == Trim(trust + [pos])
  {
    if send then Trim(trust + [pos]) else trust
  }

  /** After every upkeep the record's latest entry is the position just
      recorded, unless the ship died or (echo client) nothing was sent. */
  lemma UpkeepTrustsLatest(trust: seq<PosKey>, pos: PosKey, send: bool, dead: bool)
    ensures !dead ==> Trusts(Upkeep(trust, pos, send, dead), pos)
    ensures send ==> Trusts(EchoUpkeep(trust, pos, send), pos)
  {
    TrimKeepsRecent(trust + [pos], |trust|);
  }

  /** Starting from a record of at most 30 entries, a send frame leaves at
      most 30; a frame without a send grows the record by exactly one. */
  lemma UpkeepBounded(trust: seq<PosKey>, pos: PosKey, send: bool, dead: bool)
    requires |trust| <= TrimKeep
    ensures send ==> |Upkeep(trust, pos, send, dead)| <= TrimKeep
    ensures send ==> |EchoUpkeep(trust, pos, send)| <= TrimKeep
    ensures !send && !dead ==> |Upkeep(trust, pos, send, dead)| == |trust| + 1
  {
  }
}
