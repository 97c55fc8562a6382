# Space shooter: simulation and synchronisation rules in Dafny

This project models the simulation core of a small multiplayer space
shooter, written in Python with pygame and asyncio, and proves properties
of the model. Players fly ships, fire bullets, bounce off the walls and off
each other. An authoritative server replays the clients' buffered key
inputs once per tick and broadcasts the result. Each client predicts its own
ship and reconciles the prediction with the server's report. A simpler
prototype pair, the echo server and echo client, uses the same
buffer/replay/drain scheme with a stateless movement rule.

The modules follow the program's structure:

| module | file | models |
|---|---|---|
| `Wrappers` | wrappers.dfy | `Option` and `Result` |
| `Seqs` | seqs.dfy | `list.remove` on id lists |
| `Geometry` | geometry.dfy | integer rects, the overlap test, `collidelist`, Python's `round` |
| `Controls` | controls.dfy | pressed keys, buffered inputs, the send interval |
| `Entities` | entities.dfy | `Bullet`, `Gun` and `Ship` of Ship.py |
| `Codec` | codec.dfy | Ship.py's `jsonSerialize`/`jsonDeserialize` and `deepCopy` |
| `Sessions` | sessions.dfy | the per-client maps both servers keep, registration, buffering, draining, the broadcast loop |
| `Arena` | arena.dfy | `handleBullets` (direct and swept), `handleBarriers`, `handleRespawns` |
| `GameServer` | game_server.dfy | gameServer.py: datagram handler and tick |
| `Trust` | trust.dfy | the clients' record of recent own positions (`oldShipSet`) |
| `GameClient` | game_client.dfy | gameClient.py: packet handling, `getValidatedShip`, local simulation, `createMessage`, one frame |
| `Echo` | echo.dfy | the prototype ship and its movement rule |
| `EchoServer` | echo_server.dfy | echoServer.py: datagram handler, copy/decode, tick |
| `EchoClient` | echo_client.dfy | echoClient.py: `getDirection`, decoding, bullets, reconciliation, one frame |

Conventions:

- Ships are kept in a `map` from client id to ship. A separate `order: seq`
  records Python's dictionary insertion order, because every loop of the
  source runs in that order and the order changes the outcome.
- Everything is immutable. An operation that mutates shared objects in the
  source returns the updated map. The server tick models the source's
  aliasing: the replay mutates the authoritative ships, which are the
  neighbours of later copies.
- Each operation gets one clock reading `now` as a parameter. Random draws
  (the client id, the spawn corner, the respawn corner) are parameters
  constrained to the source's ranges.
- Float geometry from trigonometry becomes function-typed fields of a
  `Physics` record: the ship's and the bullet's whole-pixel step, the
  muzzle point, and the sweep of `Bullet.interpolate`. The prototype
  bullet's step is the parameter `fly`. Velocities, directions and frame
  times are reals.
- Serialised forms are records (`ShipState`, `EchoState`), not JSON text.
  Position keys are `(x, y)` pairs, not `json.dumps` strings.

The model follows the code, in particular:

- The server replays each client's buffer in arrival order, one client
  after the other in dictionary order. There is no merged timeline sorted
  by time stamp.
- `getValidatedShip` takes only the hitpoints from the server. It does not
  take the `dead` flag (gameClient.py:99).
- The trust record is trimmed with `oldShipSet[-30:]` only once it is longer
  than 15. Records of 16 to 30 entries are therefore never shortened.
- `spawn` draws the new corner from [0, 400] x [0, 400], not from the whole
  field (Ship.py:179-180).

## Model

| member | source | states |
|---|---|---|
| `Geometry.CollideList` | gameClient.py:153 | `collidelist` returns -1 exactly when no rect overlaps; otherwise it returns the first index that overlaps |
| `Geometry.RoundHalfEven` | Ship.py:161 | `round(v, 0)` lands within one half of `v` and picks the even integer on a tie |
| `Geometry.RoundHalfEvenUnique` | Ship.py:161 | those two properties determine the rounding uniquely |
| `Geometry.RoundHalfEvenOdd` | echoServer.py:16-18 | rounding commutes with negation, so mirrored velocities move by mirrored pixels |
| `Geometry.RoundHalfEvenIntegral` | echoServer.py:16-18 | a whole velocity moves by exactly that many pixels |
| `Seqs.RemoveFirst` | gameServer.py:158-159 | `ships.remove(value)` is one element shorter and removes exactly one occurrence of the value from the multiset of ids |
| `Seqs.RemoveFirstInOrder` | gameServer.py:158-159 | the removal cuts out the first occurrence: the ids before it followed by the ids after it, order kept |
| `Seqs.RemoveFirstDistinct` | gameServer.py:158-159 | in a list without repeats, removal leaves exactly the other ids |
| `Entities.NormalizeDirection` | Ship.py:22-24 | a bullet direction of 0 is stored as 360; any other direction is kept |
| `Entities.Fly` | Ship.py:60-67 | a flight moves the bullet one step along its heading, keeps the heading, sets its clock to now and adds the elapsed time to its age |
| `Entities.NewBullet` | Ship.py:16-28 | a new bullet has age 0 and the clock `now`, a non-zero direction, and has already moved one step from `(x, y)` |
| `Entities.Shoot` | Ship.py:91-95 | the gun appends exactly one bullet and records `now` iff more than 0.2 s passed since the last shot; otherwise the gun is unchanged |
| `Entities.ShootRateLimited` | Ship.py:91-95 | two shots within 0.2 s add at most one bullet |
| `Entities.ExpireOldBullets` | Ship.py:97-98 | what is kept is live (age below the ttl of 3) and no longer than before |
| `Entities.ExpireCounts` | Ship.py:97-98 | every live bullet is kept as often as it occurs, and no other bullet is kept |
| `Entities.ExpireDistributes` | Ship.py:97-98 | the filter distributes over concatenation, so the original order is kept |
| `Entities.ExpireKeepsLive` | Ship.py:97-98 | a list of live bullets is left alone |
| `Entities.ExpireIdempotent` | Ship.py:97-98 | filtering twice is filtering once |
| `Entities.NewShip` | Ship.py:138-151 | a new ship sits at (x, y) with the image's size and the given hitpoints, still, heading 360, alive, not colliding, with no death stamp and an empty gun; with hitpoints in [0, 10] it is within the game's ranges |
| `Entities.TakeDamage` | Ship.py:164-168 | only hitpoints change; a ship at 0 or below is untouched; otherwise the result is `max(0, hp - damage)` |
| `Entities.TakeDamageBounds` | Ship.py:164-168 | a non-negative damage keeps hitpoints within [0, previous] |
| `Entities.TakeDamageAdds` | Ship.py:164-168 | two hits cost the same as one hit of their sum |
| `Entities.HandleDeath` | Ship.py:170-175 | a ship with hitpoints left is unchanged; otherwise it becomes dead, an unset (0) stamp becomes the clock reading and a stamp already set is kept |
| `Entities.HandleDeathIdempotent` | Ship.py:170-174 | once stamped, later calls change nothing, whatever the clock |
| `Entities.Spawn` | Ship.py:177-187 | the respawn fires iff the ship is dead and more than 5 s passed since its stamp; then it has full health, no stamp, speed 0, no collision flag and a corner in [0, 400]^2; otherwise nothing changes |
| `Entities.Bounce` | Ship.py:194-215 | a resolved pair marks both ships colliding, costs each 1 hp, swaps their speed and direction, and moves each one step from its old rect with the speed and direction it received |
| `Entities.BounceSymmetric` | Ship.py:194-215 | resolving (a, b) is resolving (b, a) with the results swapped |
| `Entities.HandleInterShipCollision` | Ship.py:189-216 | only the neighbours' map entries change; a ship already colliding resolves nothing |
| `Entities.CollisionResolvesFirstEligible` | Ship.py:189-216 | the result reports a collision iff the ship overlaps some neighbour; it resolves iff the ship is free and some overlapping neighbour is free, and then exactly with the first such neighbour |
| `Entities.Throttle` | Ship.py:222-229 | W (over S) sets the speed to v + 5 dt, or 15 if that is more; S alone sets it to v - 20 dt, or 0 if that is less; no key keeps it; speed within [0, 15] stays there |
| `Entities.Turn` | Ship.py:230-233 | A turns by +180 dt, D (without A) by -180 dt, neither keeps the direction |
| `Entities.KeyPriority` | Ship.py:222-233 | W overrides S and A overrides D |
| `Entities.Update` | Ship.py:156-162 | after `update` a ship without hitpoints is dead, its gun is untouched, and a ship that was colliding leaves its neighbours alone; when no pair is resolved the neighbours are untouched and the ship is the death-checked ship moved one step along its own heading at its own speed |
| `Entities.UpdateMoves` | Ship.py:156-162 | with no eligible neighbour (or already colliding) the ship moves one step with its own speed and heading; otherwise it takes the first eligible neighbour's speed and heading, loses 1 hp, moves two steps with them, and only that neighbour changes, as the bounce makes it |
| `Entities.HandleMovementInput` | Ship.py:218-239 | a dead ship and its neighbours are untouched; without space the gun is unchanged |
| `Entities.SteerMoves` | Ship.py:218-239 | a living ship with no neighbour to resolve takes the speed of `Throttle` and the heading of `Turn`, fires iff space is held, moves one step with the new speed and heading, then gets the death check; the other ships are untouched |
| `Entities.ContactKeepsSane` | Ship.py:189-216 | a collision keeps both ships' hitpoints in [0, 10] and speeds in [0, 15] |
| `Entities.MovementKeepsSane` | Ship.py:218-239 | with a non-negative frame time, hitpoints stay in [0, 10] and speeds in [0, 15], for the ship and all its neighbours |
| `Codec.SerializeBullet` | Ship.py:69-76 | a bullet's record holds its clock, corner, heading and age |
| `Codec.SerializeGun` | Ship.py:100-104 | a gun's record holds its last firing time and its bullets' records, one per bullet, in order |
| `Codec.DeserializeGun` | Ship.py:106-112 | a decoded gun has the recorded firing time and one decoded bullet per record, in order |
| `Codec.DeserializeBullet` | Ship.py:78-82 | a decoded bullet keeps the recorded clock and age; its direction is normalised |
| `Codec.SerializeBullets` | Ship.py:100-104 | bullets are serialised one by one, in order |
| `Codec.DeserializeBullets` | Ship.py:106-112 | bullets are decoded one by one, in order |
| `Codec.SerializeShip` | Ship.py:244-257 | the record holds the ship's corner, size, speed, hitpoints, flags, death stamp and direction, and its gun as last firing time plus the bullets' records in order |
| `Codec.DeserializeShip` | Ship.py:259-274 | a decoded ship sits at the recorded corner with the image's size, keeps the recorded speed, hitpoints, flag and direction, is dead iff recorded dead or without hitpoints, and gets the clock as stamp when it has no hitpoints and no stamp |
| `Codec.DeepCopy` | Ship.py:279-280 | a copy keeps position, speed, hitpoints, collision flag, direction, last firing time and the bullet count; a ship without hitpoints comes back dead; each bullet keeps its clock and age but moves one step |
| `Codec.DeepCopyIdentity` | Ship.py:259-280 | a ship of image size without bullets, stamped if it has no hitpoints, is copied exactly |
| `Codec.DeepCopyStable` | Ship.py:259-280 | copying a copy changes at most its bullets |
| `Codec.DecodeEncode` | Ship.py:244-274 | encode after decode gives back position, speed, hitpoints, collision flag, direction, firing time and bullet count, and the death fields of a ship with hitpoints |
| `Sessions.Register` | gameServer.py:55-58 | a handshake records address, ship, time and an empty buffer under the id, keeps the four maps' keys equal, and leaves other clients alone |
| `Sessions.Enqueue` | gameServer.py:59-65 | an update fails iff the id is unknown; otherwise it appends to that buffer only and records the time stamp |
| `Sessions.EnqueueInArrivalOrder` | gameServer.py:64 | two updates are buffered in the order they arrived |
| `Sessions.Drain` | gameServer.py:174 | after the broadcast every buffer is empty and nothing else changed |
| `Sessions.Entries` | gameServer.py:169-175 | a recipient's table holds its own new entry, the restored entry of every earlier recipient, and the visit-time entry of everyone else |
| `Sessions.Outbox` | gameServer.py:169-175 | the broadcast sends exactly one packet per client |
| `Sessions.OutboxPacket` | gameServer.py:169-175 | packet p goes to the address of the p-th client in dictionary order, names it, and carries its ship table and the shared inputs |
| `Arena.Neighbours` | gameServer.py:158-159 | a ship's neighbours are all other ids, without repeats |
| `Arena.NeighboursInOrder` | gameServer.py:158-159 | the neighbours are the ids before the ship's own followed by those after it, in dictionary order |
| `Arena.SweptStrikesAnywhere` | gameClient.py:150-157 | the client counts a hit anywhere along the bullet's sweep |
| `Arena.StrikesAny` | gameServer.py:75-79 | a bullet strikes iff it strikes one of the listed ships |
| `Arena.BulletAfter` | gameServer.py:73-79 | a bullet that strikes no ship has just flown one step; one that strikes any ship has flown and has age 1000, so it is no longer live |
| `Arena.Flown` | gameServer.py:72-79 | every bullet of a gun, in order, flies one step and gets age 1000 exactly when its flight strikes one of the listed ships |
| `Arena.Damage` | gameServer.py:75-78 | one bullet only lowers hitpoints and never below 0 |
| `Arena.DamageStrikesEachOnce` | gameServer.py:75-79 | every ship the bullet strikes loses exactly 1 hp, the firer included; every other ship is unchanged |
| `Arena.Volley` | gameServer.py:73-79 | a gun's volley only lowers hitpoints and never below 0 |
| `Arena.VolleyCounts` | gameServer.py:73-79 | with distinct ids, a volley takes from each listed ship one hitpoint per bullet whose flight strikes it, as one `takeDamage` of that count; unlisted ships are unchanged |
| `Arena.GunTurn` | gameServer.py:72-80 | one gun's turn leaves it with exactly its flown bullets that are still live; other guns are unchanged |
| `Arena.GunTurnCounts` | gameServer.py:72-80 | one gun's turn takes from each listed ship one hitpoint per bullet of that gun whose flight strikes it |
| `Arena.GunTurns` | gameServer.py:72-80 | after the turns every listed gun holds only live bullets; only hitpoints and guns change |
| `Arena.GunTurnsCounts` | gameServer.py:72-80 | with distinct ids, the turns take from each listed ship one hitpoint per (gun, bullet) pair whose flight strikes it, counted on the guns as they were before the loop |
| `Arena.GunTurnsKeepFlownLive` | gameServer.py:72-80 | each gun ends with exactly its flown live bullets, in their original order |
| `Arena.Reload` | gameServer.py:72-80 | one gun gets its new bullet list; every other ship and every other field stay as they were |
| `Arena.BulletsPass` | gameServer.py:68-80 | after the pass every bullet is live, hitpoints never rise and stay in range, and only hitpoints and guns change |
| `Arena.BulletsPassCounts` | gameServer.py:68-80 | each ship in dictionary order loses one hitpoint per (gun, bullet) pair, over all guns, whose flight strikes the rect it had when the pass began, as one `takeDamage` of that count |
| `Arena.BarrierTurn` | gameServer.py:85-88 | one barrier changes only hitpoints and directions |
| `Arena.BarriersPass` | gameServer.py:83-88 | the pass changes only hitpoints and directions |
| `Arena.KnockAdds` | gameServer.py:87-88 | n knocks cost 2n hp (floored) and turn by 180 n degrees |
| `Arena.BarrierTurnEach` | gameServer.py:85-88 | a ship overlapping the barrier is knocked once; every other ship is unchanged |
| `Arena.BarriersPassCounts` | gameServer.py:83-88 | each ship is knocked once per barrier it overlaps; a ship overlapping none is unchanged |
| `Arena.BarriersPassKeepsSane` | gameServer.py:83-88 | the pass keeps ranges and never moves a ship or changes its speed, gun or death |
| `Arena.Respawns` | gameServer.py:91-93 | every ship gets its `spawn` with its own drawn corner |
| `Arena.RespawnsKeepSane` | gameServer.py:91-93 | the respawns keep every ship within range |
| `GameServer.DatagramReceived` | gameServer.py:38-65 | a handshake replies with exactly the new 10-hp ship and empty inputs, then registers it; an update fails iff the id is unknown, and otherwise sends nothing, appends to that buffer, records its time stamp, and leaves the ships, the addresses and the other buffers alone |
| `GameServer.HandshakeShipFresh` | gameServer.py:41-58 | a new ship is inside the 720 x 480 window, alive, at full health, still and without bullets |
| `GameServer.ClearColliding` | gameServer.py:147-148 | every ship stops colliding and nothing else changes |
| `GameServer.ApplyInputs` | gameServer.py:155-160 | a dead ship or an empty buffer changes nothing |
| `GameServer.ApplyInputsOne` | gameServer.py:155-160 | a buffer of one input is one `handleMovementInput` call with that input's keys and delta |
| `GameServer.ApplyInputsAppend` | gameServer.py:155-160 | replaying two buffers in turn equals replaying their concatenation, so arrival order is replay order |
| `GameServer.ApplyInputsKeepsSane` | gameServer.py:155-160 | non-negative frame times keep the copy and the neighbours within range |
| `GameServer.ApplyInputsDead` | Ship.py:220-221 | any buffer leaves a dead ship and its neighbours alone |
| `GameServer.ReplayKeys` | gameServer.py:149-161 | the replay keeps the authoritative ids and gives every visited client a copy and a visit-time record |
| `GameServer.ReplayFrom` | gameServer.py:149-161 | the loop over the clients keeps the set of authoritative ids |
| `GameServer.Visit` | gameServer.py:152-160 | one round records the visited ship as it stands, adds its new ship and leaves every other client's entries unchanged |
| `GameServer.VisitReplays` | gameServer.py:154-160 | the round's new ship is the copy of the visited ship with its buffer replayed in order against the other authoritative ships, and the authoritative ships end as that replay's collisions left them |
| `GameServer.ReplayLeavesOthers` | gameServer.py:149-161 | clients the loop does not visit keep their entries |
| `GameServer.ReplayVisits` | gameServer.py:149-161 | for each client visited once, its record is its authoritative ship as the earlier rounds left it, and its new ship is that ship copied with its buffer replayed against the authoritative ships as those rounds left them |
| `GameServer.ReplayIdle` | gameServer.py:149-161 | with empty buffers the replay records every ship unchanged and copies it, touching nothing else |
| `GameServer.ReplayKeepsSane` | gameServer.py:149-161 | the replay keeps the authoritative ships and the copies within range |
| `GameServer.Tick` | gameServer.py:141-177 | a tick keeps the clients and the key sets, empties every buffer, sends one packet per client, and leaves only live bullets |
| `GameServer.TickReplay` | gameServer.py:147-161 | the replay covers every client: each has an authoritative ship, a new ship and a recorded entry |
| `GameServer.TickReplayVisits` | gameServer.py:147-161 | in a tick, with flags cleared first, client i in dictionary order is recorded as the replays of clients 0..i-1 left its ship, and its new ship is the copy of that ship with its whole buffer replayed against the other authoritative ships as those replays left them |
| `GameServer.TickPasses` | gameServer.py:166-168 | after bullets, barriers and respawns every bullet is live |
| `GameServer.TickPassesKeepSane` | gameServer.py:166-168 | the passes keep ships within range |
| `GameServer.Conclude` | gameServer.py:169-177 | the broadcast and swap make the new ships authoritative, empty the buffers, and change nothing else |
| `GameServer.TickPhases` | gameServer.py:141-177 | a tick is the replay, then the bullet, barrier and respawn passes on the new ships, then the broadcast and swap |
| `GameServer.ConcludeBroadcast` | gameServer.py:169-175 | recipient k gets its id, the pre-drain buffers, its own new ship, the post-replay ship of each earlier recipient and the visit-time ship of every other client |
| `GameServer.TickReplayKeepsSane` | gameServer.py:147-161 | the copies stay within range |
| `GameServer.TickKeepsSane` | gameServer.py:146-177 | a tick keeps hitpoints in [0, 10] and speeds in [0, 15] |
| `GameServer.IdleReplay` | gameServer.py:147-161 | with empty buffers the replay changes only the collision flags and copies every ship |
| `GameServer.IdleTickShowsPreviousState` | gameServer.py:169-175 | with empty buffers every recipient sees the other ships as they were before the tick, flags cleared |
| `Trust.Trim` | gameClient.py:313-314 | trimming keeps a suffix; records of at most 30 entries are unchanged, longer ones shrink to exactly 30 |
| `Trust.TrimIdempotent` | gameClient.py:313-314 | trimming twice is trimming once |
| `Trust.TrimKeepsRecent` | gameClient.py:313-314 | the 30 most recent positions survive a trim |
| `Trust.Upkeep` | gameClient.py:305-316 | the game client records one position per frame, trims on a send frame, and forgets everything when its ship is dead |
| `Trust.EchoUpkeep` | echoClient.py:217-225 | the echo client records a position only on a send frame, and then trims |
| `Trust.UpkeepTrustsLatest` | gameClient.py:305-316 | after upkeep the latest position is trusted, unless the ship died (or, for the echo client, nothing was sent) |
| `Trust.UpkeepBounded` | gameClient.py:305-316 | a record of at most 30 stays at most 30 on a send frame and grows by exactly one otherwise |
| `GameClient.Receive` | gameClient.py:75-83 | a packet replaces the view with its decoded ship table and its inputs |
| `GameClient.GetValidatedShip` | gameClient.py:93-105 | the result has the server's hitpoints; it is the server's ship unless the server's position is in a non-empty trust record, and then it is the local ship |
| `GameClient.ValidatedShipSources` | gameClient.py:93-102 | the result's position and velocity are either the server's or the local ship's, chosen by the trust record |
| `GameClient.HandleShipMovements` | gameClient.py:130-139 | the local movement pass keeps the ship and queue key sets |
| `GameClient.Movements` | gameClient.py:133-139 | queues of ships not yet visited are untouched |
| `GameClient.MovementsPopOnce` | gameClient.py:133-139 | each non-empty queue loses exactly its front input; empty queues are untouched |
| `GameClient.MovementsIdle` | gameClient.py:133-139 | with all queues empty nothing moves |
| `GameClient.MoveOne` | gameClient.py:134-139 | one visit: a ship with a queued input loses the front input and becomes `handleMovementInput` of that input's keys for the frame time, with the other ships as the collision leaves them; a ship with an empty queue is skipped and nothing changes |
| `GameClient.MovementsAppend` | gameClient.py:133-139 | the loop over `a + b` is the loop over `b` from where the loop over `a` stopped |
| `GameClient.MovementsVisitAt` | gameClient.py:133-139 | when the loop reaches the `i`-th id, that ship's queue is still the one the pass started with, and the loop moves on by exactly one `MoveOne` of that ship |
| `GameClient.MovementsVisits` | gameClient.py:133-139 | every id of a repeat-free order is visited once, in turn, as `MovementsVisitAt` states |
| `GameClient.HandleShipMovementsVisits` | gameClient.py:130-139 | the movement pass starts from every ship with its colliding flag cleared, visits each ship once in dictionary order, and ends where the last visit leaves it |
| `GameClient.HandleShipMovementsIdle` | gameClient.py:130-135 | with every queue empty the pass only clears the colliding flags |
| `GameClient.CreateMessage` | gameClient.py:121-127 | the update carries exactly the given inputs, id and time stamp |
| `GameClient.Simulate` | gameClient.py:287-289 | the local simulation keeps every ship and queue key |
| `GameClient.SimulatePhases` | gameClient.py:287-289 | a frame runs the movement pass, then the swept bullet pass on the moved ships, then the barrier pass, and only the movement pass touches the queues |
| `GameClient.RunFrame` | gameClient.py:271-316 | a frame's view is the step from the reconciled own ship (`getValidatedShip`) with this frame's input for the frame time; the frame buffers that input and sends the whole buffer iff 0.05 s passed since the last send, and then empties it; the trust record gets the upkeep of the resulting own ship |
| `GameClient.Step` | gameClient.py:276-289 | the simulated view keeps the order and the ship keys |
| `GameClient.StepSimulates` | gameClient.py:276-289 | a step simulates the view's ships with the reconciled own ship and `[input]` as the own queue, for the frame time |
| `GameClient.StepConsumesQueues` | gameClient.py:285-287 | a step empties the own queue, whose only input is this frame's, and every other ship's queue loses exactly its first input; queues of ids without a ship stay |
| `GameClient.StepReplacesOwn` | gameClient.py:273-285 | the server's own ship and own queue in the view play no part: the reconciled ship and `[input]` replace them before any ship moves |
| `GameClient.EchoedPositionKeepsPrediction` | gameClient.py:305-316 | when the server next reports the position the client just predicted for its living ship, the client keeps its prediction with the server's hitpoints |
| `GameClient.MessageBuffered` | gameClient.py:121-127 | the server accepts the client's update iff it knows the id, and appends exactly the sent inputs to that buffer |
| `Echo.Serialize` | echoServer.py:32-39 | the prototype ship's record holds its corner, height, width and velocity |
| `Echo.Steer` | echoServer.py:20-29 | W beats S and A beats D; a lone key gives a component of magnitude 100 dt with its sign; no key gives 0 |
| `Echo.SteerMirror` | echoClient.py:84-93 | mirrored keys give the opposite velocity when no opposing pair is held |
| `Echo.EchoMove` | echoServer.py:16-30 | the velocity is set afresh from the keys and the rect keeps its size |
| `Echo.EchoMoveRounds` | echoServer.py:16-18 | the rect moves by the new velocity to within half a pixel on each axis |
| `Echo.EchoMoveStateless` | echoServer.py:20-21 | the previous velocity plays no part |
| `Echo.EchoMoveIdle` | echoServer.py:16-30 | without movement keys the ship stays where it is and stops |
| `Echo.EchoMoveMirror` | echoClient.py:84-94 | mirrored keys move the ship by the opposite number of pixels |
| `Echo.EchoReplay` | echoServer.py:143-146 | replaying a buffer keeps the size; an empty buffer changes nothing |
| `Echo.EchoReplayShift` | echoServer.py:142-146 | a replay moves the ship by the sum of its inputs' shifts and ends with the last input's velocity |
| `Echo.EchoReplayAppend` | echoServer.py:143-146 | replaying two buffers in turn equals replaying their concatenation |
| `EchoServer.Decode` | echoServer.py:41-47 | the decoder restores the corner only: a 32 x 32 ship with velocity 0 |
| `EchoServer.DecodeEncode` | echoServer.py:32-47 | decoding a serialised server ship loses only its velocity |
| `EchoServer.DeepCopy` | echoServer.py:49-54 | the copy keeps the corner and the velocity on a 32 x 32 ship |
| `EchoServer.DeepCopyIdentity` | echoServer.py:49-54 | a server ship is copied exactly, unlike a decoded one |
| `EchoServer.DatagramReceived` | echoServer.py:67-98 | a handshake replies with exactly the new origin ship and registers it with an empty buffer; an update fails iff the id is unknown, and otherwise appends to that buffer only |
| `EchoServer.Successors` | echoServer.py:142-147 | each new ship is the copy with its own buffer replayed |
| `EchoServer.Tick` | echoServer.py:131-157 | a tick replaces every ship with its replayed copy, empties every buffer, keeps clients and time stamps, and sends one packet per client |
| `EchoServer.TickBroadcast` | echoServer.py:148-155 | recipient k gets its id, the pre-drain buffers, its own new ship and every other ship as it was before the tick |
| `EchoServer.IdleTick` | echoServer.py:142-157 | with empty buffers a tick moves no ship |
| `EchoServer.TickShift` | echoServer.py:142-147 | a tick moves each ship by the sum of the shifts of its buffered inputs |
| `EchoClient.GetDirection` | echoClient.py:62-82 | the heading is one of the eight compass angles, and 0 for a still ship |
| `EchoClient.DirectionOpposite` | echoClient.py:62-82 | reversing a non-zero velocity turns the heading by 180 degrees |
| `EchoClient.DirectionMirror` | echoClient.py:62-82 | reflecting the velocity left to right reflects the heading |
| `EchoClient.DirectionOfKeys` | echoClient.py:178-193 | for a positive frame time the keys give up 0, left 90, down 180 and right 270, with diagonals half way between |
| `EchoClient.ClientDecode` | echoClient.py:52-60 | the client's decoder restores the corner and the velocity |
| `EchoClient.ClientDecodeEncode` | echoClient.py:43-60 | decoding a serialised ship gives it back, velocity included |
| `EchoClient.FlyEcho` | echoClient.py:21-25 | a prototype bullet moves one step along its heading; heading and age stay |
| `EchoClient.NewEchoBullet` | echoClient.py:9-19 | a new bullet is a 10 x 10 rect at the corner with age 0, pointing the same way with 0 stored as 360 |
| `EchoClient.FireAndFly` | echoClient.py:187-206 | space adds exactly one bullet, the constructor's, at the given corner and heading; then every bullet, old and new, flies one step |
| `EchoClient.Reconcile` | echoClient.py:161-170 | the local ship is kept iff the server's corner is in a non-empty record; otherwise the server's ship is decoded |
| `EchoClient.RunEchoFrame` | echoClient.py:161-225 | a frame reconciles the own ship with the server's and moves it by the keys; the update goes out iff at least 0.05 s passed since the last send, and only then is the moved position recorded |
| `EchoClient.EchoFrameBullets` | echoClient.py:187-207 | within a frame, space fires exactly one bullet from the corner the ship had before moving, along the heading of its new velocity; every bullet, old and new, then flies one step |
| `EchoClient.EchoFrameSend` | echoClient.py:210-225 | the frame's input joins the buffer; a send carries the whole buffer under the client's id and the frame's clock and empties it, otherwise the buffer and the last send time are kept |
| `EchoClient.Dispatch` | echoClient.py:210-225 | the end of a frame keeps the moved ship and the flown bullets; the input joins the buffer, which goes out whole and is emptied iff 0.05 s passed since the last send, and the position is recorded only on a send |
| `EchoClient.EchoedPositionKeepsPrediction` | echoClient.py:217-225 | after a send, a server reporting the predicted position leaves the prediction in place |
| `EchoClient.ServerReplaysClientStep` | echoClient.py:178-191 | the server's replay of one sent input is exactly the client's own movement step |

## Left out

- Rendering and assets: images, `setImage`, `HPBar`, blitting, rotation and the display. These are side effects with nothing to verify. Ship and bullet sizes are parameters (`Physics.shipSize`, `Physics.bulletSize`, the echo client's `size`).
- Trigonometry and float displacement (`Ship.update`'s step, `Bullet.update`, the muzzle point of `handleMovementInput`, `Bullet.interpolate`, pygame's truncation of float moves). They are the `Physics` fields and the echo client's `fly`, and nothing is assumed about them.
- `pygame.Rect.colliderect` is a foreign function. `Geometry.Overlaps` states the overlap test assumed of it.
- `getDeltaTime` and the echo client's rounding of the frame time to 4 decimals (gameClient.py:108-111, echoClient.py:172). The model uses the unrounded difference of the two clock readings.
- The clock: each operation reads it once (`now`). In the source a tick or a frame calls `time.time()` several times.
- Randomness: `random.randint` draws are parameters, constrained to their ranges.
- The JSON text layer and transports. Messages are records. Integer ids stand for the string keys that JSON produces.
- The echo server's handshake reply carries `'inputs': []` (a list). The model uses an empty map, as in the game server's reply.
- The handshake branch of the clients' `datagram_received`, which stores the client id. The model takes the id as part of the client state.
- The echo client's remote-ship loop (echoClient.py:196-205). It decodes and moves a throw-away copy of each other ship for drawing. Its only lasting effect is popping the echoed input queues, which nothing else reads.
- A missing entry in the client's ship table or input queues raises `KeyError` in the source. The frame functions take the entries' presence as a precondition.
- The lookup and resource protocols, lookupServer.py, resourceServer/, the console selection loops and process start-up.
- Cooperative scheduling: a tick and a datagram handler never interleave, so each is one function.
- GameServer.Tick: its own contract is structural. The replay's content is stated by `GameServer.TickReplayVisits`, and the packet contents follow from `GameServer.TickPhases` with `GameServer.ConcludeBroadcast`. Keeping them out of one contract keeps the proof small.
- GameClient.Simulate: its own contract gives the key sets only. The three passes and their order are `GameClient.SimulatePhases`. The ships' moves and the colliding clear are stated by `GameClient.HandleShipMovementsVisits` and `GameClient.HandleShipMovementsIdle`. The bullet damage is stated by `Arena.BulletsPassCounts` and the bullets left by `Arena.GunTurnsKeepFlownLive`. The barrier pass is stated by `Arena.BarriersPassCounts` and the popped queues by `GameClient.MovementsPopOnce`.
- GameClient.Step: its own contract gives the order and the key sets. Its ships are `GameClient.Simulate`'s, by `GameClient.StepSimulates`. The queues are stated by `GameClient.StepConsumesQueues` and the replacement of the own ship by `GameClient.StepReplacesOwn`.
- Entities.HandleMovementInput: its own contract gives the dead case and the gun. How the ship moves is stated by `Entities.SteerMoves` and `Entities.UpdateMoves`.
- GameServer.ApplyInputs: its own contract gives the dead and empty cases. One input is `GameServer.ApplyInputsOne`, and longer buffers follow from `GameServer.ApplyInputsAppend`.
- Arena.Volley, Arena.GunTurn and Arena.GunTurns: their own contracts bound the hitpoints. The exact damage counts are `Arena.VolleyCounts`, `Arena.GunTurnCounts` and `Arena.GunTurnsCounts`.
- Seqs.RemoveFirst and Arena.Neighbours: their own contracts state which ids remain. The order kept is stated by the lemmas `Seqs.RemoveFirstInOrder` and `Arena.NeighboursInOrder`, which keeps an existential out of every use of the functions.
- GameClient.HandleShipMovements and GameClient.Movements: their own contracts give the key sets and the unvisited queues. The colliding clear and each ship's visit are stated by `GameClient.HandleShipMovementsVisits`, `GameClient.MovementsVisitAt` and `GameClient.MoveOne`. With empty queues the pass is `GameClient.HandleShipMovementsIdle`. Popping one input per ship is `GameClient.MovementsPopOnce`.
- Helpers with no row: `Arena.Knock`, `Arena.Hits`, `Arena.PassHits`, `GameClient.MoveTime`, `GameClient.VisitsInTurn` and `GameClient.VisitedInTurn` name a quantity or a loop state that the lemmas above state facts about, and carry no contract beyond key sets and the loop's two ends.
- EchoClient.RunEchoFrame: its own contract gives the ship, the send decision and the recorded position. The bullets and the buffer are stated in `EchoClient.EchoFrameBullets` and `EchoClient.EchoFrameSend`.
