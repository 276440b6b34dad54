# Mystic Realms game server and client: a Dafny model of the core logic

This project models the bookkeeping core of a regional multiplayer game
server and the state logic of its client, and proves what that code
promises.

Server (`enhanced_server.py`):

- **Bot spawn placement** (`Spawn`). A server instance's region index picks a corner
  of the world rectangle. Spawn points are then picked by bounded rejection
  sampling: `randint` draws a candidate inside the region rectangle (both ends
  inclusive). The candidate is rejected when an accepted point is closer
  than 100 on *both* axes. Sampling stops after `count` acceptances or
  `10 * count` draws. The random draws are an input sequence. `randint` over an
  empty range raises, and the model returns that as an error result.
- **Spawn bookkeeping** (`Server.GameServer`). The i-th placed point becomes bot `i`.
  Each bot gets three entries under id `i`:
  - a player record (`x`, `y`, `type`, `angle` 0, `health` 100),
  - an empty delta,
  - a registry entry.

  The registry's iteration order is kept as a sequence, since Python dictionaries iterate in
  insertion order.
- **Per-tick passes** (`World`, and `Server.GameServer.ProcessBotMovement` /
  `ProcessBotCombat`).
  - Each moving bot copies its position into its player record and its delta.
  - Each engaged bot queues a `weapon_fire` quadruple into its delta.
  - A missing record raises `KeyError`, which ends the pass. Writes made before it stay.
- **Collision tiles** (`Collision`).
  - The objects of every `collision_boundaries` layer are shifted by (-500, -330) into one set of tiles.
  - Each tile's centre is computed with exact reals.
  - A dictionary maps each centre back to a tile.
- **Load-balancer link** (`LoadBalancer`, and
  `Server.GameServer.EstablishLoadBalancerConnection` /
  `HandleLoadBalancerProtocol`).
  - Discovery passes run while the link flag is down. Each pass is one observed event:
    - a timeout,
    - a rejected handshake,
    - a missing confirmation,
    - a received confirmation,
    - any other error, which recreates the LB socket.
  - After discovery, the handler spawns 25 bots and runs steady-state rounds. A failed round demotes the link.

Client (`game_engine_client.py`), module `Client`:

- the thread-safe key/value game-state store;
- the weapon table and the ammunition spent on firing;
- the explosive-effects pass, which clears the flag and is meant to delete incoming entries that carry `explosive_effect` (as written it cannot; see Findings);
- the projectile range-stepping loop, with the collision test as an oracle;
- the explosion centre.

Where the code works by updating state, the model is imperative:
- classes hold the fields the source mutates;
- methods carry `modifies` clauses;
- loops carry invariants.

Most such methods are proved equal to a specification function, and the
properties are proved about that function as lemmas; the others state
their effect directly in their `ensures`.

The model follows the code as written. Three points are worth knowing:

- The link is the single flag `isConnectedToLoadBalancer`. It is not a
  four-state machine (disconnected, handshaking, ack sent, confirmed). The
  intermediate states exist only inside one pass of the discovery loop, and
  are modelled as that pass's event.
- Bot ids are the positions `0 .. k-1` in the spawn list. The code does
  nothing to keep them apart from player ids. A bot can overwrite an existing
  player record with the same id, and the model says so: other ids keep their
  records, and ids `0 .. k-1` are overwritten.
- Spawning that exhausts its attempt budget returns the partial result. The
  code logs the requested count either way.

## Model

| member | source | states |
|---|---|---|
| Common.ListOf | enhanced_server.py:347 | `list(s)` of a set holds every element exactly once (also used for the tile set at enhanced_server.py:209) |
| Spawn.RegionOrigin | enhanced_server.py:294-299 | the spawn corner for a region index is always one of the four corners (0,0), (W,0), (W,H), (0,H), whatever the index |
| Spawn.RegionsCoverWorld | enhanced_server.py:294-299 | every point of the world [0,2W]x[0,2H] lies in the spawn rectangle of one of regions 1-4 |
| Spawn.RegionsMeetOnEdges | enhanced_server.py:294-299 | two different regions' spawn rectangles overlap only on the lines x = W or y = H |
| Spawn.RandInt | enhanced_server.py:338-339 | `randint(lo, hi)` fails exactly when the range is empty, and otherwise lies in [lo, hi] with both ends inclusive |
| Spawn.RandIntCoversRange | enhanced_server.py:338-339 | every value of the inclusive range is reachable by some draw |
| Spawn.Candidate | enhanced_server.py:338-339 | a candidate exists exactly when both boundary extents are non-negative, and it lies inside the region rectangle |
| Spawn.Search | enhanced_server.py:333-345 | the sampler as a function of its state: while fewer than `count` points and fewer than `10*count` draws, draw a candidate and keep it when no placed point is within 100 on both axes |
| Spawn.SearchFailsIff | enhanced_server.py:337-339 | sampling fails exactly when it draws at least once (fewer than `count` points and attempts left) from a negative extent |
| Spawn.SearchProperties | enhanced_server.py:333-345 | a successful search keeps the points already placed and returns at most `count` points after at most `10*count` draws; all points are inside the rectangle and no two are within 100 on both axes |
| Spawn.SearchExit | enhanced_server.py:337 | a search that returns fewer than `count` points has spent all `10*count` draws |
| Spawn.SearchDraws | enhanced_server.py:338-343 | every drawn candidate is placed or within 100 on both axes of a placed point (so a clear candidate is never rejected), and every newly placed point is one of the drawn candidates |
| Spawn.PointRegionPlacesOne | enhanced_server.py:337-345 | in a one-point region, once that point is placed every later draw is rejected, until the budget of `10*count` draws is spent |
| Spawn.PointRegionSpawn | enhanced_server.py:333-347 | requesting two or more bots in a one-point region yields exactly one point and uses all `10*count` attempts |
| Spawn.Sample | enhanced_server.py:333-345 | the `while` loop over the accepted set and attempt counter computes exactly the search specification |
| Spawn.GenerateSpawnPositions | enhanced_server.py:331-347 | it fails iff `count > 0` and an extent is negative; otherwise it returns at most `count` distinct positions inside the rectangle, pairwise not close on both axes; fewer than `count` only after all `10*count` draws; each drawn candidate is returned or close to a returned point, and each returned point was drawn |
| World.BotRecord | enhanced_server.py:317-320 | the spawn record has exactly the keys x, y, type, angle, health, with angle 0, health 100 and type = aggression |
| World.WithPosition | enhanced_server.py:377-380 | setting x and y changes only those two fields of a record |
| World.MoveBot | enhanced_server.py:374-380 | one bot's step of the movement pass: a moving bot writes x, y into its player record, then into its delta; a missing record raises KeyError after the writes before it |
| World.Movement | enhanced_server.py:368-380 | a movement pass, completed or not, adds or removes no entry of either table |
| World.MovementSucceedsIff | enhanced_server.py:371-380 | the movement pass completes iff every moving registered bot has both a player record and a delta |
| World.MovementCopiesPositions | enhanced_server.py:373-380 | after a completed pass, each moving bot's player record and delta hold its current x and y with their other fields unchanged; every other record is unchanged |
| World.MovementFailsAtFirstMissing | enhanced_server.py:373-380 | a pass that does not complete has a first moving bot lacking a player record or a delta, all moving bots before it having both |
| World.MovementTornAt | enhanced_server.py:373-380 | a pass stopping at that bot keeps the earlier moving bots' position writes, writes the stopping bot's player record when it has one, and leaves every other record unchanged |
| World.FireBot | enhanced_server.py:390-397 | one bot's step of the combat pass: an engaged bot sets `weapon_fire` in its delta; a missing delta raises KeyError |
| World.Combat | enhanced_server.py:386-397 | a combat pass never touches the player table and adds or removes no delta |
| World.CombatQueuesFire | enhanced_server.py:390-397 | the combat pass completes iff every engaged bot has a delta; then each engaged bot's delta carries [currentX, currentY, targetX, targetY] as `weapon_fire` and every other delta is unchanged |
| World.CombatFailsAtFirstMissing | enhanced_server.py:390-397 | a combat pass that does not complete has a first engaged bot without a delta, all engaged bots before it having one |
| World.CombatTornAt | enhanced_server.py:390-397 | a combat pass stopping at that bot keeps the fire queued by the earlier engaged bots and leaves every other delta unchanged |
| LoadBalancer.Step | enhanced_server.py:440-461 | one discovery pass: a received confirmation sets the flag, another error recreates the LB socket, a timeout or a refused handshake changes nothing |
| LoadBalancer.Discover | enhanced_server.py:439-461 | discovery never uses more passes than there are events |
| LoadBalancer.DiscoverConnectsOnConfirmation | enhanced_server.py:439-455 | from a disconnected link, discovery connects iff some pass receives the confirmation; it stops right after the first such pass, and otherwise uses every event |
| LoadBalancer.DiscoverRecreatesSocketPerError | enhanced_server.py:457-461 | the LB socket is recreated once for each pass that raises an error other than a timeout, and at no other time |
| LoadBalancer.DiscoverWhenConnected | enhanced_server.py:439 | a link that is already up runs no discovery pass |
| LoadBalancer.SteadyLoop | enhanced_server.py:473-484 | the steady-state loop runs no more rounds than it is given |
| LoadBalancer.SteadyLoopDemotesOnError | enhanced_server.py:473-484 | the link stays up iff it was up and no round failed; the first failed round is the last one run, and every round before it completed |
| Collision.ToTile | enhanced_server.py:198 | a map object becomes the tuple (x - 500, width, y - 330, height) |
| Collision.LayerTiles | enhanced_server.py:195-200 | an object group named `collision_boundaries` yields the set of its objects' tiles; any other layer yields none |
| Collision.CollidableTiles | enhanced_server.py:192-203 | the union of the layers' tile sets |
| Collision.CollidableTilesMembers | enhanced_server.py:191-203 | a tile is collidable iff some object of some layer named `collision_boundaries` maps to it; objects of other layers never count |
| Collision.ExtractCollidableTiles | enhanced_server.py:191-203 | the layer loop computes the collidable set, and every collision object's shifted tile is in it |
| Collision.Centre | enhanced_server.py:210 | a tile's centre is (x + width/2, y - height/2) |
| Collision.CentreMap | enhanced_server.py:218-221 | the dictionary from pairing each listed tile with its centre, later pairs overwriting earlier ones |
| Collision.CentreMapKeys | enhanced_server.py:218-221 | the dictionary's keys are the centres of the listed tiles |
| Collision.CentreMapValues | enhanced_server.py:218-221 | each centre maps to a listed tile with that centre |
| Collision.CentreMapLast | enhanced_server.py:218-221 | a centre maps to the last listed tile with that centre |
| Collision.CentreMapOfListing | enhanced_server.py:209-221 | for a listing of the tile set, the keys are exactly the set's centres and the values are tiles of the set |
| Collision.BuildTileMapping | enhanced_server.py:206-223 | the tile set is listed once in some order; the centre list holds the centre of each listed tile at its position (every tile's centre is listed), and the dictionary is the pairing of that list with the same order |
| Collision.SharedCentre | enhanced_server.py:218-221 | two distinct tiles can have the same centre |
| Collision.CentresCardinality | enhanced_server.py:208-221 | there are never more centres than tiles, and strictly fewer when two tiles share a centre |
| Server.NewBot | enhanced_server.py:308-314 | a new registry entry stands at its spawn point, targets (0, 0) and carries its aggression coin |
| Server.NewIdsMembers | enhanced_server.py:315-323 | the ids that spawning appends to the registry's iteration order are exactly the ids in 0..k-1 not yet registered |
| Server.NewIdsAscending | enhanced_server.py:315-323 | those ids are appended in increasing order |
| Server.SpawnedPlayerRecords | enhanced_server.py:315-320 | after spawning k bots, ids 0..k-1 hold the spawn records of the placed points and every other player record is unchanged |
| Server.SpawnedDeltas | enhanced_server.py:321 | after spawning k bots, ids 0..k-1 hold an empty delta and every other delta is unchanged |
| Server.SpawnedRegistry | enhanced_server.py:306-322 | after spawning k bots, id i is registered as an idle bot at point i with its aggression coin; other entries are unchanged |
| Server.GameServer.constructor | enhanced_server.py:89-110 | region 0, boundary (0, 0), empty tables and registry, link down |
| Server.GameServer.RegisterBot | enhanced_server.py:316-322 | one locked section writes the player record, the empty delta and the registry entry for one id; nothing else changes |
| Server.GameServer.RegisterBots | enhanced_server.py:315-323 | the spawn loop writes ids 0..k-1 in order and appends the new ids to the iteration order, keeping it duplicate-free |
| Server.GameServer.SpawnBotsInRegion | enhanced_server.py:290-329 | spawning from the region's corner fails only on a negative boundary and then leaves the tables alone; otherwise the placed points are exactly the sampler's result (at most `numberOfBots`, well separated, in the region) and ids 0..k-1 get their three table entries |
| Server.GameServer.ProcessBotMovement | enhanced_server.py:368-380 | the movement loop over a registry snapshot computes exactly the movement pass, including its early stop |
| Server.GameServer.ProcessBotCombat | enhanced_server.py:386-397 | the combat loop over a registry snapshot computes exactly the combat pass |
| Server.GameServer.EstablishLoadBalancerConnection | enhanced_server.py:432-461 | the discovery loop computes exactly the discovery run; the tables are untouched |
| Server.GameServer.HandleLoadBalancerProtocol | enhanced_server.py:463-484 | it takes the assigned region and spawns 25 bots there; on a spawn error the tables and the link are as before; otherwise the tables, registry and placed points are those of the spawn, and the steady-state loop decides the link without touching them |
| Client.InitialState | game_engine_client.py:89-97 | the store starts with its six keys, the explosive flag false and no incoming data |
| Client.GameStateManager.constructor | game_engine_client.py:89-98 | a new manager holds the initial store |
| Client.Lookup | game_engine_client.py:111-114 | `get` returns the stored value for a present key and None for an absent one |
| Client.LookupAfterStore | game_engine_client.py:106-114 | a stored value reads back, and no other key changes |
| Client.UpdatesKeepKeys | game_engine_client.py:106-109 | updates never remove a key, and a key no update names keeps its value |
| Client.GameStateManager.UpdateGameState | game_engine_client.py:106-109 | the key holds the new value; every other key reads as before |
| Client.GameStateManager.GetGameState | game_engine_client.py:111-114 | returns the stored value, or None (not an error) for an absent key |
| Client.Truthy | game_engine_client.py:364 | Python truthiness of the stored flag value |
| Client.ExplosivePass | game_engine_client.py:363-372 | one locked pass with incoming explosions rendered normally: clear a truthy flag, then drop the incoming entries that carry `explosive_effect`; KeyError and AttributeError end the pass |
| Client.ExplosivePassClears | game_engine_client.py:363-372 | after a pass the flag is false if it was set, no incoming entry carries an explosive effect, entries without one are kept unchanged, and no other key changes |
| Client.ExplosivePassIdempotent | game_engine_client.py:363-372 | a second pass right after a completed one detonates nothing and changes nothing |
| Client.ExplosivePassAsWritten | game_engine_client.py:363-372 | the pass as the file has it: the call to the undefined `_renderIncomingExplosive` raises before any `del` |
| Client.ExplosiveEntryBlocksPass | game_engine_client.py:369-372 | as written, a store with an incoming explosive entry fails every pass and keeps the entry, while the intended pass removes it |
| Client.ExplosiveEntryExample | game_engine_client.py:369-372 | a store whose one incoming entry carries `explosive_effect`: as written it stays, as intended it is removed |
| Client.ItemList | game_engine_client.py:369 | `list(d.items())` lists every entry of the dictionary once |
| Client.GameStateManager.ProcessExplosiveEffects | game_engine_client.py:362-372 | one pass under the lock computes exactly the intended explosive pass, including the KeyError path |
| Client.GameStateManager.DeleteExplosiveEntries | game_engine_client.py:369-372 | the deletion loop leaves exactly the incoming entries without an explosive effect |
| Client.InitialWeapons | game_engine_client.py:213-219 | three weapons with ids 1, 2, 3, each fully loaded, with positive speed and a range above the starting range |
| Client.PyIndex | game_engine_client.py:406 | list indexing accepts exactly -n..n-1, and negative indices count from the end |
| Client.Fire | game_engine_client.py:406-425 | the ammunition part of firing: the selected weapon by Python indexing; no change without ammunition; otherwise one round off |
| Client.FireSpendsOneRound | game_engine_client.py:404-425 | firing fails only on a bad index; with no ammunition nothing changes; otherwise only the selected weapon loses exactly one round, so ammunition stays within [0, max] |
| Client.AmmoAfterPulls | game_engine_client.py:404-425 | after n trigger pulls, a weapon with a rounds has max(a - n, 0) left |
| Client.GameClient.constructor | game_engine_client.py:152 | the client starts with the initial weapon table, weapon 0 selected, and ammunition in range |
| Client.GameClient.ExecuteCombat | game_engine_client.py:404-425 | it computes the firing specification and launches the selected weapon exactly when a round was spent |
| Client.ProcessProjectile | game_engine_client.py:447-466 | the range is 1 + steps*velocity; the hit flag is set exactly when a step was taken and the final range hits; the loop stops at the first hit or once the range reaches the weapon's range, and never steps beyond that |
| Client.ExplosionCentre | game_engine_client.py:379-383 | the explosion is drawn at (500, 325), the centre of the 1000x650 screen, wherever the player is |

## Left out

- Sockets, UDP broadcast, receive timeouts and TCP connects. They are I/O; only their outcomes enter the model, as discovery events and steady-state rounds.
- The three handshake helpers (`_processLoadBalancerHandshake`, `_sendLoadBalancerAcknowledgment`, `_receiveConnectionConfirmation`) and the LB handler modules. They are not part of this model; their results are the events.
- LoadBalancer.Step: the three handshake helpers called at enhanced_server.py:444-446 are not defined in the server file, and `EnhancedGameServer` has no base class. As written, every received packet raises AttributeError at line 444, which the handler at 459 catches, so the LB socket is recreated and the link never comes up. The model takes the helpers' intended results as the events; the as-written behaviour is the event sequence with a `ConnectionError` for every packet.
- Server.GameServer.constructor: `__init__` calls `_initializeSpatialSystems` (line 117), which uses `self.logger` (lines 173 and 188) before `_configureAdvancedLogging` assigns it (lines 123 and 274). As written, construction raises AttributeError. The model covers only the field assignments at lines 89-110.
- Threads, `RLock`s and `thread_safe_operation`. Each locked section is one atomic step. The bot loop, the discovery loop and the explosive loop run on their own threads in the source; here each pass is a separate call.
- The endless `while` loops (bot AI ticks, the explosive-effects thread, the steady-state LB loop) are modelled one pass at a time, or over a finite sequence of rounds.
- `time.sleep` pacing, and logging, including the success log line that reports the requested bot count rather than the placed count.
- scipy's `KDTree`, the spatial player grid (`add_player`), pytmx map loading and the `EnhancedBot` behaviour. They are foreign or unseen code. Maps arrive as already-parsed layers. Bots are the seven fields the passes read.
- Collision.Centre: which side of `y` a tile extends to depends on how the map anchors its objects, which the server does not state. The model claims nothing about the centre lying inside the tile.
- Server.GameServer.ProcessBotMovement: does not model the `add_player` update of the spatial grid after each move.
- Server.GameServer.SpawnBotsInRegion: the bot's `isAggressive` coin (`random.random() < 0.5`) is an input sequence, and a new bot starts neither moving nor engaged. Those flags are set inside `EnhancedBot`, which is not part of this model.
- Server.GameServer.HandleLoadBalancerProtocol: the LB handler modules are not part of this model. The model assumes they set `regionIndex` and `boundary` to the assigned values and leave the player, delta and bot tables and the socket alone; the ensures that the region is the assigned one and that the steady-state loop leaves the tables unchanged rest on that assumption. An exception from the region handlers is not modelled. A spawn error is returned rather than raised. It ends the handler before the steady-state loop, with the link flag unchanged, as the uncaught exception would.
- Spawn.GenerateSpawnPositions: the order of `list(set)` is Python's hash order. The model proves the list holds each point once, in some order, without fixing which.
- World.Movement: iterates the registry in insertion order, as `list(dict.items())` does. Registry entries are not replaced while a pass runs.
- Client.ProcessProjectile: requires a positive projectile speed. With a speed of zero or less and no hit, the source loops forever. All three configured weapons have a positive speed (`Client.InitialWeapons`).
- Client.ProcessProjectile: `_updateProjectilePosition` and `_checkEnhancedCollisions` are called but not defined in the client file. As written, the projectile thread raises AttributeError on its first step. The model takes the position update to return normally, and the collision test to be the oracle `hitAt`.
- Client.GameClient.ExecuteCombat: the trajectory (`atan` in floating point), the projectile thread and the weapon sound are left out. The returned weapon is the one the projectile loop receives.
- Client.GameStateManager.ProcessExplosiveEffects: models the pass as intended. It assumes that `_renderIncomingExplosive`, which the client file does not define, returns normally. The as-written behaviour is `Client.ExplosivePassAsWritten` (see Findings). It also assumes `_executeExplosiveSequence` does not raise; it only draws and sends.
- Weapons are values, so the aliasing between the launched weapon object and the table entry is not modelled. The projectile loop reads the range, speed and damage, none of which firing changes.
- Rendering, input, audio, chat, inventory, authentication UI and `main_launcher.py`. They are UI and process plumbing.

## Findings

| source | as written | input that shows it | evidently intended | confidence | as-written member | corrected member |
|---|---|---|---|---|---|---|
| game_engine_client.py:369-372 | the pass calls `self._renderIncomingExplosive`, which the client class does not define, before `del`. The AttributeError is caught at line 376, so no incoming explosive entry is ever deleted, and the thread retries at once without sleeping | incoming data `{7: {'explosive_effect': 1}}`: entry 7 stays after every pass | render each incoming explosion, then delete its entry, so no entry with `explosive_effect` remains | high (not executed) | Client.ExplosiveEntryBlocksPass | Client.ExplosivePassClears |
