# Game server registry and message dispatch

This project models the server side of a small multiplayer position-sync game (`server.py`, class `GameServer`) and proves what it guarantees. The model covers:

- the registry `players`, mapping each joined connection to its entry (gametag, position, colour);
- the colour palette and the random spawn position a join draws;
- `broadcast_to_all`, including the removal of the connections whose send failed;
- `send_game_state`;
- `remove_player`;
- `process_message`, with its `join` and `position_update` branches;
- the line-framing loop of `handle_client`.

Modules:

- `Protocol`: JSON values, the server's messages, the palette and one random draw. It also holds `get_random_color` and `get_random_spawn_position`.
- `Framing`: `str.strip`, and splitting the receive buffer at each `'\n'` into complete lines and an unterminated tail. Its lemmas show that splitting loses nothing, that it inverts framing, and that it does not depend on where the reads were cut.
- `Registry`: the server state as a value:
  - the registry;
  - its key order, which is the insertion order a dict iterates in;
  - every message delivered so far, as (connection, message) pairs;
  - the number of random draws used.

  Each operation is a function from the state before to the state after. `broadcast_to_all` and `remove_player` call each other. Termination holds because every real removal shrinks the registry.
- `Server`: the class `GameServer`. Its fields are updated in place and its methods follow the loops of the source. Each method is proved to leave the object in exactly the state the matching `Registry` function gives.
- `Properties`: lemmas about those functions, covering delivery counts, exclusion of the sender, the snapshot, joins, position updates, removals and framing.

Sockets are abstracted:

- A connection is a number.
- A send to a connection in the set `dead` fails, as the socket's `send` would raise. Otherwise the send appends to the delivered traffic.
- The reads of one connection are a sequence of text chunks.
- `json.loads` is a parameter `parse`. It has three outcomes: a decoded value, `JSONDecodeError` (the one exception the read loop catches), or any other exception, such as `RecursionError` on deeply nested input.
- The random generator is a stream `rng` of draws, each a palette index and two integers in the `randint` ranges. The server consumes one draw per join.

Three behaviours of the code are easy to miss, and the model follows the code in each:

- A line that decodes to a JSON value other than an object makes `message.get` raise. That exception leaves `process_message` and ends the connection's handler, which then removes the connection. A decoding exception other than `JSONDecodeError` ends the handler in the same way.
- The `join_response` send in `process_message` is not guarded. When it fails, the exception ends the handler, with the new entry still stored until the final `remove_player`.
- After a join, the console line calls `Text.append(gametag)`, which raises `TypeError` unless the gametag is a string. A join with a non-string gametag is therefore carried out in full, and then it ends the handler.

## Model

| member | source | states |
|---|---|---|
| Protocol.GetRandomColor | server.py:23-30 | the colour drawn is one of the ten palette entries |
| Protocol.GetRandomSpawnPosition | server.py:33-36 | the spawn is whole-numbered, with x in [50,1030] and y in [50,670] |
| Framing.Strip | server.py:89-91 | `line.strip()` is the slice of the line left once leading and trailing whitespace is gone; it neither starts nor ends with whitespace, and it is empty exactly when the line is all whitespace |
| Framing.NewlineIndex | server.py:88 | the split point is the first `'\n'`, or the end when there is none |
| Framing.HasNewline | server.py:87 | the loop test `'\n' in buffer` holds exactly when there is a split point |
| Framing.Tail | server.py:87-88 | the buffer kept after the loop holds no `'\n'` |
| Framing.LinesHaveNoNewline | server.py:87-88 | no complete line contains a `'\n'` |
| Framing.SplitReassembles | server.py:85-88 | the buffer is exactly its complete lines, each followed by `'\n'`, then the tail |
| Framing.SplitFrame | server.py:85-88 | lines without `'\n'`, each framed by `'\n'` and followed by an unterminated tail, split back into exactly those lines and that tail |
| Framing.SplitFirstOfJoin | server.py:85-88 | text appended after a `'\n'` changes neither the first line nor where the rest starts |
| Framing.LinesAcrossReads | server.py:81-88 | the lines of `a + b` are the lines of `a`, then those of `a`'s tail continued by `b` |
| Framing.TailAcrossReads | server.py:81-88 | the tail of `a + b` is the tail of `a`'s tail continued by `b` |
| Registry.RemoveKey | server.py:159 | `del` takes the key out of the key order, keeps every other key, and keeps it free of repeats |
| Registry.RemoveKeyAbsent | server.py:159 | deleting a key that is not in the order leaves the order as it was |
| Registry.RemoveKeyAt | server.py:159 | in an order without repeats, `del` cuts out exactly the key's one occurrence, so the keys before and after it keep their relative order |
| Registry.DeliveriesTargets | server.py:43-46 | every delivery of the first broadcast loop carries the message to a registered, non-excluded connection whose send succeeds |
| Registry.Failed | server.py:43-48 | `disconnected_clients` holds exactly the non-excluded keys whose send failed |
| Registry.BroadcastF | server.py:39-51 | no entry is created or altered; every live connection stays registered; no connection whose send failed stays registered unless it was the excluded one; new traffic goes only to connections that were registered and live, and is the message or a `player_left` |
| Registry.RemoveAllF | server.py:50-51 | removing the failed connections in turn deletes each of them, keeps every other live connection, and adds only `player_left` traffic |
| Registry.Without | server.py:157-159 | `del` shrinks the registry by exactly one, and the key order stays consistent |
| Registry.RemoveF | server.py:156-165 | `remove_player` on an absent connection changes nothing; otherwise the connection is gone, every other live one stays registered, and only `player_left` traffic is added |
| Registry.Snapshot | server.py:55-62 | the list sent has one entry per key, in key order, each that key's stored entry |
| Registry.SendGameStateF | server.py:54-73 | sending the game state keeps the registry and its key order consistent, even when the failed send removes the recipient |
| Registry.Register | server.py:111-116 | storing a join entry sets that key's entry and leaves every other entry alone; a new key goes to the end of the key order, and a rejoin keeps its place; one draw is used and nothing is sent |
| Registry.JoinEntry | server.py:107-116 | the stored gametag is the message's (default `"Player"`), the colour is a palette entry, and the position is within the spawn ranges |
| Registry.JoinF | server.py:106-140 | the `join` branch keeps the registry consistent |
| Registry.PositionUpdateF | server.py:142-153 | the `position_update` branch keeps the registry consistent |
| Registry.ProcessF | server.py:103-153 | `process_message` keeps the registry consistent |
| Registry.LineF | server.py:89-94 | handling one line keeps the registry consistent |
| Registry.LinesF | server.py:87-94 | handling the lines of a buffer keeps the registry consistent |
| Registry.ChunksF | server.py:80-94 | the read loop keeps the registry consistent |
| Registry.HandleClientF | server.py:76-99 | whatever the reads and however the loop ended, the connection is not registered afterwards |
| Server.GameServer.constructor | server.py:20 | the server starts with an empty registry and no traffic |
| Server.GameServer.Send | server.py:46 | a send succeeds exactly when the connection is live, and only then appends the message to the traffic |
| Server.GameServer.SendToEach | server.py:43-48 | the first loop tries each key in turn; it appends exactly the deliveries `Deliveries` describes and returns exactly the failed keys, in key order |
| Server.GameServer.BroadcastToAll | server.py:39-51 | the object ends in the state `BroadcastF` gives |
| Server.GameServer.RemoveEach | server.py:50-51 | the object ends in the state `RemoveAllF` gives |
| Server.GameServer.RemovePlayer | server.py:156-165 | the object ends in the state `RemoveF` gives |
| Server.GameServer.SendGameState | server.py:54-73 | the object ends in the state `SendGameStateF` gives, with the list built in key order |
| Server.GameServer.ProcessMessage | server.py:103-153 | the object ends in the state `ProcessF` gives, and the method reports an escaping exception exactly when `ProcessF` does |
| Server.GameServer.Join | server.py:106-140 | the object ends in the state `JoinF` gives, including its abort cases |
| Server.GameServer.StoreJoin | server.py:107-116 | the entry stored is `JoinEntry` of the next draw, and that draw is consumed |
| Server.GameServer.PositionUpdate | server.py:142-153 | the object ends in the state `PositionUpdateF` gives |
| Server.GameServer.ProcessBuffer | server.py:87-94 | the complete lines are handled in order, stopping at the first that raises; otherwise the buffer kept is exactly the tail |
| Server.GameServer.NextLine | server.py:87-94 | one turn of the loop splits off the first complete line and keeps the same tail; if handling the line raised, the loop ends with the outcome of the whole buffer, and otherwise the lines left give the same outcome as before |
| Server.GameServer.HandleLine | server.py:89-94 | a blank line, or one whose decoding raises `JSONDecodeError`, is skipped; any other decoding exception ends the loop; a decoded value goes to `process_message` |
| Server.GameServer.HandleClient | server.py:76-99 | the object ends in the state `HandleClientF` gives |
| Properties.DeliveriesCount | server.py:43-48 | the first broadcast loop sends the message exactly once to each key that is neither excluded nor failing, and never to any other connection |
| Properties.BroadcastSplit | server.py:39-51 | a broadcast's traffic is first the deliveries of its loop, in key order, then only `player_left` messages |
| Properties.BroadcastReachesEach | server.py:39-51 | a failing send does not stop the others: every registered, non-excluded, live connection receives the message at least once; any message other than `player_left` is received exactly once by such a connection and never by an excluded or failing one |
| Properties.SnapshotCoversRegistry | server.py:54-67 | the game state lists exactly one entry per registry member, each that member's stored entry |
| Properties.DeliveriesAll | server.py:43-48 | with no exclusion and no failing sends, the loop delivers the message to every key, exactly one delivery per key in key order, and records no failure |
| Properties.RemoveNotifies | server.py:156-165 | removing a joined connection deletes it, keeps every other live connection, and tells each of them that it left, even when other sends fail |
| Properties.RemoveWithoutFailures | server.py:156-165 | with no failing sends, the removal deletes exactly that key (the rest of the registry and key order stays unchanged) and sends one `player_left` per remaining connection, in key order, and nothing else |
| Properties.RemoveAnnouncesOnce | server.py:156-165 | with no failing sends, each remaining connection hears of the removal exactly once, and the removed one never does |
| Properties.JoinStores | server.py:106-140 | after a join whose answer gets through, the joiner is registered with `JoinEntry` of the next draw, and one draw is used; every other live entry is kept unchanged; the handler goes on exactly when the gametag is a string |
| Properties.AnnouncedRegistry | server.py:111-133 | the `player_joined` broadcast keeps the joiner's new entry and every other live entry |
| Properties.JoinMessages | server.py:118-135 | a join sends first `join_response` to the joiner and last a `game_state` to the joiner, with one entry per registry member including the joiner; in between it sends only the `player_joined` broadcast and the `player_left` messages of failed connections |
| Properties.JoinAnnouncesOnce | server.py:126-133 | `player_joined` reaches every other registered, live connection exactly once, and never the joiner |
| Properties.JoinFailedSend | server.py:111-124 | when the `join_response` send fails, the handler is aborted, the entry stays stored and nothing is sent |
| Properties.PositionUpdateUnjoined | server.py:142-143 | a `position_update` from a connection that has not joined changes nothing and sends nothing |
| Properties.PositionUpdateMoves | server.py:143-153 | a `position_update` from a joined sender overwrites only its coordinates (default 0) and keeps its gametag and colour. A live sender stays registered. A failing sender may be removed by a nested `player_left` broadcast, and if it survives it holds the new position. Every other surviving entry is unchanged, and every live one survives |
| Properties.PositionUpdateAnnouncesOnce | server.py:147-153 | `player_moved` reaches every other registered, live connection exactly once, and never the sender |
| Properties.LinesAppend | server.py:87-94 | handling `a + b` is handling `a`, then, unless that raised, `b` |
| Properties.IgnoredLineDropsOut | server.py:89-94 | a blank line, one whose decoding raises `JSONDecodeError`, or one whose `type` is neither `join` nor `position_update`, can be removed from the stream without changing the outcome: it changes nothing, does not end the loop, and later lines are still handled |
| Properties.RaisingLineEndsHandler | server.py:89-97 | a line whose decoding raises something other than `JSONDecodeError`, or that decodes to a non-object, ends the handler: the state is unchanged, and no later line is handled |
| Properties.LinesOfJoinedReads | server.py:81-94 | the lines completed by one read of `a + b` are handled as those of `a`, then those that `b` completes, and the same tail is kept |
| Properties.ReadBoundaryIrrelevant | server.py:80-94 | two reads in a row are handled exactly like one read of their concatenation |

Some lemmas only unfold a definition one step for the proofs above, so they have no row: Framing.SplitFirst, Framing.NoSplit, Registry.DeliveriesStep, Registry.LinesCons, Registry.LinesAdvance, Properties.RemovalsAfterLoop, Properties.JoinUnfold and Properties.ChunksStep. Registry.Answered and Registry.Announced name the intermediate states of a join.

Five definitions model the source directly but carry no contract of their own. The lemmas and ensures named with each state their properties:

- Framing.CompleteLines (server.py:87-88): the lines that repeated `buffer.split('\n', 1)` takes off the buffer. Framing.LinesHaveNoNewline, Framing.SplitReassembles, Framing.SplitFrame and Framing.LinesAcrossReads are about it.
- Registry.Deliveries (server.py:43-46): the sends the first loop of `broadcast_to_all` completes, in key order. Registry.DeliveriesTargets and Properties.DeliveriesCount are about it.
- Framing.IsSpace (server.py:89): the characters `str.isspace` accepts, which `line.strip()` removes. Framing.Strip's ensures are stated with it.
- Protocol.Get (server.py:104): `message.get(key)`, which gives `None` for a missing key.
- Protocol.GetOr (server.py:107, 144-145, 150-151): `message.get(key, default)`. Registry.JoinEntry's gametag and Properties.PositionUpdateMoves's coordinates are stated with it.

## Left out

- Sockets are left out: creating, binding, listening, accepting, `recv` and `close` (server.py:14-18, 173-199). Reads are a sequence of chunks, and an empty chunk or the end of the sequence ends the loop, as an empty read or a failing `recv` would. Sends append to the traffic.
- Threads are left out: one handler per connection, and the unsynchronised access to `players` from several of them. Each operation is modelled as atomic and sequential. The `running` flag and `stop` are left out with them.
- Send failure is fixed for the duration of one call: a connection in `dead` fails every send within it. Partial sends are not modelled.
- JSON serialisation is left out. Messages are a datatype, and `json.loads` is the parameter `parse`. JSON numbers are exact reals. The source's default position `0` (an int) is modelled as `JNumber(0.0)`.
- The UTF-8 decoding of each read is left out, including a multi-byte character split across two reads. Chunks are already text.
- Randomness is left out: `random.choice` and `random.randint` become the draw stream `rng`.
- The console output of `process_message` and `remove_player` is left out. An exception of the join's console line is modelled (see above). The one in `remove_player`, which raises `TypeError` after its broadcast for a non-string gametag, is not. The model treats that removal as completing normally within a broadcast or a handler.
- Properties.RemoveWithoutFailures, Properties.RemoveAnnouncesOnce: the exactly-once count for `player_left` is stated only when no remaining send fails. When sends fail, the nested removals send further `player_left` messages, and Properties.RemoveNotifies then states only "at least once".
- Properties.BroadcastReachesEach: for a `player_left` message, it states only "at least once", for the same reason.
- src/player.py and main.py are not part of this model. They are the client's floating-point movement, its rendering and its console input.
