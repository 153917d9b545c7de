/** The game server: the registry of joined connections, updated in place by
    the handlers of each connection's messages. Every method is proved to
    leave the object in the state the matching function of `Registry` gives. */
module Server {
  import opened Protocol
  import opened Framing
  import opened Registry

  class GameServer {
    /** The registry: one entry per joined connection. */
    var players: map<Conn, PlayerInfo>
    /** The key order of `players` (insertion order of a dict). */
    var order: seq<Conn>
    /** Everything delivered on the connections' sockets so far. */
    var sent: seq<(Conn, ServerMsg)>
    /** How many values of `rng` the joins so far have used. */
    var draws: nat
    /** The values the random-number generator yields, one per join. */
    const rng: nat -> Draw

    ghost function Abstract(): State
      reads this
    {
      State(players, order, sent, draws)
    }

    ghost predicate Valid()
      reads this
    {
      ValidState(Abstract())
    }

    /** A server with no players that has sent nothing. */
    constructor (rng: nat -> Draw)
      ensures Valid() && this.rng == rng
      ensures players == map[] && order == [] && sent == [] && draws == 0
    {
      this.rng := rng;
      players := map[];
      order := [];
      sent := [];
      draws := 0;
    }

    /** `socket.send` on connection `k`: fails (raises) if `k` is in `dead`,
        otherwise delivers `m`. */
    method Send(k: Conn, m: ServerMsg, dead: set<Conn>) returns (ok: bool)
      modifies this`sent
      ensures ok == (k !in dead)
      ensures sent == if ok then old(sent) + [(k, m)] else old(sent)
    {
      ok := k !in dead;
      if ok {
        sent := sent + [(k, m)];
      }
    }

    /** The first loop of `broadcast_to_all`: try to send `m` on each of
        `keys` but `exclude`, in order, and return the ones whose send failed.
        A failed send does not stop the loop. */
    method SendToEach(keys: seq<Conn>, m: ServerMsg, exclude: Option<Conn>, dead: set<Conn>)
      returns (disconnected: seq<Conn>)
      modifies this`sent
      ensures sent == old(sent) + Deliveries(keys, m, exclude, dead)
      ensures disconnected == Failed(keys, exclude, dead)
    {
      disconnected := [];
      ghost var delivered := [];
      for i := 0 to |keys|
        invariant delivered == Deliveries(keys[..i], m, exclude, dead)
        invariant sent == old(sent) + delivered
        invariant disconnected == Failed(keys[..i], exclude, dead)
      {
        DeliveriesStep(keys, i, m, exclude, dead);
        var k := keys[i];
        if Some(k) != exclude {
          var ok := Send(k, m, dead);
          if ok {
            delivered := delivered + [(k, m)];
          } else {
            disconnected := disconnected + [k];
          }
        }
      }
      assert keys[..|keys|] == keys;
    }

    /** `broadcast_to_all`: try every registered connection but `exclude`,
        then remove the ones whose send failed. */
    method BroadcastToAll(m: ServerMsg, exclude: Option<Conn>, dead: set<Conn>)
      requires Valid()
      modifies this
      ensures Valid()
      ensures Abstract() == BroadcastF(old(Abstract()), m, exclude, dead)
      decreases |players|, 2
    {
      BroadcastUnfold(Abstract(), m, exclude, dead);
      var disconnected := SendToEach(order, m, exclude, dead);
      RemoveEach(disconnected, dead);
    }

    /** The second loop of `broadcast_to_all`: `remove_player` on each
        connection whose send failed, in order. */
    method RemoveEach(cs: seq<Conn>, dead: set<Conn>)
      requires Valid()
      modifies this
      ensures Valid()
      ensures Abstract() == RemoveAllF(old(Abstract()), cs, dead)
      decreases |players|, 1
    {
      ghost var target := RemoveAllF(Abstract(), cs, dead);
      ghost var size := |players|;
      assert cs[0..] == cs;
      for j := 0 to |cs|
        invariant Valid()
        invariant |players| <= size
        invariant RemoveAllF(Abstract(), cs[j..], dead) == target
      {
        RemoveAllUnfold(Abstract(), cs[j..], dead);
        assert cs[j..][1..] == cs[j + 1..];
        RemovePlayer(cs[j], dead);
      }
      RemoveAllUnfold(Abstract(), cs[|cs|..], dead);
    }

    /** `remove_player`: only a joined connection is deleted and announced. */
    method RemovePlayer(c: Conn, dead: set<Conn>)
      requires Valid()
      modifies this
      ensures Valid()
      ensures Abstract() == RemoveF(old(Abstract()), c, dead)
      decreases |players|, 0
    {
      if c in players {
        var gametag := players[c].gametag;
        players := players - {c};
        order := RemoveKey(order, c);
        assert players.Keys == old(players).Keys - {c};
        BroadcastToAll(PlayerLeft(gametag), None, dead);
      }
    }

    /** `send_game_state`: list every registered player, send the list to
        `c`, and remove `c` if the send fails. */
    method SendGameState(c: Conn, dead: set<Conn>)
      requires Valid()
      modifies this
      ensures Valid()
      ensures Abstract() == SendGameStateF(old(Abstract()), c, dead)
    {
      var playersData: seq<PlayerInfo> := [];
      for i := 0 to |order|
        invariant playersData == Snapshot(players, order[..i])
      {
        assert order[..i + 1][..i] == order[..i];
        playersData := playersData + [players[order[i]]];
      }
      assert order[..|order|] == order;
      var ok := Send(c, GameState(playersData), dead);
      if !ok {
        RemovePlayer(c, dead);
      }
    }

    /** `process_message`; `aborted` says an exception escaped. */
    method ProcessMessage(c: Conn, msg: Json, dead: set<Conn>) returns (aborted: bool)
      requires Valid()
      modifies this
      ensures Valid()
      ensures Step(Abstract(), aborted) == ProcessF(old(Abstract()), c, msg, rng, dead)
    {
      if !msg.JObject? {
        return true;
      }
      var fields := msg.fields;
      var msgType := Get(fields, "type");
      aborted := false;
      if msgType == Some(JString("join")) {
        aborted := Join(c, fields, dead);
      } else if msgType == Some(JString("position_update")) {
        PositionUpdate(c, fields, dead);
      }
    }

    /** The `join` branch of `process_message`: store a fresh entry for `c`,
        answer it, announce it to the others, then send it the game state. */
    method Join(c: Conn, fields: map<string, Json>, dead: set<Conn>) returns (aborted: bool)
      requires Valid()
      modifies this
      ensures Valid()
      ensures Step(Abstract(), aborted) == JoinF(old(Abstract()), c, fields, rng, dead)
    {
      var info := StoreJoin(c, fields);
      var ok := Send(c, JoinResponse(info.color, info.x, info.y), dead);
      if !ok {
        return true;
      }
      BroadcastToAll(PlayerJoined(info.gametag, info.x, info.y, info.color), Some(c), dead);
      SendGameState(c, dead);
      // `Text.append(gametag)` for the console line accepts only a string.
      aborted := !info.gametag.JString?;
    }

    /** The first half of a join: draw a colour and a spawn position and
        store `c`'s entry (a rejoin keeps its place in the key order). */
    method StoreJoin(c: Conn, fields: map<string, Json>) returns (info: PlayerInfo)
      requires Valid()
      modifies this
      ensures Valid()
      ensures info == JoinEntry(fields, rng(old(draws)))
      ensures Abstract() == Register(old(Abstract()), c, info)
    {
      var gametag := GetOr(fields, "gametag", JString("Player"));
      var d := rng(draws);
      var color := GetRandomColor(d);
      var pos := GetRandomSpawnPosition(d);
      var xPos, yPos := JNumber(pos.0), JNumber(pos.1);
      draws := draws + 1;
      if c !in players {
        order := order + [c];
      }
      info := PlayerInfo(gametag, xPos, yPos, color);
      players := players[c := info];
    }

    /** The `position_update` branch of `process_message`: only a joined
        connection's entry is moved, and the move announced to the others. */
    method PositionUpdate(c: Conn, fields: map<string, Json>, dead: set<Conn>)
      requires Valid()
      modifies this
      ensures Valid()
      ensures Abstract() == PositionUpdateF(old(Abstract()), c, fields, dead)
    {
      if c in players {
        ghost var s0 := Abstract();
        var xPos := GetOr(fields, "x_pos", JNumber(0.0));
        var yPos := GetOr(fields, "y_pos", JNumber(0.0));
        players := players[c := players[c].(x := xPos)];
        players := players[c := players[c].(y := yPos)];
        assert players == s0.players[c := s0.players[c].(x := xPos, y := yPos)];
        BroadcastToAll(PlayerMoved(players[c].gametag, xPos, yPos), Some(c), dead);
      }
    }

    /** The framing loop of `handle_client` over the current buffer: split off
        and handle each complete line; keep the unterminated tail. */
    method ProcessBuffer(c: Conn, buffer: string, parse: string -> Decoded, dead: set<Conn>)
      returns (rest: string, aborted: bool)
      requires Valid()
      modifies this
      ensures Valid()
      ensures Step(Abstract(), aborted) == LinesF(old(Abstract()), c, CompleteLines(buffer), parse, rng, dead)
      ensures !aborted ==> rest == Tail(buffer)
    {
      ghost var target := LinesF(Abstract(), c, CompleteLines(buffer), parse, rng, dead);
      rest := buffer;
      aborted := false;
      while '\n' in rest
        invariant Valid()
        invariant LinesF(Abstract(), c, CompleteLines(rest), parse, rng, dead) == target
        invariant Tail(rest) == Tail(buffer)
        decreases |rest|
      {
        rest, aborted := NextLine(c, rest, parse, dead);
        if aborted {
          return;
        }
      }
      HasNewline(rest);
    }

    /** One turn of the framing loop: split the first complete line off
        `buffer` and handle it. If that raised, the loop ends with the outcome
        of the whole buffer; otherwise the rest of the buffer is left with the
        same outstanding lines and tail. */
    method NextLine(c: Conn, buffer: string, parse: string -> Decoded, dead: set<Conn>)
      returns (rest: string, aborted: bool)
      requires Valid() && '\n' in buffer
      modifies this
      ensures Valid()
      ensures |rest| < |buffer| && Tail(rest) == Tail(buffer)
      ensures aborted ==> Step(Abstract(), aborted) == LinesF(old(Abstract()), c, CompleteLines(buffer), parse, rng, dead)
      ensures !aborted ==> LinesF(Abstract(), c, CompleteLines(rest), parse, rng, dead)
                           == LinesF(old(Abstract()), c, CompleteLines(buffer), parse, rng, dead)
    {
      HasNewline(buffer);
      var i := NewlineIndex(buffer);
      SplitFirst(buffer);
      var line := buffer[..i];
      rest := buffer[i + 1..];
      aborted := HandleLine(c, line, parse, dead);
      LinesAdvance(old(Abstract()), Abstract(), aborted, c, buffer, parse, rng, dead);
    }

    /** One line of the framing loop: strip it, skip it when blank or when
        decoding raises `JSONDecodeError`, report any other exception from
        decoding, otherwise `process_message` on the decoded value. */
    method HandleLine(c: Conn, line: string, parse: string -> Decoded, dead: set<Conn>)
      returns (aborted: bool)
      requires Valid()
      modifies this
      ensures Valid()
      ensures Step(Abstract(), aborted) == LineF(old(Abstract()), c, line, parse, rng, dead)
    {
      aborted := false;
      var text := Strip(line);
      if text != [] {
        match parse(text) {
          case DecodeError =>
          case OtherError =>
            aborted := true;
          case Value(message) =>
            aborted := ProcessMessage(c, message, dead);
        }
      }
    }

    /** `handle_client` over the reads `chunks` of one connection: an empty
        read ends the loop (as does running out of reads, a failed `recv`),
        and so does an exception from handling a message; either way the
        connection is then removed. */
    method HandleClient(c: Conn, chunks: seq<string>, parse: string -> Decoded, dead: set<Conn>)
      requires Valid()
      modifies this
      ensures Valid()
      ensures Abstract() == HandleClientF(old(Abstract()), c, chunks, parse, rng, dead)
    {
      ghost var target := ChunksF(Abstract(), c, "", chunks, parse, rng, dead);
      var buffer := "";
      var i := 0;
      while i < |chunks|
        invariant 0 <= i <= |chunks|
        invariant Valid()
        invariant ChunksF(Abstract(), c, buffer, chunks[i..], parse, rng, dead) == target
      {
        var data := chunks[i];
        if data == [] {
          break;
        }
        buffer := buffer + data;
        var aborted;
        buffer, aborted := ProcessBuffer(c, buffer, parse, dead);
        if aborted {
          break;
        }
        assert chunks[i..][1..] == chunks[i + 1..];
        i := i + 1;
      }
      assert Abstract() == target;
      RemovePlayer(c, dead);
    }
  }
}
