/** The server's shared state as a value, and each server operation as a
    function from the state before to the state after. The methods of
    `Server.GameServer` are proved to compute exactly these functions. */
module Registry {
  import opened Protocol
  import opened Framing

  /** The registry (`players`, with the order in which its keys were first
      inserted, which is the order a dict iterates in), everything delivered
      on the connections so far (recipient and message, in sending order),
      and how many draws of the random stream have been used. */
  datatype State = State(
    players: map<Conn, PlayerInfo>,
    order: seq<Conn>,
    sent: seq<(Conn, ServerMsg)>,
    draws: nat)

  ghost predicate NoDup(s: seq<Conn>)
  {
    forall i, j :: 0 <= i < j < |s| ==> s[i] != s[j]
  }

  /** `order` lists every registered connection exactly once. */
  ghost predicate ValidState(s: State)
  {
    NoDup(s.order) && forall k :: k in s.order <==> k in s.players
  }

  /** The key order after `del players[c]`. */
  function RemoveKey(order: seq<Conn>, c: Conn): (r: seq<Conn>)
    ensures forall k :: k in r <==> k in order && k != c
    ensures NoDup(order) ==> NoDup(r)
    ensures |r| <= |order|
  {
    if order == [] then []
    else
      var rest := RemoveKey(order[1..], c);
      if order[0] == c then rest
      else
        assert NoDup(order) ==> order[0] !in order[1..] && NoDup(order[1..]) by {
          if NoDup(order) {
            assert forall j :: 0 <= j < |order[1..]| ==> order[1..][j] == order[j + 1];
          }
        }
        assert NoDup(order) ==> NoDup([order[0]] + rest) by {
          if NoDup(order) { NoDupCons(order[0], rest); }
        }
        [order[0]] + rest
  }

  /** Deleting a key that is not there changes nothing. */
  lemma {:induction false} RemoveKeyAbsent(order: seq<Conn>, c: Conn)
    requires c !in order
    ensures RemoveKey(order, c) == order
  {
    if order != [] {
      RemoveKeyAbsent(order[1..], c);
    }
  }

  /** Deleting a key from a sequence without repeats cuts out exactly its one
      occurrence: the keys before and after it keep their relative order. */
  lemma {:induction false} RemoveKeyAt(order: seq<Conn>, c: Conn, p: nat)
    requires NoDup(order) && p < |order| && order[p] == c
    ensures RemoveKey(order, c) == order[..p] + order[p + 1..]
  {
    assert c !in order[p + 1..] && NoDup(order[1..]) by {
      assert forall j :: 0 <= j < |order[1..]| ==> order[1..][j] == order[j + 1];
    }
    if p == 0 {
      RemoveKeyAbsent(order[1..], c);
    } else {
      RemoveKeyAt(order[1..], c, p - 1);
      assert order[1..][..p - 1] + order[1..][p..] == order[1..p] + order[p + 1..];
      assert order[..p] + order[p + 1..] == [order[0]] + (order[1..p] + order[p + 1..]);
    }
  }

  lemma NoDupCons(x: Conn, s: seq<Conn>)
    requires x !in s && NoDup(s)
    ensures NoDup([x] + s)
  {
    forall i, j | 0 <= i < j < |[x] + s| ensures ([x] + s)[i] != ([x] + s)[j] {
      assert ([x] + s)[j] == s[j - 1];
      if i > 0 { assert ([x] + s)[i] == s[i - 1]; }
    }
  }

  /** The sends the first loop of `broadcast_to_all` completes: one per key,
      in key order, except the excluded connection and those whose send fails. */
  function Deliveries(keys: seq<Conn>, m: ServerMsg, exclude: Option<Conn>, dead: set<Conn>)
    : (d: seq<(Conn, ServerMsg)>)
  {
    if keys == [] then []
    else
      var k := keys[|keys| - 1];
      Deliveries(keys[..|keys| - 1], m, exclude, dead)
        + (if Some(k) != exclude && k !in dead then [(k, m)] else [])
  }

  /** Each delivery carries `m` to a registered connection other than the
      excluded one, whose send succeeds. */
  lemma {:induction false} DeliveriesTargets(keys: seq<Conn>, m: ServerMsg, exclude: Option<Conn>, dead: set<Conn>)
    ensures forall i :: 0 <= i < |Deliveries(keys, m, exclude, dead)| ==>
      var e := Deliveries(keys, m, exclude, dead)[i];
      e.1 == m && e.0 in keys && e.0 !in dead && Some(e.0) != exclude
  {
    if keys != [] {
      var init := keys[..|keys| - 1];
      DeliveriesTargets(init, m, exclude, dead);
      assert forall k :: k in init ==> k in keys;
    }
  }

  /** The connections that first loop records as disconnected, in key order. */
  function Failed(keys: seq<Conn>, exclude: Option<Conn>, dead: set<Conn>): (r: seq<Conn>)
    ensures forall k :: k in r <==> k in keys && Some(k) != exclude && k in dead
  {
    if keys == [] then []
    else
      var k := keys[|keys| - 1];
      Failed(keys[..|keys| - 1], exclude, dead) + (if Some(k) != exclude && k in dead then [k] else [])
  }

  /** One more step of the first loop of `broadcast_to_all`. */
  lemma DeliveriesStep(keys: seq<Conn>, i: nat, m: ServerMsg, exclude: Option<Conn>, dead: set<Conn>)
    requires i < |keys|
    ensures Deliveries(keys[..i + 1], m, exclude, dead)
         == Deliveries(keys[..i], m, exclude, dead)
            + (if Some(keys[i]) != exclude && keys[i] !in dead then [(keys[i], m)] else [])
    ensures Failed(keys[..i + 1], exclude, dead)
         == Failed(keys[..i], exclude, dead) + (if Some(keys[i]) != exclude && keys[i] in dead then [keys[i]] else [])
  {
    assert keys[..i + 1][..i] == keys[..i];
  }

  /** `r` is `s` after some removals and some deliveries: a valid registry
      holding a subset of the old entries, unchanged; the old traffic as a
      prefix; and new traffic only to connections of `s` whose sends succeed. */
  ghost predicate Evolves(s: State, r: State, dead: set<Conn>)
  {
    && ValidState(r)
    && r.draws == s.draws
    && |r.players| <= |s.players|
    && (forall k :: k in r.players ==> k in s.players && r.players[k] == s.players[k])
    && |s.sent| <= |r.sent| && r.sent[..|s.sent|] == s.sent
    && (forall i :: |s.sent| <= i < |r.sent| ==> r.sent[i].0 in s.players && r.sent[i].0 !in dead)
  }

  /** Every message `r` added to the traffic of `s` is a `player_left`. */
  ghost predicate OnlyLeaves(s: State, r: State)
    requires |s.sent| <= |r.sent|
  {
    forall i :: |s.sent| <= i < |r.sent| ==> r.sent[i].1.PlayerLeft?
  }

  lemma EvolvesTrans(a: State, b: State, c: State, dead: set<Conn>)
    requires Evolves(a, b, dead) && Evolves(b, c, dead)
    ensures Evolves(a, c, dead)
  {
    assert c.sent[..|a.sent|] == c.sent[..|b.sent|][..|a.sent|];
    forall i | |a.sent| <= i < |c.sent| ensures c.sent[i].0 in a.players && c.sent[i].0 !in dead {
      if i < |b.sent| { assert c.sent[i] == c.sent[..|b.sent|][i]; }
    }
  }

  lemma OnlyLeavesTrans(a: State, b: State, c: State)
    requires |a.sent| <= |b.sent| <= |c.sent| && c.sent[..|b.sent|] == b.sent
    requires OnlyLeaves(a, b) && OnlyLeaves(b, c)
    ensures OnlyLeaves(a, c)
  {
    forall i | |a.sent| <= i < |c.sent| ensures c.sent[i].1.PlayerLeft? {
      if i < |b.sent| { assert c.sent[i] == c.sent[..|b.sent|][i]; }
    }
  }

  lemma DeliveriesEvolve(s: State, m: ServerMsg, exclude: Option<Conn>, dead: set<Conn>)
    requires ValidState(s)
    ensures Evolves(s, s.(sent := s.sent + Deliveries(s.order, m, exclude, dead)), dead)
  {
    var d := Deliveries(s.order, m, exclude, dead);
    DeliveriesTargets(s.order, m, exclude, dead);
    var r := s.(sent := s.sent + d);
    assert r.sent[..|s.sent|] == s.sent;
    forall i | |s.sent| <= i < |r.sent| ensures r.sent[i].0 in s.players && r.sent[i].0 !in dead {
      assert r.sent[i] == d[i - |s.sent|];
    }
  }

  /** `broadcast_to_all(m, exclude)`: send `m` to every registered connection
      but `exclude`, then remove each connection whose send failed. */
  ghost function BroadcastF(s: State, m: ServerMsg, exclude: Option<Conn>, dead: set<Conn>): (r: State)
    requires ValidState(s)
    ensures Evolves(s, r, dead)
    ensures forall k :: k in s.players && k !in dead ==> k in r.players
    ensures forall k :: k in r.players && k in dead ==> Some(k) == exclude
    ensures forall i :: |s.sent| <= i < |r.sent| ==> r.sent[i].1 == m || r.sent[i].1.PlayerLeft?
    decreases |s.players|, 2, 0
  {
    var delivered := s.(sent := s.sent + Deliveries(s.order, m, exclude, dead));
    assert Evolves(s, delivered, dead) by { DeliveriesEvolve(s, m, exclude, dead); }
    DeliveriesTargets(s.order, m, exclude, dead);
    var r := RemoveAllF(delivered, Failed(s.order, exclude, dead), dead);
    EvolvesTrans(s, delivered, r, dead);
    assert forall i :: |s.sent| <= i < |r.sent| ==> r.sent[i].1 == m || r.sent[i].1.PlayerLeft? by {
      forall i | |s.sent| <= i < |r.sent| ensures r.sent[i].1 == m || r.sent[i].1.PlayerLeft? {
        if i < |delivered.sent| { assert r.sent[i] == delivered.sent[i]; }
      }
    }
    r
  }

  /** The second loop of `broadcast_to_all`: `remove_player` on each of `cs` in turn. */
  ghost function RemoveAllF(s: State, cs: seq<Conn>, dead: set<Conn>): (r: State)
    requires ValidState(s)
    ensures Evolves(s, r, dead) && OnlyLeaves(s, r)
    ensures forall k :: k in s.players && k !in dead && k !in cs ==> k in r.players
    ensures forall k :: k in cs ==> k !in r.players
    decreases |s.players|, 1, |cs|
  {
    if cs == [] then s
    else
      var first := RemoveF(s, cs[0], dead);
      var r := RemoveAllF(first, cs[1..], dead);
      EvolvesTrans(s, first, r, dead);
      OnlyLeavesTrans(s, first, r);
      forall k | k in s.players && k !in dead && k !in cs ensures k in r.players {
        assert k != cs[0] && k !in cs[1..];
      }
      r
  }

  lemma BroadcastUnfold(s: State, m: ServerMsg, exclude: Option<Conn>, dead: set<Conn>)
    requires ValidState(s)
    ensures BroadcastF(s, m, exclude, dead)
         == RemoveAllF(s.(sent := s.sent + Deliveries(s.order, m, exclude, dead)), Failed(s.order, exclude, dead), dead)
  {
  }

  lemma RemoveAllUnfold(s: State, cs: seq<Conn>, dead: set<Conn>)
    requires ValidState(s)
    ensures cs == [] ==> RemoveAllF(s, cs, dead) == s
    ensures cs != [] ==> RemoveAllF(s, cs, dead) == RemoveAllF(RemoveF(s, cs[0], dead), cs[1..], dead)
  {
  }

  /** `remove_player(c)`: if `c` has joined, delete its entry and tell all
      remaining connections that it left; otherwise nothing. */
  ghost function RemoveF(s: State, c: Conn, dead: set<Conn>): (r: State)
    requires ValidState(s)
    ensures Evolves(s, r, dead) && OnlyLeaves(s, r)
    ensures forall k :: k in s.players && k !in dead && k != c ==> k in r.players
    ensures c !in r.players
    ensures c !in s.players ==> r == s
    decreases |s.players|, 0, 0
  {
    if c !in s.players then s
    else BroadcastF(Without(s, c), PlayerLeft(s.players[c].gametag), None, dead)
  }

  /** The registry `remove_player(c)` leaves before it broadcasts. */
  ghost function Without(s: State, c: Conn): (r: State)
    requires ValidState(s) && c in s.players
    ensures ValidState(r) && |r.players| == |s.players| - 1
  {
    var r := s.(players := s.players - {c}, order := RemoveKey(s.order, c));
    assert r.players.Keys == s.players.Keys - {c};
    r
  }

  /** The entries `send_game_state` lists: one per key of `order`, in that order. */
  ghost function Snapshot(players: map<Conn, PlayerInfo>, order: seq<Conn>): (r: seq<PlayerInfo>)
    requires forall k :: k in order ==> k in players
    ensures |r| == |order|
    ensures forall i :: 0 <= i < |order| ==> r[i] == players[order[i]]
  {
    if order == [] then []
    else Snapshot(players, order[..|order| - 1]) + [players[order[|order| - 1]]]
  }

  /** `send_game_state(c)`: send `c` the snapshot of every registered player;
      if that send fails, remove `c`. */
  ghost function SendGameStateF(s: State, c: Conn, dead: set<Conn>): (r: State)
    requires ValidState(s)
    ensures ValidState(r)
  {
    var snapshot := Snapshot(s.players, s.order);
    if c in dead then RemoveF(s, c, dead)
    else s.(sent := s.sent + [(c, GameState(snapshot))])
  }

  /** The outcome of handling one message: the new state, and whether an
      exception escaped, which ends the connection's handler. */
  datatype Step = Step(state: State, aborted: bool)

  /** The state once `c`'s join entry is stored (before any message is sent). */
  ghost function Register(s: State, c: Conn, info: PlayerInfo): (r: State)
    requires ValidState(s)
    ensures ValidState(r)
    ensures r.players == s.players[c := info] && r.sent == s.sent && r.draws == s.draws + 1
    ensures r.order == (if c in s.players then s.order else s.order + [c])
  {
    s.(players := s.players[c := info],
       order := if c in s.players then s.order else s.order + [c],
       draws := s.draws + 1)
  }

  /** The entry a join from a message with these fields stores, given the
      draw: the message's gametag (by default "Player"), a palette colour and
      a spawn position in [50,1030] x [50,670]. */
  function JoinEntry(fields: map<string, Json>, d: Draw): (info: PlayerInfo)
    ensures info.gametag == GetOr(fields, "gametag", JString("Player"))
    ensures info.color in AvailableColors
    ensures info.x.JNumber? && 50.0 <= info.x.n <= 1030.0
    ensures info.y.JNumber? && 50.0 <= info.y.n <= 670.0
  {
    var pos := GetRandomSpawnPosition(d);
    PlayerInfo(GetOr(fields, "gametag", JString("Player")), JNumber(pos.0), JNumber(pos.1), GetRandomColor(d))
  }

  /** The state once the joiner's entry is stored and `join_response` sent. */
  ghost function Answered(s: State, c: Conn, fields: map<string, Json>, rng: nat -> Draw): (r: State)
    requires ValidState(s)
    ensures ValidState(r)
  {
    var info := JoinEntry(fields, rng(s.draws));
    var registered := Register(s, c, info);
    registered.(sent := registered.sent + [(c, JoinResponse(info.color, info.x, info.y))])
  }

  /** The state once `player_joined` has been broadcast as well. */
  ghost function Announced(s: State, c: Conn, fields: map<string, Json>, rng: nat -> Draw, dead: set<Conn>): (r: State)
    requires ValidState(s)
    ensures ValidState(r)
  {
    var info := JoinEntry(fields, rng(s.draws));
    BroadcastF(Answered(s, c, fields, rng), PlayerJoined(info.gametag, info.x, info.y, info.color), Some(c), dead)
  }

  /** The `join` branch of `process_message`. The `join_response` send is not
      guarded, so its failure escapes (with the entry already stored). After
      the game state is sent, the console line appends the gametag to a rich
      `Text`, which raises `TypeError` unless the gametag is a string. */
  ghost function JoinF(s: State, c: Conn, fields: map<string, Json>, rng: nat -> Draw, dead: set<Conn>)
    : (r: Step)
    requires ValidState(s)
    ensures ValidState(r.state)
  {
    var info := JoinEntry(fields, rng(s.draws));
    if c in dead then Step(Register(s, c, info), true)
    else Step(SendGameStateF(Announced(s, c, fields, rng, dead), c, dead), !info.gametag.JString?)
  }

  /** The `position_update` branch of `process_message`. */
  ghost function PositionUpdateF(s: State, c: Conn, fields: map<string, Json>, dead: set<Conn>): (r: State)
    requires ValidState(s)
    ensures ValidState(r)
  {
    if c !in s.players then s
    else
      var x := GetOr(fields, "x_pos", JNumber(0.0));
      var y := GetOr(fields, "y_pos", JNumber(0.0));
      var moved := s.(players := s.players[c := s.players[c].(x := x, y := y)]);
      BroadcastF(moved, PlayerMoved(s.players[c].gametag, x, y), Some(c), dead)
  }

  /** `process_message`: dispatch on the `type` field. A decoded value that is
      not an object has no `get`, so the call raises. */
  ghost function ProcessF(s: State, c: Conn, msg: Json, rng: nat -> Draw, dead: set<Conn>): (r: Step)
    requires ValidState(s)
    ensures ValidState(r.state)
  {
    match msg
    case JObject(fields) =>
      var msgType := Get(fields, "type");
      if msgType == Some(JString("join")) then JoinF(s, c, fields, rng, dead)
      else if msgType == Some(JString("position_update")) then Step(PositionUpdateF(s, c, fields, dead), false)
      else Step(s, false)
    case _ => Step(s, true)
  }

  /** One complete line of the buffer: skipped when blank or when decoding
      raises `JSONDecodeError`; any other exception from decoding escapes the
      loop; a decoded value goes to `process_message`. */
  ghost function LineF(s: State, c: Conn, line: string, parse: string -> Decoded,
                       rng: nat -> Draw, dead: set<Conn>): (r: Step)
    requires ValidState(s)
    ensures ValidState(r.state)
  {
    var text := Strip(line);
    if text == [] then Step(s, false)
    else
      match parse(text)
      case DecodeError => Step(s, false)
      case OtherError => Step(s, true)
      case Value(msg) => ProcessF(s, c, msg, rng, dead)
  }

  /** The inner loop of `handle_client`: the lines in order, stopping at the
      first one whose handling raises. */
  ghost function LinesF(s: State, c: Conn, lines: seq<string>, parse: string -> Decoded,
                        rng: nat -> Draw, dead: set<Conn>): (r: Step)
    requires ValidState(s)
    ensures ValidState(r.state)
    decreases |lines|
  {
    if lines == [] then Step(s, false)
    else
      var first := LineF(s, c, lines[0], parse, rng, dead);
      if first.aborted then first
      else LinesF(first.state, c, lines[1..], parse, rng, dead)
  }

  /** One turn of the inner loop: the first line, then unless it raised the rest. */
  lemma LinesCons(s: State, c: Conn, line: string, lines: seq<string>, parse: string -> Decoded,
                  rng: nat -> Draw, dead: set<Conn>)
    requires ValidState(s)
    ensures var first := LineF(s, c, line, parse, rng, dead);
      LinesF(s, c, [line] + lines, parse, rng, dead)
        == if first.aborted then first else LinesF(first.state, c, lines, parse, rng, dead)
  {
    assert ([line] + lines)[0] == line && ([line] + lines)[1..] == lines;
  }

  /** The framing loop after handling the first line of `buffer`, which led
      from `s` to `next`: if that raised, it ends there; otherwise it goes on
      with the lines after the first. */
  lemma LinesAdvance(s: State, next: State, aborted: bool, c: Conn, buffer: string,
                     parse: string -> Decoded, rng: nat -> Draw, dead: set<Conn>)
    requires ValidState(s) && ValidState(next) && NewlineIndex(buffer) < |buffer|
    requires Step(next, aborted) == LineF(s, c, buffer[..NewlineIndex(buffer)], parse, rng, dead)
    ensures aborted ==> Step(next, aborted) == LinesF(s, c, CompleteLines(buffer), parse, rng, dead)
    ensures !aborted ==> LinesF(next, c, CompleteLines(buffer[NewlineIndex(buffer) + 1..]), parse, rng, dead)
                         == LinesF(s, c, CompleteLines(buffer), parse, rng, dead)
  {
    SplitFirst(buffer);
    LinesCons(s, c, buffer[..NewlineIndex(buffer)], CompleteLines(buffer[NewlineIndex(buffer) + 1..]), parse, rng, dead);
  }

  /** The outer loop of `handle_client`, from a given buffer: append each read
      and handle its complete lines, until an empty read (the peer closed) or
      until handling raises. */
  ghost function ChunksF(s: State, c: Conn, buffer: string, chunks: seq<string>,
                         parse: string -> Decoded, rng: nat -> Draw, dead: set<Conn>): (r: State)
    requires ValidState(s)
    ensures ValidState(r)
    decreases |chunks|
  {
    if chunks == [] || chunks[0] == [] then s
    else
      var data := buffer + chunks[0];
      var handled := LinesF(s, c, CompleteLines(data), parse, rng, dead);
      if handled.aborted then handled.state
      else ChunksF(handled.state, c, Tail(data), chunks[1..], parse, rng, dead)
  }

  /** `handle_client`: the read loop from an empty buffer, then, however it
      ended, `remove_player`. The connection is never left registered. */
  ghost function HandleClientF(s: State, c: Conn, chunks: seq<string>,
                               parse: string -> Decoded, rng: nat -> Draw, dead: set<Conn>): (r: State)
    requires ValidState(s)
    ensures ValidState(r)
    ensures c !in r.players
  {
    RemoveF(ChunksF(s, c, "", chunks, parse, rng, dead), c, dead)
  }
}
