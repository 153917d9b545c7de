/** What the server's operations guarantee, stated over the functions of
    `Registry` that the methods of `Server.GameServer` are proved to compute. */
module Properties {
  import opened Protocol
  import opened Framing
  import opened Registry

  /** The traffic `r` added to that of `s`. */
  ghost function NewSends(s: State, r: State): (d: seq<(Conn, ServerMsg)>)
    requires |s.sent| <= |r.sent|
  {
    r.sent[|s.sent|..]
  }

  // ---------------------------------------------------------------------
  // Broadcast

  lemma NoDupInit(keys: seq<Conn>)
    requires NoDup(keys) && keys != []
    ensures NoDup(keys[..|keys| - 1]) && keys[|keys| - 1] !in keys[..|keys| - 1]
  {
  }

  /** The first loop of `broadcast_to_all` sends `m` once to each key that
      is neither excluded nor failing, and never to any other connection. */
  lemma {:induction false} DeliveriesCount(keys: seq<Conn>, m: ServerMsg, exclude: Option<Conn>,
                                           dead: set<Conn>, k: Conn)
    requires NoDup(keys)
    ensures multiset(Deliveries(keys, m, exclude, dead))[(k, m)]
         == if k in keys && Some(k) != exclude && k !in dead then 1 else 0
  {
    if keys != [] {
      var init, last := keys[..|keys| - 1], keys[|keys| - 1];
      NoDupInit(keys);
      DeliveriesCount(init, m, exclude, dead, k);
      var before := Deliveries(init, m, exclude, dead);
      var ext: seq<(Conn, ServerMsg)> := if Some(last) != exclude && last !in dead then [(last, m)] else [];
      assert multiset(before + ext)[(k, m)] == multiset(before)[(k, m)] + multiset(ext)[(k, m)];
      assert multiset(ext)[(k, m)] == if k == last && Some(k) != exclude && k !in dead then 1 else 0;
      assert k in keys <==> k in init || k == last by {
        if k in keys {
          var i :| 0 <= i < |keys| && keys[i] == k;
          assert i < |init| ==> init[i] == k;
        }
      }
    }
  }

  /** Traffic that extends `before + d` consists, past `before`, of `d` and
      then the rest. */
  lemma SplitTraffic(before: seq<(Conn, ServerMsg)>, d: seq<(Conn, ServerMsg)>, after: seq<(Conn, ServerMsg)>)
    requires |before + d| <= |after| && after[..|before + d|] == before + d
    ensures after[|before|..] == d + after[|before + d|..]
  {
    assert after[|before|..][..|d|] == after[..|before + d|][|before|..];
    assert after[|before|..] == after[|before|..][..|d|] + after[|before|..][|d|..];
  }

  /** The removals that end a broadcast keep the traffic so far as a prefix
      and add only `player_left` messages. */
  lemma RemovalsAfterLoop(s: State, cs: seq<Conn>, dead: set<Conn>)
    requires ValidState(s)
    ensures var r := RemoveAllF(s, cs, dead);
      && |s.sent| <= |r.sent| && r.sent[..|s.sent|] == s.sent
      && forall i :: |s.sent| <= i < |r.sent| ==> r.sent[i].1.PlayerLeft?
  {
    var r := RemoveAllF(s, cs, dead);
    assert Evolves(s, r, dead) && OnlyLeaves(s, r);
  }

  /** `broadcast_to_all` first delivers to every live, non-excluded key in
      key order; everything it sends after that comes from the removals of
      the failed connections and is a `player_left`. */
  lemma BroadcastSplit(s: State, m: ServerMsg, exclude: Option<Conn>, dead: set<Conn>)
    requires ValidState(s)
    ensures var r := BroadcastF(s, m, exclude, dead);
            var d := Deliveries(s.order, m, exclude, dead);
      && |s.sent + d| <= |r.sent|
      && NewSends(s, r) == d + r.sent[|s.sent + d|..]
      && forall i :: |s.sent + d| <= i < |r.sent| ==> r.sent[i].1.PlayerLeft?
  {
    var d := Deliveries(s.order, m, exclude, dead);
    BroadcastUnfold(s, m, exclude, dead);
    var r := BroadcastF(s, m, exclude, dead);
    RemovalsAfterLoop(s.(sent := s.sent + d), Failed(s.order, exclude, dead), dead);
    SplitTraffic(s.sent, d, r.sent);
  }

  /** Every registered connection other than `exclude` whose send succeeds
      receives `m` from `broadcast_to_all`, even when other sends fail; a
      failing or excluded connection never receives it from the broadcast
      loop; and unless `m` is itself a `player_left` (which the removals of
      failed connections also send), each receives it exactly once. */
  lemma BroadcastReachesEach(s: State, m: ServerMsg, exclude: Option<Conn>, dead: set<Conn>, k: Conn)
    requires ValidState(s)
    ensures var r := BroadcastF(s, m, exclude, dead);
            var expected := if k in s.players && Some(k) != exclude && k !in dead then 1 else 0;
      && multiset(NewSends(s, r))[(k, m)] >= expected
      && (!m.PlayerLeft? ==> multiset(NewSends(s, r))[(k, m)] == expected)
  {
    var r := BroadcastF(s, m, exclude, dead);
    var d := Deliveries(s.order, m, exclude, dead);
    BroadcastSplit(s, m, exclude, dead);
    DeliveriesCount(s.order, m, exclude, dead, k);
    CountPastPrefix(r.sent, |s.sent|, |s.sent + d|, d, (k, m));
  }

  /** When the traffic past `lo` is `d` followed only by `player_left`s,
      every other message occurs there exactly as often as in `d`. */
  lemma CountPastPrefix(all: seq<(Conn, ServerMsg)>, lo: nat, hi: nat, d: seq<(Conn, ServerMsg)>, x: (Conn, ServerMsg))
    requires lo <= hi <= |all| && all[lo..] == d + all[hi..]
    requires forall i :: hi <= i < |all| ==> all[i].1.PlayerLeft?
    ensures multiset(all[lo..])[x] >= multiset(d)[x]
    ensures !x.1.PlayerLeft? ==> multiset(all[lo..])[x] == multiset(d)[x]
  {
    var later := all[hi..];
    assert multiset(all[lo..]) == multiset(d) + multiset(later);
    if !x.1.PlayerLeft? {
      assert x !in later by {
        forall i | 0 <= i < |later| ensures later[i] != x {
          assert later[i] == all[hi + i];
        }
      }
    }
  }

  // ---------------------------------------------------------------------
  // The registry and its snapshot

  /** The connections a key order lists. */
  ghost function Elements(keys: seq<Conn>): (e: set<Conn>)
  {
    set k | k in keys
  }

  /** A sequence without repeats has as many distinct elements as entries. */
  lemma {:induction false} DistinctLength(keys: seq<Conn>)
    requires NoDup(keys)
    ensures |Elements(keys)| == |keys|
  {
    if keys == [] {
      assert Elements(keys) == {};
    } else {
      var init, last := keys[..|keys| - 1], keys[|keys| - 1];
      NoDupInit(keys);
      DistinctLength(init);
      assert Elements(keys) == Elements(init) + {last} by {
        forall k | k in keys ensures k in init || k == last {
          var i :| 0 <= i < |keys| && keys[i] == k;
          assert i < |init| ==> init[i] == k;
        }
      }
    }
  }

  /** The key order lists exactly as many keys as the registry holds. */
  lemma OrderLength(s: State)
    requires ValidState(s)
    ensures |s.order| == |s.players|
  {
    DistinctLength(s.order);
    assert Elements(s.order) == s.players.Keys;
  }

  /** `send_game_state` lists every registered player once: one entry per
      registry member, in key order, each that member's stored entry. */
  lemma SnapshotCoversRegistry(s: State)
    requires ValidState(s)
    ensures var snap := Snapshot(s.players, s.order);
      && |snap| == |s.players|
      && forall k :: k in s.players ==> exists i :: 0 <= i < |snap| && s.order[i] == k && snap[i] == s.players[k]
  {
    OrderLength(s);
    var snap := Snapshot(s.players, s.order);
    forall k | k in s.players
      ensures exists i :: 0 <= i < |snap| && s.order[i] == k && snap[i] == s.players[k]
    {
      var i :| 0 <= i < |s.order| && s.order[i] == k;
      assert snap[i] == s.players[k];
    }
  }

  // ---------------------------------------------------------------------
  // remove_player

  /** With no key excluded and no send failing, the first loop of
      `broadcast_to_all` delivers the message to every key, one delivery per
      key in key order, and records no failure. */
  lemma {:induction false} DeliveriesAll(keys: seq<Conn>, m: ServerMsg, dead: set<Conn>)
    requires forall k :: k in keys ==> k !in dead
    ensures Deliveries(keys, m, None, dead) == seq(|keys|, i requires 0 <= i < |keys| => (keys[i], m))
    ensures |Deliveries(keys, m, None, dead)| == |keys|
    ensures Failed(keys, None, dead) == []
  {
    if keys != [] {
      var init := keys[..|keys| - 1];
      assert forall k :: k in init ==> k in keys;
      DeliveriesAll(init, m, dead);
    }
  }

  /** `remove_player` on a joined connection deletes it and tells every
      remaining connection whose send succeeds that it left. */
  lemma RemoveNotifies(s: State, c: Conn, dead: set<Conn>, k: Conn)
    requires ValidState(s) && c in s.players
    requires k in s.players && k != c && k !in dead
    ensures var r := RemoveF(s, c, dead);
      && c !in r.players && k in r.players
      && multiset(NewSends(s, r))[(k, PlayerLeft(s.players[c].gametag))] >= 1
  {
    var left := PlayerLeft(s.players[c].gametag);
    assert RemoveF(s, c, dead) == BroadcastF(Without(s, c), left, None, dead);
    BroadcastReachesEach(Without(s, c), left, None, dead, k);
  }

  /** When none of the remaining sends fails, `remove_player` deletes exactly
      that key (the rest of the registry and key order untouched) and sends
      one `player_left` to each remaining connection, in key order, and
      nothing else. */
  lemma RemoveWithoutFailures(s: State, c: Conn, dead: set<Conn>)
    requires ValidState(s) && c in s.players
    requires forall k :: k in s.players && k != c ==> k !in dead
    ensures var r := RemoveF(s, c, dead);
            var left := PlayerLeft(s.players[c].gametag);
      && r.players == s.players - {c}
      && r.order == RemoveKey(s.order, c)
      && r.draws == s.draws
      && r.sent == s.sent + Deliveries(RemoveKey(s.order, c), left, None, dead)
      && |NewSends(s, r)| == |s.players| - 1
  {
    var left := PlayerLeft(s.players[c].gametag);
    var gone := Without(s, c);
    assert RemoveF(s, c, dead) == BroadcastF(gone, left, None, dead);
    DeliveriesAll(gone.order, left, dead);
    BroadcastUnfold(gone, left, None, dead);
    RemoveAllUnfold(gone.(sent := gone.sent + Deliveries(gone.order, left, None, dead)), [], dead);
    OrderLength(gone);
  }

  /** When no remaining send fails, removing a joined connection tells each
      remaining connection of it exactly once, and the removed one not at all. */
  lemma RemoveAnnouncesOnce(s: State, c: Conn, dead: set<Conn>, k: Conn)
    requires ValidState(s) && c in s.players
    requires forall k :: k in s.players && k != c ==> k !in dead
    ensures var r := RemoveF(s, c, dead);
      multiset(NewSends(s, r))[(k, PlayerLeft(s.players[c].gametag))] == if k in s.players && k != c then 1 else 0
  {
    var r := RemoveF(s, c, dead);
    var left := PlayerLeft(s.players[c].gametag);
    RemoveWithoutFailures(s, c, dead);
    DeliveriesCount(RemoveKey(s.order, c), left, None, dead, k);
    assert NewSends(s, r) == Deliveries(RemoveKey(s.order, c), left, None, dead);
  }

  // ---------------------------------------------------------------------
  // join

  /** A join whose `join_response` goes through: the joiner ends up with
      exactly the entry `JoinEntry` builds from the message and the next
      draw, one draw is used, every other live player keeps its entry, and
      the handler goes on unless the gametag is not a string. */
  lemma JoinStores(s: State, c: Conn, fields: map<string, Json>, rng: nat -> Draw, dead: set<Conn>)
    requires ValidState(s) && c !in dead
    ensures var r := JoinF(s, c, fields, rng, dead);
            var info := JoinEntry(fields, rng(s.draws));
      && r.aborted == !info.gametag.JString?
      && c in r.state.players && r.state.players[c] == info
      && r.state.draws == s.draws + 1
      && (forall k :: k in s.players && k !in dead ==> k in r.state.players)
      && (forall k :: k in r.state.players && k != c ==> k in s.players && r.state.players[k] == s.players[k])
  {
    var announced := Announced(s, c, fields, rng, dead);
    JoinUnfold(s, c, fields, rng, dead);
    AnnouncedRegistry(s, c, fields, rng, dead);
    assert JoinF(s, c, fields, rng, dead).state.players == announced.players;
  }

  /** The registry once the join is announced: the broadcast keeps the
      joiner (whose own send is never tried) and every other live entry. */
  lemma AnnouncedRegistry(s: State, c: Conn, fields: map<string, Json>, rng: nat -> Draw, dead: set<Conn>)
    requires ValidState(s) && c !in dead
    ensures var a := Announced(s, c, fields, rng, dead);
      && c in a.players && a.players[c] == JoinEntry(fields, rng(s.draws))
      && a.draws == s.draws + 1
      && (forall k :: k in s.players && k !in dead ==> k in a.players)
      && (forall k :: k in a.players && k != c ==> k in s.players && a.players[k] == s.players[k])
  {
    var info := JoinEntry(fields, rng(s.draws));
    var answered := Answered(s, c, fields, rng);
    var announced := Announced(s, c, fields, rng, dead);
    assert answered.players == s.players[c := info] && answered.draws == s.draws + 1;
    assert Evolves(answered, announced, dead);
    assert forall k :: k in answered.players && k !in dead ==> k in announced.players;
    forall k | k in announced.players && k != c
      ensures k in s.players && announced.players[k] == s.players[k]
    {
      assert announced.players[k] == answered.players[k];
    }
  }

  /** A join whose `join_response` goes through: the answer, the broadcast,
      then the `game_state` to the joiner. */
  lemma JoinUnfold(s: State, c: Conn, fields: map<string, Json>, rng: nat -> Draw, dead: set<Conn>)
    requires ValidState(s) && c !in dead
    ensures var announced := Announced(s, c, fields, rng, dead);
      JoinF(s, c, fields, rng, dead)
        == Step(announced.(sent := announced.sent + [(c, GameState(Snapshot(announced.players, announced.order)))]),
                !JoinEntry(fields, rng(s.draws)).gametag.JString?)
  {
  }

  /** What a join whose `join_response` goes through sends: first the
      `join_response` to the joiner, last the `game_state` to the joiner,
      listing one entry per registry member (the joiner included), and in
      between only the broadcast's `player_joined` and the `player_left`s
      of connections that failed. */
  lemma JoinMessages(s: State, c: Conn, fields: map<string, Json>, rng: nat -> Draw, dead: set<Conn>)
    requires ValidState(s) && c !in dead
    ensures var r := JoinF(s, c, fields, rng, dead).state;
            var info := JoinEntry(fields, rng(s.draws));
            var joined := PlayerJoined(info.gametag, info.x, info.y, info.color);
            var snap := Snapshot(r.players, r.order);
      && |s.sent| + 2 <= |r.sent|
      && r.sent[|s.sent|] == (c, JoinResponse(info.color, info.x, info.y))
      && r.sent[|r.sent| - 1] == (c, GameState(snap))
      && |snap| == |r.players| && info in snap
      && forall i :: |s.sent| < i < |r.sent| - 1 ==> r.sent[i].1 == joined || r.sent[i].1.PlayerLeft?
  {
    var info := JoinEntry(fields, rng(s.draws));
    var answered := Answered(s, c, fields, rng);
    var announced := Announced(s, c, fields, rng, dead);
    var snap := Snapshot(announced.players, announced.order);
    var r := announced.(sent := announced.sent + [(c, GameState(snap))]);
    JoinUnfold(s, c, fields, rng, dead);
    JoinStores(s, c, fields, rng, dead);
    SnapshotCoversRegistry(r);
    assert r.sent[..|announced.sent|] == announced.sent;
    assert announced.sent[..|answered.sent|] == answered.sent;
    assert r.sent[|s.sent|] == answered.sent[|s.sent|];
  }

  /** The broadcast of a join reaches every other registered connection
      whose send succeeds exactly once, and never the joiner. */
  lemma JoinAnnouncesOnce(s: State, c: Conn, fields: map<string, Json>, rng: nat -> Draw, dead: set<Conn>, k: Conn)
    requires ValidState(s) && c !in dead
    ensures var r := JoinF(s, c, fields, rng, dead).state;
            var info := JoinEntry(fields, rng(s.draws));
      multiset(NewSends(s, r))[(k, PlayerJoined(info.gametag, info.x, info.y, info.color))]
        == if k in s.players && k != c && k !in dead then 1 else 0
  {
    var info := JoinEntry(fields, rng(s.draws));
    var joined := PlayerJoined(info.gametag, info.x, info.y, info.color);
    var answered := Answered(s, c, fields, rng);
    var announced := Announced(s, c, fields, rng, dead);
    var snap := Snapshot(announced.players, announced.order);
    var r := announced.(sent := announced.sent + [(c, GameState(snap))]);
    JoinUnfold(s, c, fields, rng, dead);
    BroadcastReachesEach(answered, joined, Some(c), dead, k);
    assert announced.sent[..|answered.sent|] == answered.sent;
    Sandwich(s.sent, (c, JoinResponse(info.color, info.x, info.y)), announced.sent, (c, GameState(snap)));
    CountMiddle((c, JoinResponse(info.color, info.x, info.y)), NewSends(answered, announced),
                (c, GameState(snap)), (k, joined));
  }

  /** Traffic that starts with `before + [a]` and is then followed by `b`
      adds, past `before`, `a`, what came in between, and `b`. */
  lemma Sandwich<T>(before: seq<T>, a: T, mid: seq<T>, b: T)
    requires |before| + 1 <= |mid| && mid[..|before| + 1] == before + [a]
    ensures (mid + [b])[|before|..] == [a] + mid[|before| + 1..] + [b]
  {
    assert mid[|before|] == a;
  }

  lemma CountMiddle<T>(a: T, mid: seq<T>, b: T, x: T)
    requires x != a && x != b
    ensures multiset([a] + mid + [b])[x] == multiset(mid)[x]
  {
  }

  /** A join whose `join_response` send fails raises: the entry stays stored
      (until the handler's final `remove_player`) and nothing is sent. */
  lemma JoinFailedSend(s: State, c: Conn, fields: map<string, Json>, rng: nat -> Draw, dead: set<Conn>)
    requires ValidState(s) && c in dead
    ensures var r := JoinF(s, c, fields, rng, dead);
      && r.aborted
      && r.state.players == s.players[c := JoinEntry(fields, rng(s.draws))]
      && r.state.sent == s.sent
  {
  }

  // ---------------------------------------------------------------------
  // position_update

  /** A `position_update` from a connection that has not joined changes
      nothing and sends nothing. */
  lemma PositionUpdateUnjoined(s: State, c: Conn, fields: map<string, Json>, dead: set<Conn>)
    requires ValidState(s) && c !in s.players
    ensures PositionUpdateF(s, c, fields, dead) == s
  {
  }

  /** A `position_update` from a joined connection overwrites only its
      coordinates (default 0), keeping its gametag and colour; every other
      surviving entry is unchanged, and every live one survives. The sender
      itself survives when its own sends succeed (a nested `player_left`
      broadcast may otherwise remove it). */
  lemma PositionUpdateMoves(s: State, c: Conn, fields: map<string, Json>, dead: set<Conn>)
    requires ValidState(s) && c in s.players
    ensures var r := PositionUpdateF(s, c, fields, dead);
            var x, y := GetOr(fields, "x_pos", JNumber(0.0)), GetOr(fields, "y_pos", JNumber(0.0));
      && (c !in dead ==> c in r.players)
      && (c in r.players ==> r.players[c] == PlayerInfo(s.players[c].gametag, x, y, s.players[c].color))
      && (forall k :: k in r.players && k != c ==> k in s.players && r.players[k] == s.players[k])
      && (forall k :: k in s.players && k !in dead ==> k in r.players)
      && r.draws == s.draws
  {
    var x, y := GetOr(fields, "x_pos", JNumber(0.0)), GetOr(fields, "y_pos", JNumber(0.0));
    var moved := s.(players := s.players[c := s.players[c].(x := x, y := y)]);
    var r := BroadcastF(moved, PlayerMoved(s.players[c].gametag, x, y), Some(c), dead);
    assert PositionUpdateF(s, c, fields, dead) == r;
    assert c in r.players ==> r.players[c] == moved.players[c];
    assert moved.players[c] == PlayerInfo(s.players[c].gametag, x, y, s.players[c].color);
  }

  /** A `position_update` from a joined connection sends `player_moved`
      exactly once to every other joined connection whose send succeeds, and
      never to the sender. */
  lemma PositionUpdateAnnouncesOnce(s: State, c: Conn, fields: map<string, Json>, dead: set<Conn>, k: Conn)
    requires ValidState(s) && c in s.players
    ensures var r := PositionUpdateF(s, c, fields, dead);
            var x, y := GetOr(fields, "x_pos", JNumber(0.0)), GetOr(fields, "y_pos", JNumber(0.0));
      multiset(NewSends(s, r))[(k, PlayerMoved(s.players[c].gametag, x, y))]
        == if k in s.players && k != c && k !in dead then 1 else 0
  {
    var x, y := GetOr(fields, "x_pos", JNumber(0.0)), GetOr(fields, "y_pos", JNumber(0.0));
    var moved := s.(players := s.players[c := s.players[c].(x := x, y := y)]);
    assert PositionUpdateF(s, c, fields, dead) == BroadcastF(moved, PlayerMoved(s.players[c].gametag, x, y), Some(c), dead);
    BroadcastReachesEach(moved, PlayerMoved(s.players[c].gametag, x, y), Some(c), dead, k);
  }

  // ---------------------------------------------------------------------
  // handle_client

  /** Handling `a + b` is handling `a`, then, unless that raised, `b`. */
  lemma {:induction false} LinesAppend(s: State, c: Conn, a: seq<string>, b: seq<string>,
                                       parse: string -> Decoded, rng: nat -> Draw, dead: set<Conn>)
    requires ValidState(s)
    ensures var first := LinesF(s, c, a, parse, rng, dead);
      LinesF(s, c, a + b, parse, rng, dead)
        == if first.aborted then first else LinesF(first.state, c, b, parse, rng, dead)
    decreases |a|
  {
    if a == [] {
      assert a + b == b;
    } else {
      assert (a + b)[0] == a[0] && (a + b)[1..] == a[1..] + b;
      var step := LineF(s, c, a[0], parse, rng, dead);
      if !step.aborted {
        LinesAppend(step.state, c, a[1..], b, parse, rng, dead);
      }
    }
  }

  /** A line the server drops without effect: blank, not decodable as JSON,
      or an object whose `type` is neither `join` nor `position_update`. */
  predicate Ignored(line: string, parse: string -> Decoded)
  {
    var text := Strip(line);
    || text == []
    || parse(text).DecodeError?
    || (parse(text).Value? && parse(text).json.JObject?
        && Get(parse(text).json.fields, "type") != Some(JString("join"))
        && Get(parse(text).json.fields, "type") != Some(JString("position_update")))
  }

  /** An ignored line can be taken out of the stream: it changes nothing,
      does not end the loop, and the lines after it are still handled. */
  lemma {:induction false} IgnoredLineDropsOut(s: State, c: Conn, lines: seq<string>, j: nat,
                                               parse: string -> Decoded, rng: nat -> Draw, dead: set<Conn>)
    requires ValidState(s) && j < |lines| && Ignored(lines[j], parse)
    ensures LinesF(s, c, lines, parse, rng, dead) == LinesF(s, c, lines[..j] + lines[j + 1..], parse, rng, dead)
    decreases j
  {
    var rest := lines[..j] + lines[j + 1..];
    if j == 0 {
      assert LineF(s, c, lines[0], parse, rng, dead) == Step(s, false);
      assert rest == lines[1..];
    } else {
      assert rest[0] == lines[0] && rest[1..] == lines[1..][..j - 1] + lines[1..][j..];
      var step := LineF(s, c, lines[0], parse, rng, dead);
      if !step.aborted {
        IgnoredLineDropsOut(step.state, c, lines[1..], j - 1, parse, rng, dead);
      }
    }
  }

  /** A line whose decoding raises something other than `JSONDecodeError`,
      or that decodes to a JSON value other than an object (which has no
      `get`), ends the handler: the state is unchanged and no later line is
      handled. */
  lemma RaisingLineEndsHandler(s: State, c: Conn, line: string, later: seq<string>,
                               parse: string -> Decoded, rng: nat -> Draw, dead: set<Conn>)
    requires ValidState(s) && Strip(line) != []
    requires parse(Strip(line)).OtherError? || (parse(Strip(line)).Value? && !parse(Strip(line)).json.JObject?)
    ensures LinesF(s, c, [line] + later, parse, rng, dead) == Step(s, true)
  {
    assert ([line] + later)[0] == line;
  }

  /** The lines of one read of `a + b` are handled as those of `a`, then,
      unless that raised, those `b` completes; the same tail is kept. */
  lemma LinesOfJoinedReads(s: State, c: Conn, buffer: string, a: string, b: string,
                           parse: string -> Decoded, rng: nat -> Draw, dead: set<Conn>)
    requires ValidState(s)
    ensures var h1 := LinesF(s, c, CompleteLines(buffer + a), parse, rng, dead);
            var data2 := Tail(buffer + a) + b;
      && LinesF(s, c, CompleteLines(buffer + (a + b)), parse, rng, dead)
           == (if h1.aborted then h1 else LinesF(h1.state, c, CompleteLines(data2), parse, rng, dead))
      && Tail(buffer + (a + b)) == Tail(data2)
  {
    var data := buffer + a;
    assert buffer + (a + b) == data + b;
    LinesAcrossReads(data, b);
    TailAcrossReads(data, b);
    LinesAppend(s, c, CompleteLines(data), CompleteLines(Tail(data) + b), parse, rng, dead);
  }

  /** One turn of the read loop of `handle_client` on a non-empty read. */
  lemma ChunksStep(s: State, c: Conn, buffer: string, data: string, rest: seq<string>,
                   parse: string -> Decoded, rng: nat -> Draw, dead: set<Conn>)
    requires ValidState(s) && data != []
    ensures var h := LinesF(s, c, CompleteLines(buffer + data), parse, rng, dead);
      ChunksF(s, c, buffer, [data] + rest, parse, rng, dead)
        == if h.aborted then h.state else ChunksF(h.state, c, Tail(buffer + data), rest, parse, rng, dead)
  {
    assert ([data] + rest)[0] == data && ([data] + rest)[1..] == rest;
  }

  /** Where the reads split the stream does not matter: two reads in a row
      are handled exactly as one read of their concatenation. */
  lemma ReadBoundaryIrrelevant(s: State, c: Conn, buffer: string, a: string, b: string, rest: seq<string>,
                               parse: string -> Decoded, rng: nat -> Draw, dead: set<Conn>)
    requires ValidState(s) && a != [] && b != []
    ensures ChunksF(s, c, buffer, [a, b] + rest, parse, rng, dead)
         == ChunksF(s, c, buffer, [a + b] + rest, parse, rng, dead)
  {
    LinesOfJoinedReads(s, c, buffer, a, b, parse, rng, dead);
    assert [a, b] + rest == [a] + ([b] + rest);
    ChunksStep(s, c, buffer, a, [b] + rest, parse, rng, dead);
    ChunksStep(s, c, buffer, a + b, rest, parse, rng, dead);
    var h1 := LinesF(s, c, CompleteLines(buffer + a), parse, rng, dead);
    if !h1.aborted {
      ChunksStep(h1.state, c, Tail(buffer + a), b, rest, parse, rng, dead);
    }
  }
}
