/** The messages the game server exchanges with its clients, the colour
    palette and the random draws a join consumes. */
module Protocol {

  datatype Option<T> = None | Some(value: T)

  /** The identity of one client connection (a socket object in the server);
      only compared for equality and used as a registry key. */
  type Conn = nat

  /** A decoded JSON value. Numbers are exact reals: the model does not
      reproduce floating point. */
  datatype Json =
    | JNull
    | JBool(b: bool)
    | JNumber(n: real)
    | JString(s: string)
    | JArray(items: seq<Json>)
    | JObject(fields: map<string, Json>)

  /** What `json.loads` does with one line: return a value, raise
      `JSONDecodeError` (the one exception the read loop catches around it),
      or raise something else, such as `RecursionError` on deeply nested
      input or `ValueError` on an over-long integer literal. */
  datatype Decoded = Value(json: Json) | DecodeError | OtherError

  /** `dict.get(key)` on a decoded JSON object. */
  function Get(fields: map<string, Json>, key: string): (v: Option<Json>)
  {
    if key in fields then Some(fields[key]) else None
  }

  /** `dict.get(key, default)` on a decoded JSON object. */
  function GetOr(fields: map<string, Json>, key: string, default: Json): (v: Json)
  {
    if key in fields then fields[key] else default
  }

  datatype Color = Rgb(r: int, g: int, b: int)

  /** The fixed palette a joining player's colour is drawn from. */
  const AvailableColors: seq<Color> := [
    Rgb(255, 0, 0), Rgb(0, 255, 0), Rgb(0, 0, 255), Rgb(255, 255, 0), Rgb(255, 0, 255),
    Rgb(0, 255, 255), Rgb(255, 165, 0), Rgb(128, 0, 128), Rgb(255, 192, 203), Rgb(0, 128, 0)
  ]

  const PaletteSize: nat := 10

  /** The values the random-number generator can yield for one join:
      an index into the palette (`random.choice`) and two integers in the
      inclusive spawn ranges (`random.randint(50, 1030)`, `random.randint(50, 670)`). */
  type PaletteIndex = i: nat | i < PaletteSize
  type SpawnX = x: int | 50 <= x <= 1030 witness 50
  type SpawnY = y: int | 50 <= y <= 670 witness 50
  datatype Draw = Draw(colorIndex: PaletteIndex, x: SpawnX, y: SpawnY)

  /** The colour a draw selects; always a palette entry. */
  function GetRandomColor(d: Draw): (c: Color)
    ensures c in AvailableColors
  {
    assert |AvailableColors| == PaletteSize;
    AvailableColors[d.colorIndex]
  }

  /** The spawn position a draw selects, converted to a (whole) number;
      always inside x in [50,1030], y in [50,670]. */
  function GetRandomSpawnPosition(d: Draw): (pos: (real, real))
    ensures 50.0 <= pos.0 <= 1030.0 && 50.0 <= pos.1 <= 670.0
    ensures pos.0 == pos.0.Floor as real && pos.1 == pos.1.Floor as real
  {
    (d.x as real, d.y as real)
  }

  /** One registry entry: what the server stores for a joined connection.
      Positions stay JSON values because a position update stores whatever
      the client sent. */
  datatype PlayerInfo = PlayerInfo(gametag: Json, x: Json, y: Json, color: Color)

  /** The messages the server sends. */
  datatype ServerMsg =
    | JoinResponse(color: Color, x: Json, y: Json)
    | GameState(players: seq<PlayerInfo>)
    | PlayerJoined(gametag: Json, x: Json, y: Json, color: Color)
    | PlayerMoved(gametag: Json, x: Json, y: Json)
    | PlayerLeft(gametag: Json)
}
