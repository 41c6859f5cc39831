/** The table of games that a scan fills (bzccscanner.c): what one callback does to it, and what a scan announces. */
module SessionTable {
  import opened Common
  import opened CStrings
  import opened ParserSpec
  import opened ModList

  const MAX_SERVERS := 128
  const MAX_PLAYERS := 16
  const SERVER_VER_LEN := 16
  const SERVER_NAME_LEN := 64
  const SERVER_MAP_LEN := 32
  const SERVER_HOSTMSG_LEN := 256

  /** `localName` is the nickname, which a scan only clears. The fields that no key fills are not modelled. */
  datatype PlayerInfo = PlayerInfo(localName: string, ingameName: string, userId: string, team: int, kills: int,
                                   uniqueIdentifier: nat)

  type ModSlots = ids: seq<nat> | |ids| == MAX_MODS witness NoMods()

  /** What the keys of a server fill. */
  datatype ServerInfo = ServerInfo(version: string, name: string, map_: string, msg: string, pwd: bool, modId: ModSlots,
                                   maxPing: int, serverPing: int, gametime: int, playerlimit: int, timelimit: int,
                                   killlimit: int, gametype: int, tps: int, uniqueIdentifier: nat)

  datatype GameInfo = GameInfo(info: ServerInfo, modName: string, playerCount: nat, playerinfo: seq<PlayerInfo>)

  const NO_PLAYER := PlayerInfo("", "", "", 0, 0, 0)

  function NoInfo(): ServerInfo {
    ServerInfo("", "", "", "", false, NoMods(), 0, 0, 0, 0, 0, 0, 0, 0, 0)
  }

  /** What `ZeroMemory` leaves. */
  function NoGame(): GameInfo {
    GameInfo(NoInfo(), "", 0, seq(MAX_PLAYERS, _ => NO_PLAYER))
  }

  // ---------------------------------------------------------------- keys

  const PLAYERKEY_NAME := 1
  const PLAYERKEY_USERID := 2
  const PLAYERKEY_TEAM := 3
  const PLAYERKEY_KILLS := 4
  const PLAYERKEY_SCORE := 5
  const PLAYERKEY_DEATHS := 6

  const SERVERKEY_NAME := 1
  const SERVERKEY_MAP := 2
  const SERVERKEY_VERSION := 3
  const SERVERKEY_HOSTMSG := 4
  const SERVERKEY_PLAYERLIMIT := 5
  const SERVERKEY_MAX_PING := 6
  const SERVERKEY_MODSTRING := 7
  const SERVERKEY_TPS := 8
  const SERVERKEY_PWD := 9
  const SERVERKEY_GAMETIME := 10
  const SERVERKEY_GAMETYPE := 11
  const SERVERKEY_TIMELIMIT := 12
  const SERVERKEY_KILLLIMIT := 13
  const SERVERKEY_PING := 14
  const SERVERKEY_G := 15

  datatype KeyToIdentifier = KeyToIdentifier(str: string, id: int)

  const PLAYER_KEY_TO_ID: seq<KeyToIdentifier> := [
    KeyToIdentifier("n", PLAYERKEY_NAME),
    KeyToIdentifier("i", PLAYERKEY_USERID),
    KeyToIdentifier("t", PLAYERKEY_TEAM),
    KeyToIdentifier("k", PLAYERKEY_KILLS),
    KeyToIdentifier("s", PLAYERKEY_SCORE),
    KeyToIdentifier("d", PLAYERKEY_DEATHS),
    KeyToIdentifier("", 0)
  ]

  const SERVER_KEY_TO_ID: seq<KeyToIdentifier> := [
    KeyToIdentifier("n", SERVERKEY_NAME),
    KeyToIdentifier("m", SERVERKEY_MAP),
    KeyToIdentifier("v", SERVERKEY_VERSION),
    KeyToIdentifier("gtm", SERVERKEY_GAMETIME),
    KeyToIdentifier("mu", 0),
    KeyToIdentifier("gt", SERVERKEY_GAMETYPE),
    KeyToIdentifier("gtd", 0),
    KeyToIdentifier("pg", SERVERKEY_PING),
    KeyToIdentifier("pgm", SERVERKEY_MAX_PING),
    KeyToIdentifier("t", 0),
    KeyToIdentifier("mm", SERVERKEY_MODSTRING),
    KeyToIdentifier("pm", SERVERKEY_PLAYERLIMIT),
    KeyToIdentifier("tps", SERVERKEY_TPS),
    KeyToIdentifier("si", 0),
    KeyToIdentifier("h", SERVERKEY_HOSTMSG),
    KeyToIdentifier("k", SERVERKEY_PWD),
    KeyToIdentifier("ti", SERVERKEY_TIMELIMIT),
    KeyToIdentifier("ki", SERVERKEY_KILLLIMIT),
    KeyToIdentifier("g", SERVERKEY_G),
    KeyToIdentifier("", 0)
  ]

  /** The identifier of the first entry that spells the key, in either case; 0 if none does before the empty entry. */
  function KeyIdentifier(key: string, table: seq<KeyToIdentifier>): int {
    if table == [] || table[0].str == "" then 0
    else if EqualNoCase(table[0].str, key) then table[0].id
    else KeyIdentifier(key, table[1..])
  }

  /** The first entry that spells the key decides. */
  lemma {:induction false} FirstSpellingDecides(key: string, table: seq<KeyToIdentifier>, i: nat)
    requires i < |table| && EqualNoCase(table[i].str, key) && key != ""
    requires forall j :: 0 <= j < i ==> table[j].str != "" && !EqualNoCase(table[j].str, key)
    ensures KeyIdentifier(key, table) == table[i].id
  {
    if i > 0 {
      FirstSpellingDecides(key, table[1..], i - 1);
    }
  }

  /** Upper and lower case do not matter. */
  lemma {:induction false} CaseDoesNotMatter(a: string, b: string, table: seq<KeyToIdentifier>)
    requires EqualNoCase(a, b)
    ensures KeyIdentifier(a, table) == KeyIdentifier(b, table)
    decreases |table|
  {
    if table != [] {
      CaseDoesNotMatter(a, b, table[1..]);
    }
  }

  method GetKeyIdentifier(key: string, table: seq<KeyToIdentifier>) returns (id: int)
    requires table != [] && table[|table| - 1].str == ""
    ensures id == KeyIdentifier(key, table)
  {
    var i := 0;
    while table[i].str != ""
      invariant i < |table|
      invariant KeyIdentifier(key, table) == KeyIdentifier(key, table[i..])
      decreases |table| - i
    {
      assert table[i..][0] == table[i] && table[i..][1..] == table[i + 1..];
      if EqualNoCase(table[i].str, key) {
        return table[i].id;
      }
      i := i + 1;
    }
    assert table[i..][0] == table[i];
    return 0;
  }

  /** What the fields take from elsewhere: base-64 decoding, the hash that identifies a user or a game, `atoi`, and the
      numbers of the keys. */
  datatype Decoders = Decoders(decode: string -> string, identify: string -> nat, number: string -> int,
                               playerKey: string -> int, serverKey: string -> int)

  // ---------------------------------------------------------------- one field

  /** What `snprintf` writes into `n` characters. */
  function Clip(s: string, n: nat): string
    requires n > 0
  {
    if |s| < n then s else s[..n - 1]
  }

  function SetPlayerField(d: Decoders, p: PlayerInfo, key: string, value: string): PlayerInfo {
    var id := d.playerKey(key);
    if id == PLAYERKEY_NAME then p.(ingameName := d.decode(value))
    else if id == PLAYERKEY_USERID then
      p.(userId := Clip(value, USER_ID_LEN), uniqueIdentifier := d.identify(value))
    else if id == PLAYERKEY_TEAM then p.(team := d.number(value))
    else if id == PLAYERKEY_KILLS then p.(kills := d.number(value))
    else p
  }

  function SetServerField(d: Decoders, g: ServerInfo, key: string, value: string): ServerInfo {
    var id := d.serverKey(key);
    if id == SERVERKEY_NAME then g.(name := d.decode(value))
    else if id == SERVERKEY_MAP then g.(map_ := Clip(value + ".bzn", SERVER_MAP_LEN))
    else if id == SERVERKEY_VERSION then g.(version := Clip(value, SERVER_VER_LEN))
    else if id == SERVERKEY_HOSTMSG then g.(msg := Clip(value, SERVER_HOSTMSG_LEN))
    else if id == SERVERKEY_MODSTRING then g.(modId := SplitRaw(value, g.modId).ids)
    else if id == SERVERKEY_PLAYERLIMIT then g.(playerlimit := d.number(value))
    else if id == SERVERKEY_TPS then g.(tps := d.number(value))
    else if id == SERVERKEY_PWD then g.(pwd := true)
    else if id == SERVERKEY_MAX_PING then g.(maxPing := d.number(value))
    else if id == SERVERKEY_PING then g.(serverPing := d.number(value))
    else if id == SERVERKEY_GAMETIME then g.(gametime := d.number(value))
    else if id == SERVERKEY_GAMETYPE then g.(gametype := d.number(value))
    else if id == SERVERKEY_TIMELIMIT then g.(timelimit := d.number(value))
    else if id == SERVERKEY_KILLLIMIT then g.(killlimit := d.number(value))
    else if id == SERVERKEY_G then g.(uniqueIdentifier := d.identify(value))
    else g
  }

  /** What storing a key and its value does to a player and to a server. The table does not depend on it. */
  datatype Library = Library(setPlayer: (PlayerInfo, string, string) -> PlayerInfo,
                             setServer: (ServerInfo, string, string) -> ServerInfo)

  function Standard(d: Decoders): Library {
    Library((p: PlayerInfo, key: string, value: string) => SetPlayerField(d, p, key, value),
            (g: ServerInfo, key: string, value: string) => SetServerField(d, g, key, value))
  }

  // ---------------------------------------------------------------- one record

  /** Every call of the two notification functions, whether or not the window is minimized. */
  datatype Note =
    | GameNew(id: nat)
    | GameQuit(id: nat)
    | PlayerQuit(game: nat, player: PlayerInfo)
    | PlayerJoined(game: nat, player: PlayerInfo)
    | NickChanged(game: nat, was: PlayerInfo, player: PlayerInfo)

  /** The part of `WindowControls` that a scan works on. `game` and `player` are `scan_game` and `scan_player` as
      indices, `rows` the rows of the game list, oldest first, and `notes` a log. */
  datatype Table = Table(games: seq<GameInfo>, prev: seq<GameInfo>, prevCount: nat, servers: nat, game: nat,
                         players: nat, player: nat, rows: seq<nat>, notes: seq<Note>)

  /** The pointers point into their arrays once something has been stored. */
  predicate GoodTable(t: Table) {
    && |t.games| == MAX_SERVERS && |t.prev| == MAX_SERVERS
    && t.servers <= MAX_SERVERS && t.prevCount <= MAX_SERVERS && t.players <= MAX_PLAYERS
    && t.game < MAX_SERVERS && t.player < MAX_PLAYERS
    && (forall i :: 0 <= i < MAX_SERVERS ==> GoodGame(t.games[i]))
  }

  predicate GoodGame(g: GameInfo) {
    |g.playerinfo| == MAX_PLAYERS
  }

  /** The index of the first game with an identifier, among the first `count`; `count` if there is none. */
  function FindGame(games: seq<GameInfo>, count: nat, id: nat): (i: nat)
    requires count <= |games|
    ensures i <= count && (i < count ==> games[i].info.uniqueIdentifier == id)
    ensures forall j :: 0 <= j < i ==> games[j].info.uniqueIdentifier != id
    decreases count
  {
    if count == 0 then 0
    else
      var i := FindGame(games, count - 1, id);
      if i < count - 1 || games[i].info.uniqueIdentifier == id then i else count
  }

  /** `Stop` is the nonzero answer that ends the scan. */
  datatype Answer = Answer(stop: bool, table: Table)

  function OpenServer(t: Table, server: nat): Table
    requires server < |t.games|
  {
    t.(servers := t.servers + 1, players := 0, game := server, games := t.games[server := NoGame()])
  }

  /** `t` with another game under `scan_game`. */
  function WithGame(t: Table, g: GameInfo): Table
    requires t.game < |t.games|
  {
    t.(games := t.games[t.game := g])
  }

  function WithPlayer(g: GameInfo, i: nat, p: PlayerInfo): GameInfo
    requires i < |g.playerinfo|
  {
    g.(playerinfo := g.playerinfo[i := p])
  }

  function OpenPlayer(t: Table, player: nat): Table
    requires t.game < |t.games| && player < |t.games[t.game].playerinfo|
  {
    WithGame(t, WithPlayer(t.games[t.game], player, NO_PLAYER)).(players := t.players + 1, player := player)
  }

  function StorePlayerField(lib: Library, t: Table, r: Record): Table
    requires t.game < |t.games| && t.player < |t.games[t.game].playerinfo|
  {
    var g := t.games[t.game];
    var stored := WithPlayer(g, t.player, lib.setPlayer(g.playerinfo[t.player], r.key, r.value));
    WithGame(t, if r.status == Last then stored.(playerCount := stored.playerCount + 1) else stored)
  }

  function ModName(info: ServerInfo): string {
    Clip(Decimal(info.modId[0]), SERVER_NAME_LEN)
  }

  /** The mod name is the first mod id in digits, and reads back as that. */
  lemma ModNameIsTheFirstId(info: ServerInfo)
    requires info.modId[0] < 0x1_0000_0000
    ensures ModName(info) == Decimal(info.modId[0]) && Atoi(ModName(info)) == info.modId[0]
  {
    assert Power10(1) == 10 && Power10(2) == 100 && Power10(4) == 10000 && Power10(6) == 1000000;
    assert Power10(8) == 100000000 && Power10(10) == 10000000000;
    DecimalLength(info.modId[0], 10, 10000000000);
    AtoiDecimal(info.modId[0]);
  }

  /** The last field of a server makes its row visible, and announces the game if it is new. */
  function CloseServer(t: Table): Table
    requires t.game < |t.games| && t.prevCount <= |t.prev|
  {
    var g := t.games[t.game];
    var id := g.info.uniqueIdentifier;
    WithGame(t, g.(modName := ModName(g.info))).(
      rows := t.rows + [t.game],
      notes := t.notes + if id != 0 && FindGame(t.prev, t.prevCount, id) == t.prevCount then [GameNew(id)] else [])
  }

  function StoreServerField(lib: Library, t: Table, r: Record): Table
    requires GoodTable(t)
  {
    var g := t.games[t.game];
    var stored := WithGame(t, g.(info := lib.setServer(g.info, r.key, r.value)));
    if r.status == Last then CloseServer(stored) else stored
  }

  /** `ProcessSessionInfo` on a data callback. `go` is `iContinueScan`. */
  function Consume(lib: Library, t: Table, r: Record, go: bool): (a: Answer)
    requires GoodTable(t)
    ensures GoodTable(a.table)
  {
    if !go || r.server >= MAX_SERVERS || r.player >= MAX_PLAYERS || r.server > t.servers then Answer(true, t)
    else
      var t1 := if r.server == t.servers then OpenServer(t, r.server) else t;
      if r.isPlayer then
        if r.player > t1.players then Answer(true, t1)
        else
          var t2 := if r.player == t1.players then OpenPlayer(t1, r.player) else t1;
          Answer(false, StorePlayerField(lib, t2, r))
      else Answer(false, StoreServerField(lib, t1, r))
  }

  // ---------------------------------------------------------------- a scan

  /** `BeginScan`, and what `ScanThread` does first: the table becomes the previous one and is filled again. */
  function Begin(t: Table): Table {
    t.(prev := t.games, prevCount := t.servers, servers := 0, players := 0, rows := [])
  }

  /** The callbacks of a scan, up to the first that is answered with nonzero. */
  function ConsumeAll(lib: Library, t: Table, trace: seq<Record>): (a: Answer)
    requires GoodTable(t)
    ensures GoodTable(a.table)
    decreases |trace|
  {
    if trace == [] then Answer(false, t)
    else
      var a := Consume(lib, t, trace[0], true);
      if a.stop then a else ConsumeAll(lib, a.table, trace[1..])
  }

  function FindPlayer(g: GameInfo, id: nat): (i: nat)
    ensures i <= Counted(g) && (i < Counted(g) ==> g.playerinfo[i].uniqueIdentifier == id)
    ensures forall j :: 0 <= j < i ==> g.playerinfo[j].uniqueIdentifier != id
  {
    FindPlayerAmong(g.playerinfo[..Counted(g)], id)
  }

  function FindPlayerAmong(players: seq<PlayerInfo>, id: nat): (i: nat)
    ensures i <= |players| && (i < |players| ==> players[i].uniqueIdentifier == id)
    ensures forall j :: 0 <= j < i ==> players[j].uniqueIdentifier != id
  {
    if players == [] then 0
    else
      var i := FindPlayerAmong(players[..|players| - 1], id);
      if i < |players| - 1 || players[i].uniqueIdentifier == id then i else |players|
  }

  /** The players that `player_count` covers. */
  function Counted(g: GameInfo): (n: nat)
    ensures n <= |g.playerinfo|
  {
    if g.playerCount <= |g.playerinfo| then g.playerCount else |g.playerinfo|
  }
}
