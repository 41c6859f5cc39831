/** What a server and a player hold after all their fields, by the letters of the keys, and one lobby in full. */
module LiteralLobby {
  import opened CStrings
  import opened ParserSpec
  import opened ParserRuns
  import opened Document
  import opened ModList
  import opened SessionTable
  import opened SessionScan
  import opened DirectReading
  import opened LobbyScan
  import opened WholeScan
  import opened LiteralKeys
  import Identity

  // ---------------------------------------------------------------- the last value under a word

  /** The value of the last field whose key, of which 32 characters count, spells the word; 512 characters of it
      count. */
  function LastUnder(m: Members, word: string): Found {
    match m
    case NoMember => Missing
    case Member(_, key, _, _, val, _, rest) =>
      var later := LastUnder(rest, word);
      if later.Given? then later
      else if Scalar(val) && Spells(Copied(key, 32), word) then Given(Copied(TextOf(val), 512))
      else Missing
  }

  function Number(f: Found, before: int): int {
    match f case Missing => before case Given(v) => Atoi(v)
  }

  /** The texts of a game, read over those of `g`. */
  predicate HasTexts(decode: string -> string, g: ServerInfo, name: Found, map_: Found, version: Found, msg: Found,
                     pwd: Found, id: Found, r: ServerInfo) {
    && r.name == (if name.Given? then decode(name.text) else g.name)
    && r.map_ == (if map_.Given? then First(map_.text + ".bzn", 31) else g.map_)
    && r.version == (if version.Given? then First(version.text, 15) else g.version)
    && r.msg == (if msg.Given? then First(msg.text, 255) else g.msg)
    && r.pwd == (pwd.Given? || g.pwd)
    && r.uniqueIdentifier == (if id.Given? then Identity.Identify(id.text) else g.uniqueIdentifier)
  }

  predicate HasNumbers(g: ServerInfo, limit: Found, tps: Found, maxPing: Found, ping: Found, time: Found, kind: Found,
                       timelimit: Found, killlimit: Found, r: ServerInfo) {
    && r.playerlimit == Number(limit, g.playerlimit) && r.tps == Number(tps, g.tps)
    && r.maxPing == Number(maxPing, g.maxPing) && r.serverPing == Number(ping, g.serverPing)
    && r.gametime == Number(time, g.gametime) && r.gametype == Number(kind, g.gametype)
    && r.timelimit == Number(timelimit, g.timelimit) && r.killlimit == Number(killlimit, g.killlimit)
  }

  function One(key: string, word: string, v: string): Found {
    if Spells(key, word) then Given(v) else Missing
  }

  lemma OneText(decode: string -> string, g: ServerInfo, key: string, v: string)
    ensures HasTexts(decode, g, One(key, "n", v), One(key, "m", v), One(key, "v", v), One(key, "h", v),
                     One(key, "k", v), One(key, "g", v), SetServerField(Scanner(decode), g, key, v))
  {
    ServerTexts(decode, g, key, v);
    ServerNumbers(decode, g, key, v);
  }

  lemma OneNumber(decode: string -> string, g: ServerInfo, key: string, v: string)
    ensures HasNumbers(g, One(key, "pm", v), One(key, "tps", v), One(key, "pgm", v), One(key, "pg", v),
                       One(key, "gtm", v), One(key, "gt", v), One(key, "ti", v), One(key, "ki", v),
                       SetServerField(Scanner(decode), g, key, v))
  {
    ServerTexts(decode, g, key, v);
    ServerNumbers(decode, g, key, v);
  }

  /** Each text of a game is the last value under its word. */
  lemma {:induction false} TextsAreRead(decode: string -> string, g: ServerInfo, m: Members)
    requires ServerMembers(m)
    ensures HasTexts(decode, g, LastUnder(m, "n"), LastUnder(m, "m"), LastUnder(m, "v"), LastUnder(m, "h"),
                     LastUnder(m, "k"), LastUnder(m, "g"), FoldFields(Standard(Scanner(decode)), g, m))
    decreases m
  {
    if m.Member? && Scalar(m.val) {
      var key, v := Copied(m.key, KEY_LEN), Copied(TextOf(m.val), VALUE_LEN);
      OneText(decode, g, key, v);
      TextsAreRead(decode, SetServerField(Scanner(decode), g, key, v), m.rest);
    } else if m.Member? {
      TextsAreRead(decode, g, m.rest);
    }
  }

  /** So is each number. */
  lemma {:induction false} NumbersAreRead(decode: string -> string, g: ServerInfo, m: Members)
    requires ServerMembers(m)
    ensures HasNumbers(g, LastUnder(m, "pm"), LastUnder(m, "tps"), LastUnder(m, "pgm"), LastUnder(m, "pg"),
                       LastUnder(m, "gtm"), LastUnder(m, "gt"), LastUnder(m, "ti"), LastUnder(m, "ki"),
                       FoldFields(Standard(Scanner(decode)), g, m))
    decreases m
  {
    if m.Member? && Scalar(m.val) {
      var key, v := Copied(m.key, KEY_LEN), Copied(TextOf(m.val), VALUE_LEN);
      OneNumber(decode, g, key, v);
      NumbersAreRead(decode, SetServerField(Scanner(decode), g, key, v), m.rest);
    } else if m.Member? {
      NumbersAreRead(decode, g, m.rest);
    }
  }

  /** And what a player holds. */
  predicate HoldsPlayer(decode: string -> string, p: PlayerInfo, name: Found, id: Found, team: Found, kills: Found,
                        r: PlayerInfo) {
    && r.ingameName == (if name.Given? then decode(name.text) else p.ingameName)
    && r.userId == (if id.Given? then First(id.text, 31) else p.userId)
    && r.uniqueIdentifier == (if id.Given? then Identity.Identify(id.text) else p.uniqueIdentifier)
    && r.team == Number(team, p.team) && r.kills == Number(kills, p.kills) && r.localName == p.localName
  }

  lemma OnePlayerField(decode: string -> string, p: PlayerInfo, key: string, v: string)
    ensures HoldsPlayer(decode, p, One(key, "n", v), One(key, "i", v), One(key, "t", v), One(key, "k", v),
                        SetPlayerField(Scanner(decode), p, key, v))
  {
    PlayerTexts(decode, p, key, v);
  }

  /** Each field of a player is the last value under its word. */
  lemma {:induction false} PlayerIsRead(decode: string -> string, p: PlayerInfo, m: Members)
    requires ScalarMembers(m)
    ensures HoldsPlayer(decode, p, LastUnder(m, "n"), LastUnder(m, "i"), LastUnder(m, "t"), LastUnder(m, "k"),
                        FoldPlayer(Standard(Scanner(decode)), p, m))
    decreases m
  {
    if m.Member? {
      var key, v := Copied(m.key, KEY_LEN), Copied(TextOf(m.val), VALUE_LEN);
      OnePlayerField(decode, p, key, v);
      PlayerIsRead(decode, SetPlayerField(Scanner(decode), p, key, v), m.rest);
    }
  }

  // ---------------------------------------------------------------- the mod lists

  /** The values of all fields whose key spells "mm". */
  function ModsUnder(m: Members): seq<string> {
    match m
    case NoMember => []
    case Member(_, key, _, _, val, _, rest) =>
      (if Scalar(val) && Spells(Copied(key, 32), "mm") then [Copied(TextOf(val), 512)] else []) + ModsUnder(rest)
  }

  lemma ModKey(key: string)
    ensures KeyIdentifier(key, SERVER_KEY_TO_ID) == SERVERKEY_MODSTRING <==> Spells(key, "mm")
  {
    NumbersOfTexts(key);
    NumbersOfNumbers(key);
    if !FillsAServer(key) {
      OtherServerKeys(key);
    }
  }

  lemma {:induction false} ModsAreUnder(decode: string -> string, m: Members)
    ensures ModValues(Scanner(decode).serverKey, m) == ModsUnder(m)
  {
    if m.Member? {
      ModKey(Copied(m.key, KEY_LEN));
      ModsAreUnder(decode, m.rest);
    }
  }

  /** The mod slots of a game are what the lists under "mm" leave, one written over the other. */
  lemma ModsAreRead(decode: string -> string, g: ServerInfo, m: Members)
    requires ServerMembers(m)
    ensures FoldFields(Standard(Scanner(decode)), g, m).modId == SplitAll(g.modId, ModsUnder(m))
  {
    ModsAreUnder(decode, m);
    ModListsAreFolded(Scanner(decode), g, m);
  }

  /** So "1;2" and then "3" leaves 3 and 2. */
  lemma ModsMix(decode: string -> string)
    ensures ServerMembers(TWO_MOD_LISTS)
    ensures FoldFields(Standard(Scanner(decode)), NoInfo(), TWO_MOD_LISTS).modId == [3, 2] + NoMods()[2..]
  {
    ModKey("mm");
    ModListsMix(Scanner(decode));
  }

  // ---------------------------------------------------------------- one lobby in full

  const ITS_PLAYER: Members :=
    Member("", "n", "", "", Text("Ug=="), "",
    Member("", "i", "", "", Text("S1"), "",
    Member("", "t", "", "", Word("1"), "", NoMember)))

  const ITS_PLAYERS: Items := Item("", Obj("", ITS_PLAYER), "", NoItem)

  const FROM_K: Members := Member("", "k", "", "", Word("1"), "", NoMember)

  const FROM_PL: Members := Member("", "pl", "", "", Arr("", ITS_PLAYERS), "", FROM_K)

  const FROM_MM: Members := Member("", "mm", "", "", Text("12;34"), "", FROM_PL)

  const FROM_G: Members := Member("", "g", "", "", Word("ab12"), "", FROM_MM)

  const FROM_PM: Members := Member("", "PM", "", "", Word("8"), "", FROM_G)

  const FROM_M: Members := Member("", "m", "", "", Text("stock"), "", FROM_PM)

  const ITS_SERVER: Members := Member("", "n", "", "", Text("QQ=="), "", FROM_M)

  const THE_LOBBY: Node :=
    Obj("", Member("", "G", "", "", Arr("", Item("", Obj("", ITS_SERVER), "", NoItem)), "", NoMember))

  /** One field of a server, of which everything counts. */
  lemma FieldIsStored(decode: string -> string, g: ServerInfo, m: Members, key: string, v: string)
    requires m.Member? && ServerMembers(m) && Scalar(m.val) && m.key == key && TextOf(m.val) == v
    requires NUL !in key && |key| <= 32 && NUL !in v && |v| <= 512
    ensures FoldFields(Standard(Scanner(decode)), g, m) ==
      FoldFields(Standard(Scanner(decode)), SetServerField(Scanner(decode), g, key, v), m.rest)
  {
    ShortIsWhole(key, KEY_LEN);
    ShortIsWhole(v, VALUE_LEN);
  }

  lemma PlayerFieldIsStored(decode: string -> string, p: PlayerInfo, m: Members, key: string, v: string)
    requires m.Member? && ScalarMembers(m) && m.key == key && TextOf(m.val) == v
    requires NUL !in key && |key| <= 32 && NUL !in v && |v| <= 512
    ensures FoldPlayer(Standard(Scanner(decode)), p, m) ==
      FoldPlayer(Standard(Scanner(decode)), SetPlayerField(Scanner(decode), p, key, v), m.rest)
  {
    ShortIsWhole(key, KEY_LEN);
    ShortIsWhole(v, VALUE_LEN);
  }

  lemma OneDigit(n: nat)
    requires n < 10
    ensures Atoi([DigitChar(n)]) == n
  {
    AtoiDecimal(n);
  }

  function ThePlayer(decode: string -> string): PlayerInfo {
    PlayerInfo("", decode("Ug=="), "S1", 1, 0, Identity.Identify("S1"))
  }

  lemma ItsPlayerIsRead(decode: string -> string)
    ensures ScalarMembers(ITS_PLAYER) && ReadPlayer(Standard(Scanner(decode)), ITS_PLAYER) == ThePlayer(decode)
  {
    var p0, m := NO_PLAYER, ITS_PLAYER;
    assert ScalarMembers(m.rest.rest) && ScalarMembers(m.rest);
    PlayerFieldIsStored(decode, p0, m, "n", "Ug==");
    PlayerTexts(decode, p0, "n", "Ug==");
    var p1 := p0.(ingameName := decode("Ug=="));
    PlayerFieldIsStored(decode, p1, m.rest, "i", "S1");
    PlayerTexts(decode, p1, "i", "S1");
    var p2 := p1.(userId := "S1", uniqueIdentifier := Identity.Identify("S1"));
    PlayerFieldIsStored(decode, p2, m.rest.rest, "t", "1");
    PlayerTexts(decode, p2, "t", "1");
    OneDigit(1);
  }

  function TheMods(): seq<nat> { [12, 34] + NoMods()[2..] }

  function TheInfo(decode: string -> string): ServerInfo {
    NoInfo().(name := decode("QQ=="), map_ := "stock.bzn", playerlimit := 8,
              uniqueIdentifier := Identity.Identify("ab12"), modId := TheMods(), pwd := true)
  }

  lemma TheModsAreRead()
    ensures SplitRaw("12;34", NoMods()).ids == TheMods()
  {
    assert Decimal(1) == "1" && Decimal(3) == "3";
    assert Decimal(12) == "12" && Decimal(34) == "34";
    assert [12, 34][1..] == [34] && Join([34]) == "34" + "" == "34";
    assert Join([12, 34]) == "12" + ([';'] + Join([34])) == "12;34";
    ModListRoundTrip([12, 34], NoMods());
  }

  /** A field whose key and value count whole. */
  predicate IsField(m: Members, key: string, v: string) {
    && m.Member? && ServerMembers(m) && Scalar(m.val) && m.key == key && TextOf(m.val) == v
    && NUL !in key && |key| <= 32 && NUL !in v && |v| <= 512
  }

  lemma TextStep(decode: string -> string, g: ServerInfo, m: Members, key: string, v: string)
    requires IsField(m, key, v)
    ensures var r := FoldServer(decode, g, m);
      && (Spells(key, "n") ==> r == FoldServer(decode, g.(name := decode(v)), m.rest))
      && (Spells(key, "m") ==> r == FoldServer(decode, g.(map_ := First(v + ".bzn", 31)), m.rest))
      && (Spells(key, "k") ==> r == FoldServer(decode, g.(pwd := true), m.rest))
      && (Spells(key, "g") ==> r == FoldServer(decode, g.(uniqueIdentifier := Identity.Identify(v)), m.rest))
      && (Spells(key, "mm") ==> r == FoldServer(decode, g.(modId := SplitRaw(v, g.modId).ids), m.rest))
      && (Spells(key, "pm") ==> r == FoldServer(decode, g.(playerlimit := Atoi(v)), m.rest))
  {
    FieldIsStored(decode, g, m, key, v);
    ServerTexts(decode, g, key, v);
    ServerNumbers(decode, g, key, v);
  }

  function FoldServer(decode: string -> string, g: ServerInfo, m: Members): ServerInfo
    requires ServerMembers(m)
  {
    FoldFields(Standard(Scanner(decode)), g, m)
  }

  lemma ItsShape()
    ensures ScalarMembers(ITS_PLAYER) && PlayerItems(ITS_PLAYERS)
    ensures IsField(FROM_K, "k", "1") && ServerMembers(FROM_PL) && IsField(FROM_MM, "mm", "12;34")
    ensures IsField(FROM_G, "g", "ab12") && IsField(FROM_PM, "PM", "8") && IsField(FROM_M, "m", "stock")
    ensures IsField(ITS_SERVER, "n", "QQ==")
  {
    assert ScalarMembers(ITS_PLAYER.rest.rest) && ScalarMembers(ITS_PLAYER.rest);
    assert PlayerItems(ITS_PLAYERS.rest);
  }

  lemma ItsWords()
    ensures Spells("n", "n") && Spells("m", "m") && Spells("PM", "pm") && Spells("g", "g") && Spells("mm", "mm")
    ensures Spells("k", "k") && First("stock" + ".bzn", 31) == "stock.bzn"
  {
  }

  lemma ItsServerIsFolded(decode: string -> string)
    ensures ServerMembers(ITS_SERVER) && FoldServer(decode, NoInfo(), ITS_SERVER) == TheInfo(decode)
  {
    ItsShape();
    ItsWords();
    var g1 := NoInfo().(name := decode("QQ=="));
    var g2 := g1.(map_ := "stock.bzn");
    var g3 := g2.(playerlimit := 8);
    var g4 := g3.(uniqueIdentifier := Identity.Identify("ab12"));
    var g5 := g4.(modId := TheMods());
    TextStep(decode, NoInfo(), ITS_SERVER, "n", "QQ==");
    TextStep(decode, g1, FROM_M, "m", "stock");
    OneDigit(8);
    TextStep(decode, g2, FROM_PM, "PM", "8");
    TextStep(decode, g3, FROM_G, "g", "ab12");
    TheModsAreRead();
    TextStep(decode, g4, FROM_MM, "mm", "12;34");
    assert FoldServer(decode, g5, FROM_PL) == FoldServer(decode, g5, FROM_K);
    TextStep(decode, g5, FROM_K, "k", "1");
  }

  lemma FieldsHaveNoPlayers(lib: Library, m: Members)
    requires m.Member? && ServerMembers(m) && Scalar(m.val) && m.rest.Member?
    ensures Roster(lib, m) == Roster(lib, m.rest) && RosterLasts(m) == RosterLasts(m.rest)
    ensures EndsWithWord(m) == EndsWithWord(m.rest)
  {
    assert [] + Roster(lib, m.rest) == Roster(lib, m.rest);
  }

  lemma ItsRosterIsRead(decode: string -> string)
    ensures ServerMembers(ITS_SERVER) && Roster(Standard(Scanner(decode)), ITS_SERVER) == [ThePlayer(decode)]
    ensures RosterLasts(ITS_SERVER) == 1 && EndsWithWord(ITS_SERVER)
  {
    var lib := Standard(Scanner(decode));
    ItsShape();
    ItsPlayersAreRead(decode);
    FieldsHaveNoPlayers(lib, ITS_SERVER);
    FieldsHaveNoPlayers(lib, FROM_M);
    FieldsHaveNoPlayers(lib, FROM_PM);
    FieldsHaveNoPlayers(lib, FROM_G);
    FieldsHaveNoPlayers(lib, FROM_MM);
  }

  lemma ItsPlayersAreRead(decode: string -> string)
    ensures ServerMembers(FROM_PL) && Roster(Standard(Scanner(decode)), FROM_PL) == [ThePlayer(decode)]
    ensures RosterLasts(FROM_PL) == 1 && EndsWithWord(FROM_PL)
  {
    var lib := Standard(Scanner(decode));
    ItsShape();
    ItsPlayerIsRead(decode);
    assert ReadPlayers(lib, ITS_PLAYERS.rest) == [] && EndsWithWord(ITS_PLAYER);
    assert ReadPlayers(lib, ITS_PLAYERS) == [ThePlayer(decode)] && CountLasts(ITS_PLAYERS) == 1;
    assert Roster(lib, FROM_K) == [] && RosterLasts(FROM_K) == 0;
  }

  /** The one game: its mod name is its first mod id. */
  function TheGame(decode: string -> string): GameInfo {
    GameInfo(TheInfo(decode), "12", 1, [ThePlayer(decode)] + NoGame().playerinfo[1..])
  }

  lemma ItsModName(decode: string -> string)
    ensures ModName(TheInfo(decode)) == "12"
  {
    assert Decimal(1) == "1" && Decimal(12) == "12";
    assert TheMods()[0] == 12;
  }

  lemma ItsServerIsRead(decode: string -> string)
    ensures ServerMembers(ITS_SERVER) && |Roster(Standard(Scanner(decode)), ITS_SERVER)| == 1
    ensures ReadServer(Standard(Scanner(decode)), ITS_SERVER) == TheGame(decode)
  {
    ItsServerIsFolded(decode);
    ItsRosterIsRead(decode);
    ItsModName(decode);
  }

  // ---------------------------------------------------------------- the whole way

  lemma ItsPlayersArePrintable()
    ensures Printable(Arr("", ITS_PLAYERS)) && PlayersFit(ITS_PLAYERS) && PlayersFollow(ITS_PLAYERS, 0, 0)
    ensures Present(ITS_PLAYERS) == 1 && Count(ITS_PLAYERS) == 1
  {
    ItsShape();
    assert PrintableMembers(ITS_PLAYER.rest.rest) && PrintableMembers(ITS_PLAYER.rest) && PrintableMembers(ITS_PLAYER);
    assert FieldsFit(ITS_PLAYER.rest.rest) && FieldsFit(ITS_PLAYER.rest) && FieldsFit(ITS_PLAYER);
    var rest := ITS_PLAYERS.rest;
    assert PrintableItems(rest) && PlayersFit(rest) && PlayersFollow(rest, 1, 1) && Present(rest) == Count(rest) == 0;
  }

  lemma ItsServerIsPrintable()
    ensures PrintableMembers(ITS_SERVER)
  {
    ItsPlayersArePrintable();
    assert PrintableMembers(FROM_K) && PrintableMembers(FROM_PL) && PrintableMembers(FROM_MM);
    assert PrintableMembers(FROM_G) && PrintableMembers(FROM_PM) && PrintableMembers(FROM_M);
  }

  lemma ItsServerFits()
    ensures ServerMembers(ITS_SERVER) && ServerFits(ITS_SERVER) && RoomFor(ITS_SERVER, 0, 0) && Reports(ITS_SERVER)
  {
    ItsShape();
    ItsPlayersArePrintable();
    assert ServerFits(FROM_K) && ServerFits(FROM_PL) && ServerFits(FROM_MM) && ServerFits(FROM_G);
    assert ServerFits(FROM_PM) && ServerFits(FROM_M);
    assert RoomFor(FROM_K, 1, 1) && RoomFor(FROM_PL, 0, 0) && RoomFor(FROM_MM, 0, 0) && RoomFor(FROM_G, 0, 0);
    assert RoomFor(FROM_PM, 0, 0) && RoomFor(FROM_M, 0, 0);
  }

  lemma NoMoreServers(lib: Library, items: Items)
    requires items.NoItem?
    ensures PrintableItems(items) && ServerItems(items) && ServersFit(items) && AllHaveRoom(items)
    ensures SilentAtTheEnd(items) && Reporting(items) == 0 && ReadServers(lib, items) == []
    ensures ClosedServers(items, 1) == []
  {
  }

  lemma OneServerIsEnough(lib: Library, m: Members)
    requires PrintableMembers(m) && ServerMembers(m) && ServerFits(m) && RoomFor(m, 0, 0) && Reports(m)
    requires EndsWithWord(m)
    ensures var items := Item("", Obj("", m), "", NoItem);
      var root := Obj("", Member("", "G", "", "", Arr("", items), "", NoMember));
      && ScannableLobby(root) && Reporting(items) == 1 && ClosedServers(items, 0) == [0]
      && |Roster(lib, m)| <= MAX_PLAYERS && ReadServers(lib, items) == [ReadServer(lib, m)]
  {
    RosterFits(lib, m);
    var items := Item("", Obj("", m), "", NoItem);
    var root := Obj("", Member("", "G", "", "", Arr("", items), "", NoMember));
    NoMoreServers(lib, items.rest);
    assert PrintableItems(items) && ServerItems(items);
    assert PrintableMembers(root.members.rest) && PrintableMembers(root.members) && KeyFits("G");
  }

  /** The whole way of one lobby: printed into a file with any white space around it, and read in any chunks, it leaves
      one game, with its row and its player. */
  lemma TheLobbyIsScanned(decode: string -> string, t: Table, lead: string, trail: string, chunks: seq<string>)
    requires GoodTable(t) && AllSpace(lead) && AllSpace(trail) && (forall j :: 0 <= j < |chunks| ==> chunks[j] != "")
    requires Joined(chunks) == lead + Print(THE_LOBBY) + trail
    ensures var lib := Standard(Scanner(decode));
      var r := Parse(Answers(lib, Begin(t)), false, ReadsOf(chunks));
      var table := ConsumeAll(lib, Begin(t), r.trace).table;
      && ExitCode(r.end) == 0 && table.servers == 1 && table.rows == [0] && table.games[0] == TheGame(decode)
  {
    var lib := Standard(Scanner(decode));
    ItsServerIsPrintable();
    ItsServerFits();
    ItsRosterIsRead(decode);
    OneServerIsEnough(lib, ITS_SERVER);
    LobbyFileIsScanned(lib, t, THE_LOBBY, lead, trail, chunks);
    ItsServerIsRead(decode);
    var table := ConsumeAll(lib, Begin(t), Parse(Answers(lib, Begin(t)), false, ReadsOf(chunks)).trace).table;
    assert table.games[..table.servers][0] == table.games[0];
  }
}
