/** A lobby document read directly into games, and the same document parsed and consumed. */
module DirectReading {
  import opened Common
  import opened CStrings
  import opened ParserSpec
  import opened Document
  import opened ModList
  import opened SessionTable

  // ---------------------------------------------------------------- lobby documents

  predicate Scalar(v: Node) {
    v.Text? || v.Word?
  }

  function TextOf(v: Node): string
    requires Scalar(v)
  {
    match v case Text(t) => t case Word(w) => w
  }

  predicate ScalarMembers(m: Members) {
    m.Member? ==> Scalar(m.val) && ScalarMembers(m.rest)
  }

  /** Player objects. */
  predicate PlayerItems(items: Items) {
    items.Item? ==> items.val.Obj? && ScalarMembers(items.val.members) && PlayerItems(items.rest)
  }

  /** The objects that report something: those that hold a field. An empty one takes up a slot and reports nothing. */
  function Present(items: Items): nat {
    match items
    case NoItem => 0
    case Item(_, val, _, rest) => (if val.Obj? && val.members.Member? then 1 else 0) + Present(rest)
  }

  /** Scalar fields and arrays of players. */
  predicate ServerMembers(m: Members) {
    m.Member? ==>
      && (Scalar(m.val) || (m.val.Arr? && PlayerItems(m.val.items)))
      && ServerMembers(m.rest)
  }

  /** Something in the server is reported: a field or a player. */
  predicate Reports(m: Members) {
    m.Member? && (Scalar(m.val) || (m.val.Arr? && Present(m.val.items) > 0) || Reports(m.rest))
  }

  predicate ServerItems(items: Items) {
    items.Item? ==> items.val.Obj? && ServerMembers(items.val.members) && ServerItems(items.rest)
  }

  /** A root object that holds one array of servers. */
  predicate Lobby(root: Node) {
    && root.Obj? && root.members.Member? && root.members.rest.NoMember?
    && root.members.val.Arr? && ServerItems(root.members.val.items)
  }

  function Count(items: Items): nat {
    match items case NoItem => 0 case Item(_, _, _, rest) => 1 + Count(rest)
  }

  /** With `p` player objects before them, `n` of which reported something: no player that reports comes after sixteen
      objects, or after one that does not report. */
  predicate PlayersFollow(items: Items, n: nat, p: nat)
    requires PlayerItems(items)
  {
    items.Item? ==>
      if items.val.members.Member? then n == p < MAX_PLAYERS && PlayersFollow(items.rest, n + 1, p + 1)
      else PlayersFollow(items.rest, n, p + 1)
  }

  /** The same over all the arrays of a server, and no field comes after sixteen player objects. */
  predicate RoomFor(m: Members, n: nat, p: nat)
    requires ServerMembers(m)
  {
    m.Member? ==>
      if m.val.Arr? then
        PlayersFollow(m.val.items, n, p) && RoomFor(m.rest, n + Present(m.val.items), p + Count(m.val.items))
      else p < MAX_PLAYERS && RoomFor(m.rest, n, p)
  }

  predicate AllHaveRoom(items: Items)
    requires ServerItems(items)
  {
    items.Item? ==> RoomFor(items.val.members, 0, 0) && AllHaveRoom(items.rest)
  }

  function Reporting(items: Items): nat
    requires ServerItems(items)
  {
    if items.NoItem? then 0 else (if Reports(items.val.members) then 1 else 0) + Reporting(items.rest)
  }

  /** No server that reports something comes after one that does not. */
  predicate SilentAtTheEnd(items: Items)
    requires ServerItems(items)
  {
    items.Item? ==> (Reports(items.val.members) || Reporting(items.rest) == 0) && SilentAtTheEnd(items.rest)
  }

  /** After some servers, there is room for all that report something, in each for all its players, and neither skips an
      index. */
  predicate Acceptable(items: Items, servers: nat)
    requires ServerItems(items)
  {
    servers + Reporting(items) <= MAX_SERVERS && AllHaveRoom(items) && SilentAtTheEnd(items)
  }

  // ---------------------------------------------------------------- the direct reading

  datatype Found = Missing | Given(text: string)

  /** The value of the last field whose key has the number `id`. */
  function LastValue(keyOf: string -> int, m: Members, id: int): Found {
    match m
    case NoMember => Missing
    case Member(_, key, _, _, val, _, rest) =>
      var later := LastValue(keyOf, rest, id);
      if later.Given? then later
      else if Scalar(val) && keyOf(Copied(key, KEY_LEN)) == id then Given(Copied(TextOf(val), VALUE_LEN))
      else Missing
  }

  /** A player object, read field by field over what `p` already holds. */
  function FoldPlayer(lib: Library, p: PlayerInfo, m: Members): PlayerInfo
    requires ScalarMembers(m)
    decreases m
  {
    if m.NoMember? then p
    else
      FoldPlayer(lib, lib.setPlayer(p, Copied(m.key, KEY_LEN), Copied(TextOf(m.val), VALUE_LEN)), m.rest)
  }

  function ReadPlayer(lib: Library, m: Members): PlayerInfo
    requires ScalarMembers(m)
  {
    FoldPlayer(lib, NO_PLAYER, m)
  }

  /** The last member is a bare value, so the brace after it is reported as LAST. */
  predicate EndsWithWord(m: Members) {
    m.Member? && if m.rest.NoMember? then m.val.Word? else EndsWithWord(m.rest)
  }

  /** The players that report something. */
  function ReadPlayers(lib: Library, items: Items): seq<PlayerInfo>
    requires PlayerItems(items)
  {
    if items.NoItem? then []
    else
      (if items.val.members.Member? then [ReadPlayer(lib, items.val.members)] else []) + ReadPlayers(lib, items.rest)
  }

  function CountLasts(items: Items): nat
    requires PlayerItems(items)
  {
    if items.NoItem? then 0 else (if EndsWithWord(items.val.members) then 1 else 0) + CountLasts(items.rest)
  }

  /** All such players of a server, in document order. */
  function Roster(lib: Library, m: Members): seq<PlayerInfo>
    requires ServerMembers(m)
  {
    if m.NoMember? then []
    else (if m.val.Arr? then ReadPlayers(lib, m.val.items) else []) + Roster(lib, m.rest)
  }

  function RosterLasts(m: Members): nat
    requires ServerMembers(m)
  {
    if m.NoMember? then 0 else (if m.val.Arr? then CountLasts(m.val.items) else 0) + RosterLasts(m.rest)
  }

  /** The scalar fields of a server object, read over what `g` already holds. */
  function FoldFields(lib: Library, g: ServerInfo, m: Members): ServerInfo
    requires ServerMembers(m)
    decreases m
  {
    if m.NoMember? then g
    else if Scalar(m.val) then
      FoldFields(lib, lib.setServer(g, Copied(m.key, KEY_LEN), Copied(TextOf(m.val), VALUE_LEN)), m.rest)
    else FoldFields(lib, g, m.rest)
  }

  /** The game a server object describes. */
  function ReadServer(lib: Library, m: Members): GameInfo
    requires ServerMembers(m) && |Roster(lib, m)| <= MAX_PLAYERS
  {
    var info := FoldFields(lib, NoInfo(), m);
    GameInfo(info, if EndsWithWord(m) then ModName(info) else "", RosterLasts(m),
             Roster(lib, m) + NoGame().playerinfo[|Roster(lib, m)|..])
  }

  // ---------------------------------------------------------------- the last value wins

  /** `field` is what the key numbered `id` fills, and nothing else does. */
  ghost predicate IsField<T(!new)>(d: Decoders, id: int, field: ServerInfo -> T, put: string -> T) {
    forall g: ServerInfo, key: string, value: string {:trigger SetServerField(d, g, key, value)} ::
      field(SetServerField(d, g, key, value)) == if d.serverKey(key) == id then put(value) else field(g)
  }

  /** Under every key the last value wins; a field whose key does not occur keeps what it held. */
  lemma {:induction false} LastValueWins<T(!new)>(d: Decoders, id: int, field: ServerInfo -> T, put: string -> T,
                                                  g: ServerInfo, m: Members)
    requires IsField(d, id, field, put) && ServerMembers(m)
    ensures field(FoldFields(Standard(d), g, m)) ==
      match LastValue(d.serverKey, m, id) case Missing => field(g) case Given(v) => put(v)
    decreases m
  {
    if m.Member? {
      if Scalar(m.val) {
        var key, value := Copied(m.key, KEY_LEN), Copied(TextOf(m.val), VALUE_LEN);
        LastValueWins(d, id, field, put, SetServerField(d, g, key, value), m.rest);
      } else {
        LastValueWins(d, id, field, put, g, m.rest);
      }
    }
  }

  /** The fields and their keys. The mod list, which overwrites only the slots it fills, is looked at below. */
  lemma Fields(d: Decoders)
    ensures IsField(d, SERVERKEY_NAME, (g: ServerInfo) => g.name, (v: string) => d.decode(v))
    ensures IsField(d, SERVERKEY_MAP, (g: ServerInfo) => g.map_, (v: string) => Clip(v + ".bzn", SERVER_MAP_LEN))
    ensures IsField(d, SERVERKEY_VERSION, (g: ServerInfo) => g.version, (v: string) => Clip(v, SERVER_VER_LEN))
    ensures IsField(d, SERVERKEY_HOSTMSG, (g: ServerInfo) => g.msg, (v: string) => Clip(v, SERVER_HOSTMSG_LEN))
    ensures IsField(d, SERVERKEY_PWD, (g: ServerInfo) => g.pwd, (v: string) => true)
    ensures IsField(d, SERVERKEY_G, (g: ServerInfo) => g.uniqueIdentifier, (v: string) => d.identify(v))
  {
  }

  lemma NumberFields(d: Decoders)
    ensures IsField(d, SERVERKEY_PLAYERLIMIT, (g: ServerInfo) => g.playerlimit, (v: string) => d.number(v))
    ensures IsField(d, SERVERKEY_TPS, (g: ServerInfo) => g.tps, (v: string) => d.number(v))
    ensures IsField(d, SERVERKEY_MAX_PING, (g: ServerInfo) => g.maxPing, (v: string) => d.number(v))
    ensures IsField(d, SERVERKEY_PING, (g: ServerInfo) => g.serverPing, (v: string) => d.number(v))
    ensures IsField(d, SERVERKEY_GAMETIME, (g: ServerInfo) => g.gametime, (v: string) => d.number(v))
    ensures IsField(d, SERVERKEY_GAMETYPE, (g: ServerInfo) => g.gametype, (v: string) => d.number(v))
    ensures IsField(d, SERVERKEY_TIMELIMIT, (g: ServerInfo) => g.timelimit, (v: string) => d.number(v))
    ensures IsField(d, SERVERKEY_KILLLIMIT, (g: ServerInfo) => g.killlimit, (v: string) => d.number(v))
  {
  }

  ghost predicate IsPlayerField<T(!new)>(d: Decoders, id: int, field: PlayerInfo -> T, put: string -> T) {
    forall p: PlayerInfo, key: string, value: string {:trigger SetPlayerField(d, p, key, value)} ::
      field(SetPlayerField(d, p, key, value)) == if d.playerKey(key) == id then put(value) else field(p)
  }

  lemma {:induction false} LastPlayerValueWins<T(!new)>(d: Decoders, id: int, field: PlayerInfo -> T,
                                                        put: string -> T, p: PlayerInfo, m: Members)
    requires IsPlayerField(d, id, field, put) && ScalarMembers(m)
    ensures field(FoldPlayer(Standard(d), p, m)) ==
      match LastValue(d.playerKey, m, id) case Missing => field(p) case Given(v) => put(v)
    decreases m
  {
    if m.Member? {
      var key, value := Copied(m.key, KEY_LEN), Copied(TextOf(m.val), VALUE_LEN);
      LastPlayerValueWins(d, id, field, put, SetPlayerField(d, p, key, value), m.rest);
    }
  }

  lemma PlayerFields(d: Decoders)
    ensures IsPlayerField(d, PLAYERKEY_NAME, (p: PlayerInfo) => p.ingameName, (v: string) => d.decode(v))
    ensures IsPlayerField(d, PLAYERKEY_USERID, (p: PlayerInfo) => p.userId, (v: string) => Clip(v, USER_ID_LEN))
    ensures IsPlayerField(d, PLAYERKEY_USERID, (p: PlayerInfo) => p.uniqueIdentifier, (v: string) => d.identify(v))
    ensures IsPlayerField(d, PLAYERKEY_TEAM, (p: PlayerInfo) => p.team, (v: string) => d.number(v))
    ensures IsPlayerField(d, PLAYERKEY_KILLS, (p: PlayerInfo) => p.kills, (v: string) => d.number(v))
  {
  }

  // ---------------------------------------------------------------- the mod list

  /** The values of all mod lists of a server, in document order. */
  function ModValues(keyOf: string -> int, m: Members): seq<string> {
    match m
    case NoMember => []
    case Member(_, key, _, _, val, _, rest) =>
      (if Scalar(val) && keyOf(Copied(key, KEY_LEN)) == SERVERKEY_MODSTRING then [Copied(TextOf(val), VALUE_LEN)]
       else []) + ModValues(keyOf, rest)
  }

  function SplitAll(ids: seq<nat>, values: seq<string>): (r: seq<nat>)
    ensures |r| == |ids|
    decreases |values|
  {
    if values == [] then ids else SplitAll(SplitRaw(values[0], ids).ids, values[1..])
  }

  lemma {:induction false} SplitAllConcat(ids: seq<nat>, a: seq<string>, b: seq<string>)
    ensures SplitAll(ids, a + b) == SplitAll(SplitAll(ids, a), b)
    decreases |a|
  {
    if a == [] {
      assert a + b == b;
    } else {
      assert (a + b)[1..] == a[1..] + b;
      SplitAllConcat(SplitRaw(a[0], ids).ids, a[1..], b);
    }
  }

  lemma OneSplit(ids: seq<nat>, value: string)
    ensures SplitAll(ids, [value]) == SplitRaw(value, ids).ids
  {
    assert [value][1..] == [];
    assert SplitAll(SplitRaw(value, ids).ids, []) == SplitRaw(value, ids).ids;
  }

  lemma FieldsKeepMods(d: Decoders, g: ServerInfo, key: string, value: string)
    ensures SetServerField(d, g, key, value).modId ==
      if d.serverKey(key) == SERVERKEY_MODSTRING then SplitRaw(value, g.modId).ids else g.modId
  {
  }

  /** A game's mod slots are what its mod lists leave, one over the other. */
  lemma {:induction false} ModListsAreFolded(d: Decoders, g: ServerInfo, m: Members)
    requires ServerMembers(m)
    ensures FoldFields(Standard(d), g, m).modId == SplitAll(g.modId, ModValues(d.serverKey, m))
    decreases m
  {
    if m.Member? && Scalar(m.val) {
      var key, value := Copied(m.key, KEY_LEN), Copied(TextOf(m.val), VALUE_LEN);
      FieldsKeepMods(d, g, key, value);
      ModListsAreFolded(d, SetServerField(d, g, key, value), m.rest);
      if d.serverKey(key) == SERVERKEY_MODSTRING {
        OneSplit(g.modId, value);
        SplitAllConcat(g.modId, [value], ModValues(d.serverKey, m.rest));
      } else {
        assert [] + ModValues(d.serverKey, m.rest) == ModValues(d.serverKey, m.rest);
      }
    } else if m.Member? {
      ModListsAreFolded(d, g, m.rest);
      assert [] + ModValues(d.serverKey, m.rest) == ModValues(d.serverKey, m.rest);
    }
  }

  /** A server whose only mod list is a printed one holds its ids, and zeros after them. */
  lemma OneModListIsRead(d: Decoders, m: Members, list: seq<nat>)
    requires ServerMembers(m) && 1 <= |list| < MAX_MODS && Small(list) && ModValues(d.serverKey, m) == [Join(list)]
    ensures FoldFields(Standard(d), NoInfo(), m).modId == list + NoMods()[|list|..]
  {
    ModListsAreFolded(d, NoInfo(), m);
    OneSplit(NoMods(), Join(list));
    ModListRoundTrip(list, NoMods());
  }

  /** The last mod list wins, as the last value of any other key does, exactly if those before it have left only zeros
      beyond the slots it stores. */
  lemma LastModListWinsIff(d: Decoders, m: Members, before: seq<string>, last: string)
    requires ServerMembers(m) && ModValues(d.serverKey, m) == before + [last]
    ensures FoldFields(Standard(d), NoInfo(), m).modId == SplitRaw(last, NoMods()).ids <==>
      forall i :: |Stored(last, "", 0, MAX_MODS)| <= i < MAX_MODS ==> SplitAll(NoMods(), before)[i] == 0
  {
    ModListsAreFolded(d, NoInfo(), m);
    SplitAllConcat(NoMods(), before, [last]);
    var ids := SplitAll(NoMods(), before);
    OneSplit(ids, last);
    AloneIff(last, ids);
  }

  /** For two printed lists: exactly if the first has no id but zero where the second has ended. */
  lemma SecondModListWinsIff(d: Decoders, m: Members, first: seq<nat>, second: seq<nat>)
    requires 1 <= |first| < MAX_MODS && Small(first) && 1 <= |second| < MAX_MODS && Small(second)
    requires ServerMembers(m) && ModValues(d.serverKey, m) == [Join(first), Join(second)]
    ensures FoldFields(Standard(d), NoInfo(), m).modId == second + NoMods()[|second|..] <==>
      forall i :: |second| <= i < |first| ==> first[i] == 0
  {
    ModListsAreFolded(d, NoInfo(), m);
    assert [Join(first), Join(second)] == [Join(first)] + [Join(second)];
    SplitAllConcat(NoMods(), [Join(first)], [Join(second)]);
    OneSplit(NoMods(), Join(first));
    OneSplit(SplitRaw(Join(first), NoMods()).ids, Join(second));
    SecondListAloneIff(first, second);
  }

  /** A server with two mod lists. */
  const TWO_MOD_LISTS: Members :=
    Member("", "mm", "", "", Text("1;2"), "", Member("", "mm", "", "", Text("3"), "", NoMember))

  lemma ShortIsWhole(s: string, n: nat)
    requires NUL !in s && |s| <= n
    ensures Copied(s, n) == s
  {
    CStrIsWhole(s);
    CopiedIsCut(s, n);
  }

  /** "1;2" and then "3" leaves 3 and 2. */
  lemma ModListsMix(d: Decoders)
    requires d.serverKey("mm") == SERVERKEY_MODSTRING
    ensures ServerMembers(TWO_MOD_LISTS)
    ensures FoldFields(Standard(d), NoInfo(), TWO_MOD_LISTS).modId == [3, 2] + NoMods()[2..]
  {
    var m := TWO_MOD_LISTS;
    ShortIsWhole("mm", KEY_LEN);
    ShortIsWhole("1;2", VALUE_LEN);
    ShortIsWhole("3", VALUE_LEN);
    assert ModValues(d.serverKey, m.rest.rest) == [];
    assert ModValues(d.serverKey, m.rest) == ["3"] + [] == ["3"];
    assert ModValues(d.serverKey, m) == ["1;2"] + ["3"];
    ModListsAreFolded(d, NoInfo(), m);
    SplitAllConcat(NoMods(), ["1;2"], ["3"]);
    OneSplit(NoMods(), "1;2");
    OneSplit(SplitRaw("1;2", NoMods()).ids, "3");
    OldIdsStay();
  }
}
